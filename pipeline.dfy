/**
 * The observable behaviour of the preview/snapshot cycle of PiBeamProfiler.py
 * as a log of events: camera reconfigurations, preview-buffer allocations, preview
 * frames, the still capture, file writes and the status dialog. The functions
 * here say which log each step of the program produces; the class in module
 * Profiler is proved to produce exactly these logs.
 */
module Pipeline {
  import opened Options
  import opened Imaging
  import FileNames

  datatype Event =
    | Configure(res: Res)                         // camera.resolution := res
    | Allocate(res: Res)                          // rawCapture := PiRGBArray(camera, size=res)
    | PreviewFrame                                // one frame of capture_continuous shown
    | Truncate                                    // rawCapture.truncate(0)
    | Capture(res: Res)                           // a fresh PiRGBArray for the still, then camera.capture at res
    | SaveImage(path: string, pixels: Image)      // imgForSave.save(path)
    | ShowMessage(text: string)                   // warningmessage.setText(text); open()
    | CloseMessage                                // warningmessage.close()
    | WriteMatrix(path: string, values: Image)    // the array written as text to path

  const PictureWarning := "Please type a filename for image export"
  const MatrixWarning := "Please type a filename for data export"
  const Exporting := "Data Exporting"

  /** The matrix export of lines 244-260, reached only once the picture is saved. */
  function MatrixEvents(matrixName: string, grey: Image): seq<Event>
  {
    match FileNames.ExportPath(matrixName, FileNames.TxtExt)
    case None => [ShowMessage(MatrixWarning)]
    case Some(path) => [ShowMessage(Exporting), WriteMatrix(path, grey), CloseMessage]
  }

  /** Both exports of `takeSnap` (lines 229-260): picture first, matrix only after it. */
  function ExportEvents(pictureName: string, matrixName: string, grey: Image): seq<Event>
  {
    match FileNames.ExportPath(pictureName, FileNames.PngExt)
    case None => [ShowMessage(PictureWarning)]
    case Some(path) => [SaveImage(path, grey)] + MatrixEvents(matrixName, grey)
  }

  /** What `takeSnap` does up to its re-entry into the preview (lines 211-266). */
  function SnapTrace(still: Frame, pictureName: string, matrixName: string): seq<Event>
  {
    [Configure(CaptureRes), Capture(CaptureRes)]
    + ExportEvents(pictureName, matrixName, SnapshotImage(still))
    + [Configure(PreviewRes), Allocate(PreviewRes)]
  }

  /** A log that grows by the steps of `takeSnap`, one after the other, grows by its trace. */
  lemma SnapTraceSplit(log: seq<Event>, still: Frame, pictureName: string, matrixName: string,
                       captured: seq<Event>, exported: seq<Event>, restored: seq<Event>)
    requires captured == log + [Configure(CaptureRes), Capture(CaptureRes)]
    requires exported == captured + ExportEvents(pictureName, matrixName, SnapshotImage(still))
    requires restored == exported + [Configure(PreviewRes), Allocate(PreviewRes)]
    ensures restored == log + SnapTrace(still, pictureName, matrixName)
  {
  }

  /** The paths of the files a log writes, in order. */
  function Written(es: seq<Event>): (ps: seq<string>)
    ensures |ps| <= |es|
  {
    if es == [] then []
    else match es[0]
      case SaveImage(p, _) => [p] + Written(es[1..])
      case WriteMatrix(p, _) => [p] + Written(es[1..])
      case _ => Written(es[1..])
  }

  lemma {:induction false} WrittenAppend(a: seq<Event>, b: seq<Event>)
    ensures Written(a + b) == Written(a) + Written(b)
  {
    if a == [] {
      assert a + b == b;
    } else {
      assert (a + b)[0] == a[0];
      assert (a + b)[1..] == a[1..] + b;
      WrittenAppend(a[1..], b);
    }
  }

  /** The matrix export writes the normalised path, or nothing for an empty name. */
  lemma MatrixWritten(matrixName: string, grey: Image)
    ensures Written(MatrixEvents(matrixName, grey)) ==
      if matrixName == "" then [] else [FileNames.ExportPath(matrixName, FileNames.TxtExt).value]
  {
    FileNames.ExportPathSpec(matrixName, FileNames.TxtExt);
    if matrixName != "" {
      var m := FileNames.ExportPath(matrixName, FileNames.TxtExt).value;
      var t := [ShowMessage(Exporting), WriteMatrix(m, grey), CloseMessage];
      assert MatrixEvents(matrixName, grey) == t;
      assert Written(t[2..]) == [] by { assert t[2..][1..] == []; }
      assert Written(t[1..]) == [m] by { assert t[1..][1..] == t[2..]; }
    } else {
      var t := [ShowMessage(MatrixWarning)];
      assert Written(t) == [] by { assert t[1..] == []; }
    }
  }

  /**
   * The files a snapshot writes: nothing when the picture name is empty,
   * whatever the matrix name; otherwise the picture path, then the matrix
   * path unless the matrix name is empty. Every path written matches the
   * extension pattern.
   */
  lemma ExportWrites(pictureName: string, matrixName: string, grey: Image)
    ensures pictureName == "" ==> Written(ExportEvents(pictureName, matrixName, grey)) == []
    ensures pictureName != "" && matrixName == "" ==>
      Written(ExportEvents(pictureName, matrixName, grey)) == [FileNames.ExportPath(pictureName, FileNames.PngExt).value]
    ensures pictureName != "" && matrixName != "" ==>
      Written(ExportEvents(pictureName, matrixName, grey)) ==
        [FileNames.ExportPath(pictureName, FileNames.PngExt).value, FileNames.ExportPath(matrixName, FileNames.TxtExt).value]
    ensures forall p :: p in Written(ExportEvents(pictureName, matrixName, grey)) ==> FileNames.PatternOccurs(p)
  {
    FileNames.ExportPathSpec(pictureName, FileNames.PngExt);
    FileNames.ExportPathSpec(matrixName, FileNames.TxtExt);
    if pictureName != "" {
      var save := [SaveImage(FileNames.ExportPath(pictureName, FileNames.PngExt).value, grey)];
      assert ExportEvents(pictureName, matrixName, grey) == save + MatrixEvents(matrixName, grey);
      WrittenAppend(save, MatrixEvents(matrixName, grey));
      assert Written(save) == [save[0].path] by { assert save[1..] == []; }
      MatrixWritten(matrixName, grey);
    } else {
      var t := [ShowMessage(PictureWarning)];
      assert Written(t) == [] by { assert t[1..] == []; }
    }
  }

  /**
   * An empty picture name gives the picture warning and nothing else: no
   * picture, no matrix and no matrix warning.
   */
  lemma EmptyPictureNameOnlyWarns(matrixName: string, grey: Image)
    ensures ExportEvents("", matrixName, grey) == [ShowMessage(PictureWarning)]
  {
  }

  /**
   * With a picture name, the picture is saved first with the cropped array;
   * an empty matrix name then gives the matrix warning and no second write.
   */
  lemma EmptyMatrixNameWarnsAfterSave(pictureName: string, grey: Image)
    requires pictureName != ""
    ensures ExportEvents(pictureName, "", grey) ==
      [SaveImage(FileNames.ExportPath(pictureName, FileNames.PngExt).value, grey), ShowMessage(MatrixWarning)]
  {
  }

  /** Names without the pattern get their extension: `sample` and `data` give `sample.png` then `data.txt`. */
  lemma PlainNamesGetExtensions(grey: Image)
    ensures Written(ExportEvents("sample", "data", grey)) == ["sample.png", "data.txt"]
  {
    var pic, mat := "sample", "data";
    assert !FileNames.PatternOccurs(pic) by {
      forall q | true ensures !FileNames.MatchAt(pic, q) {
        if q == 0 { assert pic[1] == 'a'; }
        else if q == 1 { assert pic[2] == 'm'; }
        else if q == 2 { assert pic[3] == 'p' && pic[4] == 'l'; }
      }
    }
    assert !FileNames.PatternOccurs(mat) by {
      forall q | true ensures !FileNames.MatchAt(mat, q) {
        if q == 0 { assert mat[1] == 'a'; }
      }
    }
    assert pic + FileNames.PngExt == "sample.png";
    assert mat + FileNames.TxtExt == "data.txt";
    ExportWrites(pic, mat, grey);
  }

  /** A name that already holds the pattern is kept: `img.png` is saved once, and an empty matrix name only warns. */
  lemma MatchingNameKept(grey: Image)
    ensures ExportEvents("img.png", "", grey) == [SaveImage("img.png", grey), ShowMessage(MatrixWarning)]
  {
    var pic := "img.png";
    assert FileNames.MatchAt(pic, 3) by { assert pic[4..7] == "png"; }
    EmptyMatrixNameWarnsAfterSave(pic, grey);
  }

  // ---------------------------------------------------------------------
  // The preview loop (lines 134-160)

  /**
   * The log of the preview loop over a stream of frames: `presses[k]` says
   * whether the snapshot button was clicked while frame k was being shown.
   * A frame is shown, then the flag is tested: set, the loop ends without
   * truncating the buffer; clear, the buffer is truncated for the next frame.
   */
  function PreviewTrace(flag: bool, presses: seq<bool>): seq<Event>
  {
    if presses == [] then []
    else if flag || presses[0] then [PreviewFrame]
    else [PreviewFrame, Truncate] + PreviewTrace(false, presses[1..])
  }

  /** n preview frames, each followed by the truncation of the buffer. */
  function Cycles(n: nat): (r: seq<Event>)
    ensures |r| == 2 * n
    ensures forall k :: 0 <= k < |r| ==> r[k] == if k % 2 == 0 then PreviewFrame else Truncate
  {
    if n == 0 then []
    else
      var r := [PreviewFrame, Truncate] + Cycles(n - 1);
      assert forall k :: 2 <= k < |r| ==> r[k] == Cycles(n - 1)[k - 2];
      r
  }

  /** The number of frames the preview loop completes before the frame on which it stops. */
  function Completed(flag: bool, presses: seq<bool>): nat
  {
    if presses == [] || flag || presses[0] then 0 else 1 + Completed(false, presses[1..])
  }

  /**
   * The shape of the preview log: n = Completed frames, none of them with a
   * click, each shown and truncated; if the flag was raised, frame n is the
   * first one during which it was set, and it is shown but not truncated.
   */
  lemma {:induction false} PreviewTraceShape(flag: bool, presses: seq<bool>)
    ensures Completed(flag, presses) <= |presses|
    ensures forall j :: 0 <= j < Completed(flag, presses) ==> !presses[j]
    ensures (flag || true in presses) && presses != [] ==>
      Completed(flag, presses) < |presses| && (flag || presses[Completed(flag, presses)])
    ensures flag ==> Completed(flag, presses) == 0
    ensures !flag && !(true in presses) ==> Completed(flag, presses) == |presses|
    ensures PreviewTrace(flag, presses) ==
      Cycles(Completed(flag, presses)) + (if (flag || true in presses) && presses != [] then [PreviewFrame] else [])
  {
    if presses != [] && !flag && !presses[0] {
      PreviewTraceShape(false, presses[1..]);
      assert presses == [presses[0]] + presses[1..];
      assert true in presses <==> true in presses[1..];
    }
  }

  /** A preview frame without the flag: the log grows by the frame and its truncation, and the loop goes on. */
  lemma PreviewContinues(log: seq<Event>, whole: seq<Event>, flag: bool, presses: seq<bool>, k: nat)
    requires k < |presses| && !flag && !presses[k]
    requires log + PreviewTrace(flag, presses[k..]) == whole
    ensures (log + [PreviewFrame, Truncate]) + PreviewTrace(false, presses[k + 1..]) == whole
    ensures true in presses[k..] <==> true in presses[k + 1..]
  {
    assert presses[k..][1..] == presses[k + 1..];
    assert presses[k..] == [presses[k]] + presses[k + 1..];
  }

  /** A preview frame with the flag set: the log grows by the frame alone, and the loop ends. */
  lemma PreviewStops(log: seq<Event>, whole: seq<Event>, flag: bool, presses: seq<bool>, k: nat)
    requires k < |presses| && (flag || presses[k])
    requires log + PreviewTrace(flag, presses[k..]) == whole
    ensures log + [PreviewFrame] == whole
    ensures presses[k] ==> true in presses[k..]
  {
    assert presses[k..][0] == presses[k];
  }

  // ---------------------------------------------------------------------
  // startCamera and the recursion through takeSnap (lines 132-164, 267)

  /**
   * What the environment supplies to one run of `startCamera`: the clicks
   * during its preview frames, and for the snapshot that follows them the
   * still frame and the two text-box contents.
   */
  datatype Session = Session(presses: seq<bool>, still: Frame, pictureName: string, matrixName: string)

  /** One call of `startCamera` without its re-entry: the preview, then the snapshot if the flag is set. */
  function StartTrace(flag: bool, s: Session): seq<Event>
  {
    PreviewTrace(flag, s.presses)
    + (if flag || true in s.presses then SnapTrace(s.still, s.pictureName, s.matrixName) else [])
  }

  /**
   * `startCamera` and `takeSnap` calling each other: every snapshot re-enters
   * the preview with the next session; a preview that ends with the flag clear
   * returns and ends the run.
   */
  function RunTrace(sessions: seq<Session>): seq<Event>
  {
    if sessions == [] then []
    else StartTrace(false, sessions[0]) + (if true in sessions[0].presses then RunTrace(sessions[1..]) else [])
  }

  /** A preview followed, if the flag is then set, by a snapshot is one `startCamera`. */
  lemma StartTraceSplit(log: seq<Event>, flag: bool, s: Session, previewed: seq<Event>, finished: seq<Event>)
    requires previewed == log + PreviewTrace(flag, s.presses)
    requires finished == if flag || true in s.presses then previewed + SnapTrace(s.still, s.pictureName, s.matrixName) else previewed
    ensures finished == log + StartTrace(flag, s)
  {
    var pre := PreviewTrace(flag, s.presses);
    if flag || true in s.presses {
      var snap := SnapTrace(s.still, s.pictureName, s.matrixName);
      assert StartTrace(flag, s) == pre + snap;
      assert (log + pre) + snap == log + (pre + snap);
    } else {
      assert StartTrace(flag, s) == pre + [];
    }
  }

  /**
   * One `startCamera` of a run: the log holds the run so far; after session
   * i it holds the run up to session i + 1, or the whole run when session i
   * took no snapshot.
   */
  lemma RunAdvance(log: seq<Event>, whole: seq<Event>, sessions: seq<Session>, i: nat, after: seq<Event>)
    requires i < |sessions|
    requires log + RunTrace(sessions[i..]) == whole
    requires after == log + StartTrace(false, sessions[i])
    ensures true in sessions[i].presses ==> after + RunTrace(sessions[i + 1..]) == whole
    ensures !(true in sessions[i].presses) ==> after == whole
  {
    assert sessions[i..][1..] == sessions[i + 1..];
  }

  // ---------------------------------------------------------------------
  // Camera and buffer consistency

  /**
   * What the camera is configured to, what the preview buffer is sized for,
   * and whether the buffer still holds a frame that was not truncated.
   */
  datatype CameraState = CameraState(resolution: Res, buffer: Res, filled: bool)

  /**
   * Replays one event on the camera: a preview frame needs an empty buffer
   * sized to the camera's resolution and fills it; a truncation empties it; a
   * new buffer is empty; a still needs the camera at the still's resolution.
   * `None` marks a frame taken in the wrong configuration.
   */
  function Step(c: CameraState, e: Event): Option<CameraState>
  {
    match e
    case Configure(r) => Some(c.(resolution := r))
    case Allocate(r) => Some(c.(buffer := r, filled := false))
    case PreviewFrame => if c.resolution == c.buffer && !c.filled then Some(c.(filled := true)) else None
    case Truncate => Some(c.(filled := false))
    case Capture(r) => if c.resolution == r then Some(c) else None
    case _ => Some(c)
  }

  function Replay(c: CameraState, es: seq<Event>): Option<CameraState>
    decreases |es|
  {
    if es == [] then Some(c)
    else match Step(c, es[0])
      case None => None
      case Some(c') => Replay(c', es[1..])
  }

  lemma {:induction false} ReplayAppend(c: CameraState, a: seq<Event>, b: seq<Event>)
    ensures Replay(c, a + b) == match Replay(c, a) case None => None case Some(c') => Replay(c', b)
    decreases |a|
  {
    if a == [] {
      assert a + b == b;
    } else {
      assert (a + b)[0] == a[0];
      assert (a + b)[1..] == a[1..] + b;
      match Step(c, a[0])
      case None =>
      case Some(c') => ReplayAppend(c', a[1..], b);
    }
  }

  const PreviewCamera := CameraState(PreviewRes, PreviewRes, false)

  /**
   * Preview frames are taken into an empty buffer of the camera's resolution;
   * the preview changes neither, and only the frame on which the flag is set
   * is left in the buffer.
   */
  lemma {:induction false} PreviewKeepsCamera(flag: bool, presses: seq<bool>)
    ensures Replay(PreviewCamera, PreviewTrace(flag, presses)) ==
      Some(PreviewCamera.(filled := (flag || true in presses) && presses != []))
  {
    if presses != [] && !flag && !presses[0] {
      PreviewKeepsCamera(false, presses[1..]);
      ReplayAppend(PreviewCamera, [PreviewFrame, Truncate], PreviewTrace(false, presses[1..]));
      assert presses == [presses[0]] + presses[1..];
      assert true in presses <==> true in presses[1..];
    }
  }

  /**
   * Whatever the camera was configured to, a snapshot captures its still at
   * 3280 x 2464 and leaves the camera and a new, empty preview buffer at
   * 640 x 480, whether both, one or none of the exports happened: the frame
   * the preview loop left untruncated is dropped with the old buffer.
   */
  lemma SnapRestoresPreview(c: CameraState, still: Frame, pictureName: string, matrixName: string)
    ensures Replay(c, SnapTrace(still, pictureName, matrixName)) == Some(PreviewCamera)
  {
    var head := [Configure(CaptureRes), Capture(CaptureRes)];
    var ex := ExportEvents(pictureName, matrixName, SnapshotImage(still));
    var tail := [Configure(PreviewRes), Allocate(PreviewRes)];
    var mid := c.(resolution := CaptureRes);
    ReplayAppend(c, head + ex, tail);
    ReplayAppend(c, head, ex);
    assert Replay(c, head) == Some(mid) by {
      assert head[1..] == [Capture(CaptureRes)] && head[1..][1..] == [];
      assert Replay(mid, head[1..]) == Some(mid);
    }
    assert Replay(mid, tail) == Some(PreviewCamera) by {
      assert tail[1..] == [Allocate(PreviewRes)] && tail[1..][1..] == [];
      assert Replay(mid.(resolution := PreviewRes), tail[1..]) == Some(PreviewCamera);
    }
    ExportKeepsCamera(mid, pictureName, matrixName, SnapshotImage(still));
  }

  lemma ExportKeepsCamera(c: CameraState, pictureName: string, matrixName: string, grey: Image)
    ensures Replay(c, ExportEvents(pictureName, matrixName, grey)) == Some(c)
  {
    if pictureName != "" {
      var path := FileNames.ExportPath(pictureName, FileNames.PngExt).value;
      ReplayAppend(c, [SaveImage(path, grey)], MatrixEvents(matrixName, grey));
      assert [SaveImage(path, grey)][1..] == [];
      var m := MatrixEvents(matrixName, grey);
      if matrixName == "" {
        assert m[1..] == [];
      } else {
        assert m[2..][1..] == [];
        assert Replay(c, m[2..]) == Some(c);
        assert m[1..][1..] == m[2..];
        assert Replay(c, m[1..]) == Some(c);
      }
    } else {
      assert [ShowMessage(PictureWarning)][1..] == [];
    }
  }

  /**
   * Over any run, starting in preview, every preview frame is taken into an
   * empty buffer sized to the camera's resolution, every still at
   * 3280 x 2464, and the camera and buffer end at the preview resolution
   * with the buffer empty.
   */
  lemma {:induction false} RunKeepsCameraConsistent(sessions: seq<Session>)
    ensures Replay(PreviewCamera, RunTrace(sessions)) == Some(PreviewCamera)
  {
    if sessions != [] {
      var s := sessions[0];
      var pre := PreviewTrace(false, s.presses);
      PreviewKeepsCamera(false, s.presses);
      if true in s.presses {
        var snap := SnapTrace(s.still, s.pictureName, s.matrixName);
        SnapRestoresPreview(PreviewCamera.(filled := true), s.still, s.pictureName, s.matrixName);
        RunKeepsCameraConsistent(sessions[1..]);
        assert s.presses != [];
        ReplayAppend(PreviewCamera, pre, snap);
        ReplayAppend(PreviewCamera, pre + snap, RunTrace(sessions[1..]));
      } else {
        assert RunTrace(sessions) == pre + [];
        assert pre + [] == pre;
      }
    }
  }
}
