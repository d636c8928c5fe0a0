/**
 * The `proflayout` widget of PiBeamProfiler.py reduced to the state its
 * preview and snapshot code updates: the snapshot flag, the camera
 * resolution, the size of the preview buffer `rawCapture`, and the constant
 * preview resolution `imageres`. What the camera, the dialog and the file
 * system see is appended to `events`.
 */
module Profiler {
  import opened Imaging
  import opened Pipeline
  import FileNames

  class ProfLayout {
    var snapFlag: bool
    var resolution: Res
    var rawCapture: Res
    const imageres: Res
    var events: seq<Event>

    /** The object invariant: `imageres` is 640 x 480; as a constant it never changes. */
    predicate Valid()
      reads this
    {
      imageres == PreviewRes
    }

    /** Camera and preview buffer are both at the preview resolution. */
    predicate Previewing()
      reads this
    {
      resolution == imageres && rawCapture == imageres
    }

    /** `__init__` (lines 35-58): flag clear, camera and buffer at `imageres`. */
    constructor ()
      ensures Valid() && Previewing() && !snapFlag
      ensures events == [Configure(PreviewRes), Allocate(PreviewRes)]
    {
      snapFlag := false;
      imageres := PreviewRes;
      resolution := PreviewRes;
      rawCapture := PreviewRes;
      events := [Configure(PreviewRes), Allocate(PreviewRes)];
    }

    /** `setSnapFlag` (lines 206-207), the snapshot button's handler; raising a raised flag changes nothing. */
    method SetSnapFlag()
      modifies this`snapFlag
      ensures snapFlag
    {
      snapFlag := true;
    }

    /**
     * The `for` loop of `startCamera` (lines 134-160) over a stream of frames;
     * `presses[k]` is whether the button was clicked while frame k was shown.
     * It ends after the first frame at whose end the flag is set, without
     * truncating the buffer for that frame, or when the stream ends.
     */
    method PreviewLoop(presses: seq<bool>)
      modifies this`snapFlag, this`events
      ensures snapFlag == (old(snapFlag) || true in presses)
      ensures events == old(events) + PreviewTrace(old(snapFlag), presses)
    {
      var k := 0;
      while k < |presses|
        invariant 0 <= k <= |presses|
        invariant k > 0 ==> !snapFlag
        invariant (old(snapFlag) || true in presses) == (snapFlag || true in presses[k..])
        invariant events + PreviewTrace(snapFlag, presses[k..]) == old(events) + PreviewTrace(old(snapFlag), presses)
      {
        ghost var shown := events;
        ghost var flag := snapFlag;
        events := events + [PreviewFrame];
        if presses[k] {
          SetSnapFlag();
        }
        if snapFlag {
          PreviewStops(shown, old(events) + PreviewTrace(old(snapFlag), presses), flag, presses, k);
          break;
        }
        events := events + [Truncate];
        PreviewContinues(shown, old(events) + PreviewTrace(old(snapFlag), presses), flag, presses, k);
        k := k + 1;
      }
    }

    /**
     * The picture export of `takeSnap` (lines 229-237): the name is used as
     * it is when the pattern occurs in it, an empty name only raises the
     * warning, any other name gets `.png`. `saved` is `not isNotSaved`.
     */
    method ExportPicture(grey: Image, pictureName: string) returns (saved: bool)
      modifies this`events
      ensures saved == (pictureName != "")
      ensures saved ==> events == old(events) + [SaveImage(FileNames.ExportPath(pictureName, FileNames.PngExt).value, grey)]
      ensures !saved ==> events == old(events) + [ShowMessage(PictureWarning)]
    {
      if FileNames.PatternOccurs(pictureName) {
        events := events + [SaveImage(pictureName, grey)];
        saved := true;
      } else if pictureName == "" {
        // re.fullmatch('', name) (a Python 3 call) holds only of the empty name
        events := events + [ShowMessage(PictureWarning)];
        saved := false;
      } else {
        events := events + [SaveImage(pictureName + FileNames.PngExt, grey)];
        saved := true;
      }
    }

    /**
     * The matrix export of `takeSnap` (lines 244-260), the same decision with
     * `.txt`; a write is surrounded by the "Data Exporting" message.
     */
    method ExportMatrix(grey: Image, matrixName: string)
      modifies this`events
      ensures events == old(events) + MatrixEvents(matrixName, grey)
    {
      if FileNames.PatternOccurs(matrixName) {
        events := events + [ShowMessage(Exporting)];
        events := events + [WriteMatrix(matrixName, grey)];
        events := events + [CloseMessage];
      } else if matrixName == "" {
        events := events + [ShowMessage(MatrixWarning)];
      } else {
        events := events + [ShowMessage(Exporting)];
        events := events + [WriteMatrix(matrixName + FileNames.TxtExt, grey)];
        events := events + [CloseMessage];
      }
    }

    /**
     * `takeSnap` up to its re-entry into the preview (lines 211-266): switch
     * the camera to 3280 x 2464, capture one still, export the cropped
     * channel sum, the matrix only once the picture is saved (`isNotSaved`),
     * then clear the flag and restore the camera and the buffer to `imageres`.
     */
    method TakeSnap(still: Frame, pictureName: string, matrixName: string)
      requires Valid()
      modifies this`snapFlag, this`resolution, this`rawCapture, this`events
      ensures Valid() && Previewing() && !snapFlag
      ensures events == old(events) + SnapTrace(still, pictureName, matrixName)
    {
      var isNotSaved := true;
      resolution := CaptureRes;
      events := events + [Configure(resolution), Capture(resolution)];
      // sum over the channels, then slice out the window (line 226, Python 2 integer offsets)
      var grey := SnapshotImage(still);
      ghost var captured := events;

      var saved := ExportPicture(grey, pictureName);
      isNotSaved := !saved;
      if !isNotSaved {
        ExportMatrix(grey, matrixName);
      }
      ghost var exported := events;
      assert exported == captured + ExportEvents(pictureName, matrixName, grey);

      snapFlag := false;
      resolution := imageres;
      rawCapture := imageres;
      events := events + [Configure(imageres), Allocate(imageres)];
      SnapTraceSplit(old(events), still, pictureName, matrixName, captured, exported, events);
    }

    /**
     * `startCamera` (lines 132-164) without its re-entry: the preview loop,
     * then a snapshot when the loop ended with the flag set. Afterwards the
     * flag is clear; `snapped` says whether the snapshot ran.
     */
    method StartCamera(s: Session) returns (snapped: bool)
      requires Valid()
      modifies this`snapFlag, this`resolution, this`rawCapture, this`events
      ensures Valid() && !snapFlag
      ensures snapped == (old(snapFlag) || true in s.presses)
      ensures snapped ==> Previewing()
      ensures !snapped ==> resolution == old(resolution) && rawCapture == old(rawCapture)
      ensures events == old(events) + StartTrace(old(snapFlag), s)
    {
      PreviewLoop(s.presses);
      ghost var previewed := events;
      snapped := snapFlag;
      if snapFlag {
        TakeSnap(s.still, s.pictureName, s.matrixName);
      }
      StartTraceSplit(old(events), old(snapFlag), s, previewed, events);
    }

    /**
     * The program's life from the first `startCamera` (line 275): each
     * snapshot re-enters the preview (line 267) with the next session, here
     * an iteration instead of a nested call; a preview stream that ends
     * without a click returns and ends the run.
     */
    method Run(sessions: seq<Session>)
      requires Valid() && Previewing() && !snapFlag
      modifies this`snapFlag, this`resolution, this`rawCapture, this`events
      ensures Valid() && Previewing() && !snapFlag
      ensures events == old(events) + RunTrace(sessions)
    {
      var i := 0;
      while i < |sessions|
        invariant 0 <= i <= |sessions|
        invariant Valid() && Previewing() && !snapFlag
        invariant events + RunTrace(sessions[i..]) == old(events) + RunTrace(sessions)
      {
        ghost var before := events;
        var snapped := StartCamera(sessions[i]);
        RunAdvance(before, old(events) + RunTrace(sessions), sessions, i, events);
        if !snapped {
          break;
        }
        i := i + 1;
      }
    }
  }
}
