# PiBeamProfiler: snapshot decision, data path and preview/snapshot cycle

PiBeamProfiler shows a live greyscale preview from a Raspberry Pi camera at
640 x 480. When the user presses "Take Snapshot", it captures one still at
3280 x 2464, sums the three colour channels of every pixel and cuts a
1000 x 1000 window out of the sum. It saves that window as a picture, and
then as a text matrix. The file names come from two text boxes. Afterwards
it goes back to the preview.

This project models that core, from `PiBeamProfiler.py`:

- `filenames.dfy` (module `FileNames`) covers the pattern `.txt|.png` that
  `re.search` looks for. The dot is unescaped and the search is not
  anchored, so a name is kept unchanged when any non-newline character
  followed by `txt` or `png` appears anywhere in it. An empty name gets no
  path. Any other name gets `.png` or `.txt` appended.
- `imaging.dfy` (module `Imaging`) covers the channel sum, numpy's clamped
  slicing, and the crop of line 226. That crop uses the width-based offset
  (1140) on the row axis and the height-based offset (732) on the column
  axis.
- `pipeline.dfy` (module `Pipeline`) describes each step's observable
  behaviour as an event log: camera reconfigurations, buffer allocations,
  preview frames, truncations, the still capture, file writes and the status
  dialog. It states which log the exports, the preview loop, a snapshot and
  a whole run produce. It also proves that replaying any run keeps the
  camera and the preview buffer consistent.
- `profiler.dfy` (module `Profiler`) holds the class `ProfLayout`. Its
  fields are the snapshot flag, the camera resolution, the size of the
  preview buffer `rawCapture` and the constant `imageres`. Its methods,
  `SetSnapFlag`, `PreviewLoop`, `TakeSnap`, `StartCamera` and `Run`, are
  proved to produce exactly the logs of `Pipeline`.
- `options.dfy` holds the `Option` type.

Camera frames and user clicks are inputs. A `Session` carries the clicks
made during each preview frame, the still frame, and the two text-box
contents for the snapshot that follows. In the source, `startCamera` and
`takeSnap` call each other. `Run` replaces that with a loop over sessions.

Three points of the code are easy to misread:

- The name test is not a suffix test. `re.search` is unanchored and the dot
  in `.txt|.png` is unescaped, so the pattern may occur anywhere in the
  name. `SuffixImpliesMatch` and `UnanchoredMatchKeepsName` show the
  difference.
- The crop is not centred. Line 226 puts the width-based offset 1140 on the
  row axis and the height-based offset 732 on the column axis.
  `SnapshotImageSpec` states the offsets actually used.
- A capture smaller than the crop cannot occur, because line 216 always
  captures at 3280 x 2464. For other shapes `Crop` clamps the slice as
  numpy does.

Two source lines are read by their evident intent:

- Line 226 needs Python 2's integer `/`. Under Python 3 the slice bounds
  would be floats and the slice would raise. The model uses integer offsets.
- Lines 232 and 251 call `re.fullmatch`, which exists only in Python 3.
  `re.fullmatch('', name)` is read as "the name is empty".

## Model

| member | source | states |
|---|---|---|
| FileNames.SearchFrom | PiBeamProfiler.py:229 | `re.search` of `.txt\|.png`: the result is the leftmost position at or after the start where a non-newline character is followed by `txt` or `png`; `None` means there is no such position |
| FileNames.PatternOccurs | PiBeamProfiler.py:212 | the search succeeds exactly when the pattern occurs at some position of the name |
| FileNames.AppendedExtensionMatches | PiBeamProfiler.py:236 | every name with `.png` or `.txt` appended matches the pattern |
| FileNames.ExportPath | PiBeamProfiler.py:229-258 | the path a name is written to: the name itself when the pattern occurs in it, none for the empty name (a warning instead), otherwise the name plus `.png` or `.txt`; its properties are the contracts of `ExportPathSpec`, `ExportPathUnchangedIff` and `ExportPathIdempotent` |
| FileNames.ExportPathSpec | PiBeamProfiler.py:229-236 | a path exists exactly when the name is non-empty; every path matches the pattern and is the name itself or the name plus the extension |
| FileNames.ExportPathUnchangedIff | PiBeamProfiler.py:229-236 | a non-empty name is written unchanged if and only if the pattern occurs in it; otherwise it is written as name + extension |
| FileNames.ExportPathIdempotent | PiBeamProfiler.py:244-258 | normalising an exported path again, with either extension, returns it unchanged |
| FileNames.SuffixImpliesMatch | PiBeamProfiler.py:212 | every name ending in `.png` or `.txt` matches the pattern |
| FileNames.UnanchoredMatchKeepsName | PiBeamProfiler.py:229-230 | `datatxtfile` has no extension, but the pattern occurs in it, so it is passed to the picture save unchanged |
| FileNames.NewlineDoesNotMatchDot | PiBeamProfiler.py:212 | a newline before `png` does not match the dot, so `\npng` is saved as `\npng.png` |
| Imaging.ChannelSum | PiBeamProfiler.py:225 | with byte channels, the sum of a pixel's channels lies in [0, 255 times the channel count] |
| Imaging.ChannelSumRgb | PiBeamProfiler.py:225 | on a three-channel pixel the sum is channel 0 + channel 1 + channel 2 |
| Imaging.RowSum | PiBeamProfiler.py:225 | a summed row is as long as the pixel row, and entry j is the channel sum of pixel j |
| Imaging.FrameSum | PiBeamProfiler.py:224-225 | the summed frame has the frame's rows and row lengths, and entry (i, j) is the channel sum of pixel (i, j) |
| Imaging.FrameSumShape | PiBeamProfiler.py:224-225 | on an RGB frame at (width, height) the sum has `resolution[1]` rows of `resolution[0]` values, each in [0, 765] |
| Imaging.Slice | PiBeamProfiler.py:226 | the slice `s[lo:hi]` has length hi - lo when the range fits, and element k is element lo + k of the input |
| Imaging.Crop | PiBeamProfiler.py:226 | the crop `g[top:bottom, left:right]` has bottom - top rows of right - left values when the window fits, and entry (i, j) is `g[top + i][left + j]` |
| Imaging.SnapshotImage | PiBeamProfiler.py:224-226 | the exported array: the channel sum of the still, cut to rows 1140.. and columns 732.. of 1000 each; its shape and entries are the contract of `SnapshotImageSpec` |
| Imaging.SnapshotImageSpec | PiBeamProfiler.py:216-226 | on a 3280 x 2464 still: offsets are row 1140 and column 732; the window lies inside the 2464 x 3280 array; the result is 1000 x 1000; entry (i, j) is the three-channel sum of still pixel (1140 + i, 732 + j) and lies in [0, 765] |
| Pipeline.MatrixEvents | PiBeamProfiler.py:243-260 | the log of the matrix export: the data warning for an empty name, otherwise "Data Exporting", the write of the array to the normalised path, and the dialog's close; stated by `MatrixWritten` and `ExportMatrix` |
| Pipeline.ExportEvents | PiBeamProfiler.py:229-260 | the log of both exports: the image warning alone for an empty picture name, otherwise the save of the array followed by the matrix export; stated by `ExportWrites`, `EmptyPictureNameOnlyWarns` and `EmptyMatrixNameWarnsAfterSave` |
| Pipeline.SnapTrace | PiBeamProfiler.py:211-266 | the log of `takeSnap`: reconfigure to 3280 x 2464 and capture, export, then reconfigure to 640 x 480 and allocate a new buffer; stated by `SnapRestoresPreview` and `TakeSnap` |
| Pipeline.MatrixWritten | PiBeamProfiler.py:244-260 | the matrix export writes nothing for an empty name and otherwise writes exactly the normalised `.txt` path |
| Pipeline.ExportWrites | PiBeamProfiler.py:229-260 | an empty picture name writes nothing, whatever the matrix name is; otherwise the picture path is written, then the matrix path if the matrix name is non-empty; every written path matches the pattern |
| Pipeline.EmptyPictureNameOnlyWarns | PiBeamProfiler.py:232-243 | an empty picture name shows only "Please type a filename for image export"; there is no write and no matrix step |
| Pipeline.EmptyMatrixNameWarnsAfterSave | PiBeamProfiler.py:243-253 | after the picture is saved, an empty matrix name shows "Please type a filename for data export" and nothing is written a second time |
| Pipeline.PlainNamesGetExtensions | PiBeamProfiler.py:236-258 | names `sample` and `data` write `sample.png` and then `data.txt` |
| Pipeline.MatchingNameKept | PiBeamProfiler.py:229-253 | `img.png` with an empty matrix name saves `img.png` once, then shows the matrix warning |
| Pipeline.PreviewTrace | PiBeamProfiler.py:134-160 | the log of the preview loop over a stream of clicks: each frame is shown, then the loop stops if the flag is set, and otherwise the buffer is truncated; stated by `PreviewTraceShape`, `PreviewKeepsCamera` and `PreviewLoop` |
| Pipeline.PreviewTraceShape | PiBeamProfiler.py:134-160 | the preview loop shows and truncates n frames with no click; without the flag and without a click, n is the whole stream, so the loop never stops early. If the flag is raised, it then shows frame n, the first frame at whose end the flag is set, and stops without truncating it |
| Pipeline.StartTrace | PiBeamProfiler.py:132-164 | the log of one `startCamera` without its re-entry: the preview, then the snapshot when the flag is set or a click came; stated by `StartCamera` |
| Pipeline.RunTrace | PiBeamProfiler.py:162-275 | the log of the whole run: each session's `startCamera`, re-entered from the snapshot's line 267 with the next session, until a preview ends with the flag clear; stated by `RunKeepsCameraConsistent` and `Run` |
| Pipeline.PreviewKeepsCamera | PiBeamProfiler.py:134-160 | every preview frame goes into an empty buffer sized to the camera's resolution; the preview changes neither, and only the frame on which the flag is set is left untruncated in the buffer |
| Pipeline.SnapRestoresPreview | PiBeamProfiler.py:216-266 | from any configuration, a snapshot captures its still at 3280 x 2464 and leaves the camera and a new, empty buffer at 640 x 480, whichever export branches are taken; the frame the preview loop left in the old buffer is dropped with it |
| Pipeline.RunKeepsCameraConsistent | PiBeamProfiler.py:132-267 | over any run of previews and snapshots, every preview frame goes into an empty buffer of the camera's resolution, every still is taken at 3280 x 2464, and the run ends with the camera and an empty buffer at the preview resolution |
| Profiler.ProfLayout.constructor | PiBeamProfiler.py:41-58 | the flag is clear, `imageres` is 640 x 480, and the camera and `rawCapture` are at `imageres` |
| Profiler.ProfLayout.SetSnapFlag | PiBeamProfiler.py:206-207 | the flag is set and nothing else changes, so calling it twice is the same as calling it once |
| Profiler.ProfLayout.PreviewLoop | PiBeamProfiler.py:134-160 | afterwards the flag is set exactly when it was set before or a click happened; the log grows by the preview trace |
| Profiler.ProfLayout.ExportPicture | PiBeamProfiler.py:229-237 | the picture is saved exactly when the name is non-empty, under its export path and with the cropped array; otherwise only the image warning is shown |
| Profiler.ProfLayout.ExportMatrix | PiBeamProfiler.py:244-260 | the log grows by the matrix step: a warning for an empty name, otherwise "Data Exporting", the write to the export path, and the dialog's close |
| Profiler.ProfLayout.TakeSnap | PiBeamProfiler.py:211-266 | the flag is clear, the camera and `rawCapture` are back at `imageres` (640 x 480), and the log grows by exactly the snapshot trace |
| Profiler.ProfLayout.StartCamera | PiBeamProfiler.py:132-164 | a snapshot runs exactly when the flag was set or a click happened; afterwards the flag is clear; the camera is left alone when no snapshot ran |
| Profiler.ProfLayout.Run | PiBeamProfiler.py:267-275 | starting in preview, the run ends in preview with the flag clear, and its log is the run trace |

## Left out

- PiCamera access is modelled only as events and inputs. This covers `capture_continuous`, `capture`, the frame rate, shutter, exposure and ISO settings, and `time.sleep` (lines 48-61, 134, 223). A still frame is an input to `TakeSnap`, and a preview frame is an event.
- The Qt GUI is not modelled: `initializeGUI`, widget layout, pixmap conversion and scaling (lines 65-130, 147-153). The message box appears only as `ShowMessage` and `CloseMessage` events.
- The preview's `np.mean` greyscale (line 139) is not modelled, because it is floating-point averaging. Each preview frame is logged as one event.
- The `astype(np.uint8)` cast before the picture is saved (line 227) is not modelled, because numpy leaves the overflow of sums above 255 to the platform. `SaveImage` carries the uncast sums.
- `np.array2string` formatting and the real file writes (lines 240, 247-248, 257-258) are not modelled, because they are library formatting and I/O. `WriteMatrix` carries the array and the path.
- ExportPicture (and `UnanchoredMatchKeepsName`, `SnapRestoresPreview`, `ExportWrites`): the picture save of lines 230 and 236 is modelled as always succeeding. PIL's `Image.save` chooses the format from the name's extension and raises for one it does not know, so a name the unanchored pattern accepts without an image extension (`datatxtfile`, `notes.txt`, `xpng`) raises at line 230. Nothing in `takeSnap`, `startCamera` or the main block (line 275) handles that exception, so the program ends there, before `a.exec_()` (line 278), and no matrix is written. The model logs the save and goes on, because PIL's format registry is not part of this model.
- The channel sum is exact integer arithmetic. The source sums in `float32`, which is exact for values up to 765.
- `cv2.waitKey` (line 143) is not modelled as a call. It is the only place in the preview loop where GUI events, and so the button's click (connected at line 96), are dispatched, since the Qt loop of line 278 starts only after `startCamera` returns. `presses[k]` is a click delivered there, after the frame is grabbed (line 137) and before the test at line 156.
- The commented-out resolution handlers (lines 98-127, 166-203) are left out, because they are dead code.
- The endless camera stream and the unbounded `startCamera`/`takeSnap` recursion are modelled as finite inputs. A preview stream ends after its last listed frame. A session with no click ends the run, which is what `startCamera` does when its loop ends with the flag clear.
- Run (and `RunKeepsCameraConsistent`): the loop over sessions does not capture the growth of the stack and of memory. In the source `takeSnap` calls `startCamera` as its last statement (line 267), so every snapshot leaves a `startCamera` and a `takeSnap` frame open, and each open `takeSnap` keeps its still (lines 222-223) and the full 2464 x 3280 sum alive, because the crop of line 226 is a view of it. A long run of the source therefore ends in `RecursionError` (Python's default limit of 1000 frames, about 500 snapshots) or `MemoryError` instead of returning to preview, whereas `Run` returns to preview after any number of sessions.
- Other filesystem failures (a directory that does not exist, no permission) and camera errors are not modelled. The source has no handling for them; a failing matrix write, like the failed save above, would end `takeSnap` early.
