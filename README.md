# AI-Shotcut shot materialisation, modelled in Dafny

AI-Shotcut extracts one still image per camera shot of a video. A scene detector
(PySceneDetect) finds the shots; the code modelled here is what happens next:
the loop that turns the detector's scene list into image files, and in the web
app also into a catalog of shot records. The loop exists in two variants:

- `process_video_to_shots` (app.py, the web app) deletes and recreates the
  output directory `extracted_shots`, reads each scene's frame three frames after
  its start, and for every successful read writes `shot_XXX.jpg` and appends a
  record `{id, path, time}`.
- `run_storyboard` (main.py, the command-line script) creates the directory only
  if it is missing, reads each scene at its start frame, and writes the same file
  names but returns no records.

Files:

- `naming.dfy` (module `Naming`): Python's `f"shot_{n:03d}.jpg"` and
  `os.path.join`, with a parser that inverts the file name.
- `media.dfy` (module `Media`): the OpenCV capture (`VideoCapture`: seek, read,
  with a fixed decode oracle and a ghost log of the frames read) and the output
  directory (`OutputFolder`: exists / rmtree / makedirs / imwrite on a map from
  file name to the frame whose image it holds).
- `shots.dfy` (module `Shots`): scenes, shot records, and what both loops share:
  the frames read (`TargetFrames`) and the files written (`WrittenFiles`).
- `app.dfy` (module `App`): the catalog and `ProcessVideoToShots`.
- `storyboard.dfy` (module `Storyboard`): `RunStoryboard` and the contents of a
  directory after a run.

Each loop is a method over the two objects, proved against specification
functions of the scene list. After `ProcessVideoToShots` the directory's files
are exactly `WrittenFiles` of the scenes (at start + 3), the capture's read log
is its earlier log followed by `TargetFrames` of the scenes, and the returned
catalog is `Catalog` of the scenes. After `RunStoryboard` the directory's files
are `StoryboardContents`: the files it held before, updated with `WrittenFiles`
of the scenes (at the start frame); the read log is again the earlier log
followed by `TargetFrames`. The lemmas then state what the source promises
about those functions.

Shot ids are the scene index plus one, not a count of successful reads: when a
read fails, that id and its file name are skipped (app.py lines 33 and 44).

## Model

| member | source | states |
|---|---|---|
| Naming.DecimalDenotes | app.py:40 | the decimal form of n is a non-empty string of digits whose value is n, with no leading zero for n >= 1 |
| Naming.PadLeftKeeps | app.py:40 | zero-padding to a width keeps the digits and the value and gives length max(width, original length) |
| Naming.Pad3Denotes | app.py:40 | `{n:03d}` is a digit string of at least three characters whose value is n, so nothing is truncated |
| Naming.Pad3Wide | app.py:40 | from 100 on `{n:03d}` adds no zero: the padded form is exactly `str(n)` |
| Naming.Pad3Injective | app.py:40 | distinct numbers give distinct padded strings, and only equal numbers give equal ones |
| Naming.Pad3ThreeDigits | app.py:40 | for n in 0..999 the padded form is exactly the hundreds, tens and units digit |
| Naming.Pad3LengthIff | app.py:40 | the padded form is exactly three characters long if and only if n <= 999 |
| Naming.ShotFileNameRoundTrip | main.py:37 | parsing `shot_{n:03d}.jpg` gives back n |
| Naming.ShotFileNameOf1000 | main.py:37 | shot 1000 is named `shot_1000.jpg`: written in full, neither truncated nor padded further |
| Naming.ShotFileNameInjective | main.py:37 | two shot file names are equal if and only if their numbers are |
| Naming.JoinPathSplits | app.py:41 | `os.path.join(dir, name)` splits back into dir, the separator and name |
| Media.VideoCapture.constructor | app.py:30 | a freshly opened capture is at frame 0 with nothing read yet |
| Media.VideoCapture.Seek | app.py:36 | seeking sets the position to the requested frame |
| Media.VideoCapture.Read | app.py:37 | a read succeeds exactly when the frame at the position decodes, returns that frame and logs it |
| Media.OutputFolder.Exists | app.py:23 | reports whether the directory exists |
| Media.OutputFolder.RemoveTree | app.py:24 | the directory and all its files are gone |
| Media.OutputFolder.MakeDirs | app.py:25 | a freshly created directory exists and is empty |
| Media.OutputFolder.WriteImage | app.py:42 | writing adds, or replaces, exactly the named file with the given frame and nothing else |
| Shots.TargetFrames | app.py:35-36 | one frame per scene, in order, each the scene's start frame plus the offset |
| Shots.Successes | app.py:33-39 | the number of scenes whose read succeeds is at most the number of scenes |
| Shots.WrittenFilesOnly | app.py:39-42 | every written file is `shot_{id:03d}.jpg` for an id in 1..scenes whose scene's read succeeded, and holds that scene's target frame |
| Shots.WrittenFilesAt | app.py:33-42 | scene i gets file `shot_{i+1:03d}.jpg`, holding its target frame, if and only if its read succeeds |
| Shots.WrittenFilesCount | main.py:27-41 | file names are pairwise distinct: exactly one file per successful read, never more files than scenes |
| Shots.WrittenFilesPrefix | main.py:27-42 | a file written for an earlier scene is still there, with the same image, after all later scenes |
| App.Catalog | app.py:31-47 | the catalog has at most one record per scene and every id lies in 1..number of scenes |
| App.CatalogRecord | app.py:43-47 | every record stands for a scene whose read at start + 3 succeeded; its path is `extracted_shots/shot_{id:03d}.jpg` and its time is that scene's start timecode |
| App.CatalogIdsIncrease | app.py:33-44 | the records are in scene order: ids strictly increase along the catalog |
| App.CatalogHasScene | app.py:37-47 | scene i's record (id i + 1, its path, its start timecode) is in the catalog if and only if the read at start + 3 succeeds |
| App.CatalogPathNamesId | app.py:40-44 | a record's path is `extracted_shots`, the separator `/`, then a shot file name whose number is the record's id |
| App.CatalogLength | app.py:39-47 | the catalog has one record per successful read |
| App.CatalogCountsFiles | app.py:39-47 | for every scene list, the empty one included, the catalog has as many records as the run writes files |
| App.CatalogMatchesFiles | app.py:39-47 | each record's file exists in the directory and holds its target frame |
| App.CatalogOfOneShot | app.py:40-46 | a single scene whose read succeeds gives exactly one record, id 1 with path `extracted_shots/shot_001.jpg` and the scene's start timecode |
| App.CatalogSkipsFailedId | app.py:33-46 | with two scenes of which only the second reads, the catalog is the single record with id 2 and `shot_002.jpg`: ids have gaps |
| App.ProcessVideoToShots | app.py:21-49 | afterwards the directory exists and holds exactly the files written in this run, the frames read are the start frames plus 3, the capture ends at or just past the last frame read, and the result is the catalog; no scenes gives an empty catalog and an empty directory |
| Storyboard.StoryboardFileAt | main.py:29-41 | after a run scene i's file holds its start frame when that frame decodes; otherwise the run left that name as it found it |
| Storyboard.StoryboardKeeps | main.py:11-12 | no file found in the directory is removed, one the run wrote no image for keeps its contents, and every added name is exactly `shot_{id:03d}.jpg` of a scene whose start frame decodes |
| Storyboard.StoryboardGrowth | main.py:27-41 | a run adds at most one new file name per successful read |
| Storyboard.RunStoryboard | main.py:9-45 | afterwards the directory exists and holds its prior contents updated with this run's images, no prior name is lost, the frames read are exactly the start frames, and the capture ends at or just past the last frame read |

## Left out

- Shot detection (`detect` with `ContentDetector` or `AdaptiveDetector`, and the `threshold` and `min_scene_len` settings): library code not shown; the scene list is an input of both methods.
- `FrameTimecode.get_frames` and `get_timecode`: library code; each scene carries its start frame and start timecode as given values. The end of each scene is never used by the loops and is not modelled.
- Opening the video (`cv2.VideoCapture(path)`) and `cap.release()`: the methods take an already open capture; releasing it has no stateable effect here.
- Frame decoding: whether a read succeeds is a fixed oracle of the capture; a decoded image is represented by its frame index. The model keeps the position where it was after a failed read; OpenCV does not document this, and no caller depends on it, since every read is preceded by a seek.
- JPEG encoding at quality 95 and failed writes: `WriteImage` always succeeds. In the source `cv2.imwrite` reports failure by a return value that `process_video_to_shots` ignores, so a record is appended even then; the model does not cover a failing disk.
- An entry named `extracted_shots` that is a regular file rather than a directory: the model has one directory that either exists or does not.
- `os.path.join` uses the POSIX separator `/`.
- Media.OutputFolder.MakeDirs and Media.OutputFolder.RemoveTree: require the directory to be absent, respectively present, because `os.makedirs` and `shutil.rmtree` raise otherwise and both callers check first; the raised errors are not modelled.
- All `print` output, the Streamlit interface (page setup, CSS, tabs, slider, upload to a temporary file, session state, the three-column grid): user interface with no logic of the loops.
- PDF and ZIP export: not present in the code.
