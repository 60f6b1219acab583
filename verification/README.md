# Video Frame Extractor, modelled in Dafny

Video Frame Extractor is a desktop tool. It samples one frame every `interval` seconds of a
video and saves each one as a PNG or JPEG file under `processed_output/frames/`, next to the
video. It then measures the saved images and writes `processed_output/processing_report.json`.
The user can cancel a run from the window at any time. Two maintenance scripts ship with it:
a requirements generator and a release script.

This project models four parts of the tool and proves what each promises:

- **`VideoProcessor`** (video_processor.py)
  - It keeps a cancellation flag and a status callback.
  - It runs four stages: metadata, frame extraction, analysis and the report.
  - A cancellation checkpoint comes before each stage and before each frame.
  - A cancelled run deletes what it wrote below its output directory.
  - In the model:
    - Module `Frames`: the pure parts (timestamps, the sampling schedule, frame names, the encoder choice, averages).
    - Module `Pipeline`: each stage as a function from state to outcome and new state.
    - Module `VideoProcessing`: the class `VideoProcessor`, working on a `Disk`, with its methods proved to follow those functions.
    - Module `Runs`: what a whole run promises.
    - Module `Paths`: the `posixpath` functions the processor uses.
- **`VideoProcessorGUI`** (main.py), modelled in module `Gui`.
  - The controller is the class `VideoProcessorGui`, without its widgets.
  - It holds the message queue the worker thread fills and the handlers that drain it.
  - Its state is the busy flag, the buttons, the progress text, the result lines and the dialogs shown.
- **The requirements generator** (generate_requirements.py), modelled in module `Requirements`.
  - It collects the non-standard packages imported by the project's source files.
  - It keeps the `pip freeze` lines that pin them and installs missing essential packages.
  - It writes the pins, sorted, to `requirements.txt`.
- **The release script** (scripts/release.py), modelled in module `Release`.
  - It validates an `X.Y.Z` version.
  - It writes it into two `version.py` files and into the `APP_VERSION` assignment of `src/config.py`.
  - It then runs five git commands, stopping at the first that fails.

String helpers (Python's `strip`, `split`, `split()`, `lower`, string order, digits) live in
module `Text`.

Environment effects become parameters.

- **Video decoder:** the frame encoder and the JSON writer are a `Media` value. It gives the video's properties and the byte size of each encoded image and of the report.
- **Cancellation:** the moment the user cancels is `cancel: Option<nat>`. It names the checkpoint just before which `cancel_processing` runs on the other thread.
- **pip:** `pip freeze` is a listing. `pip install` is a function from package name to the listing afterwards, or `None` when the install raised.
- **Files:** the project's source files are a sequence of contents, each of which may be unreadable.
- **git:** each git command's return code is an input.

## Model

| member | source | states |
|---|---|---|
| Frames.Hms | video_processor.py:40-44 | hours, minutes and seconds recombine to the input; minutes and seconds lie in 0..59 |
| Frames.TimestampRoundTrip | video_processor.py:40-44 | a formatted `HH-MM-SS` timestamp parses back to the same number of seconds, and is at least 8 characters long |
| Frames.TextRoundTrip | video_processor.py:44 | the text for given hours, minutes and seconds parses back to their total in seconds |
| Frames.TimestampChars | video_processor.py:44 | a timestamp holds neither `_` nor `.`, so it never disturbs the frame-file name |
| Frames.ScheduleSpec | video_processor.py:55 | `range(0, int(duration), interval)`: the i-th sample is i·interval; the samples increase; t is a sample exactly when 0 ≤ t < int(duration) and interval divides t; the count is the ceiling of the quotient |
| Frames.RangeUpShape | video_processor.py:55 | the upward `range` lists start + i·step for each i, strictly increasing, ending at the last value below stop |
| Frames.EncoderChoice | video_processor.py:72-75 | JPEG (with the requested quality) exactly when the format lower-cases to "jpg"; PNG for every other format |
| Frames.FrameNameIndex | video_processor.py:67-68 | the frame index can be read back from a frame-file name |
| Frames.FrameNameRoundTrip | video_processor.py:67-68 | a frame-file name parses back to its sample time and index |
| Frames.FrameNamesDistinct | video_processor.py:67-68 | frames with different indices get different file names |
| Frames.AverageBetween | video_processor.py:91-99 | the average of non-empty frame sizes lies between their minimum and maximum bounds |
| Frames.SumBounds | video_processor.py:91-97 | the sum of n sizes lies between n·lo and n·hi |
| Paths.PathJoin | video_processor.py:13 | `os.path.join`: an absolute second part replaces the first |
| Paths.Basename | video_processor.py:33 | `os.path.basename`: a slash-free suffix of the path, either the whole path or what follows a slash |
| Paths.Dirname | video_processor.py:13 | `os.path.dirname`: a prefix of the path, empty when the path has no slash |
| Paths.DirnameOfHead | video_processor.py:13 | for a path with a slash: the head (the path up to and including its last slash) when the head is all slashes, otherwise the head without its trailing slashes |
| Paths.ExtensionSuffix | video_processor.py:35 | the extension from `os.path.splitext` is a suffix of the path, empty or starting with '.' |
| Paths.ExtensionOfBase | video_processor.py:35 | the extension is a suffix of the base name; a non-empty one holds no '.' after its first character and follows a character other than '.'; it is empty only when every last '.' of the base name has nothing but dots before it |
| Paths.JoinUnder | video_processor.py:49 | a relative name joined to a directory lies below that directory |
| Paths.JoinInjective | video_processor.py:69 | joining different relative names to one directory gives different paths |
| Paths.UnderSubdirectory | video_processor.py:152-156 | what lies below a subdirectory lies below the directory |
| Pipeline.FirstFiring | video_processor.py:21-24 | the first checkpoint that raises among the next n: none before it sees the flag or the cancel request, and it does |
| Pipeline.FirstUnsaved | video_processor.py:57-75 | the first frame that cannot be decoded and saved: every frame before it can |
| Pipeline.SampleFromStart | video_processor.py:57-78 | the sampling loop run pass by pass ends as the closed form says: the frames before the first raising checkpoint or the first unsaved frame are saved and announced, and the outcome is the cancellation, that frame's error, or every frame |
| Pipeline.GatheredTotal | video_processor.py:91-97 | the running total of the analysis loop is the sum of the sizes it listed |
| Pipeline.GatheredLists | video_processor.py:92-96 | the analysis loop lists each frame's size in MB and time, in frame order |
| Runs.FramesOfDistinct | video_processor.py:57-69 | the frames of one run are saved under pairwise different paths |
| Runs.WritesImages | video_processor.py:71-75 | after saving, each frame's path holds the image of that frame |
| Runs.GatheredImages | video_processor.py:82-100 | analysing freshly saved frames yields their count, their encoded sizes, the mean of those sizes and their times |
| Runs.RunOutcome | video_processor.py:116-163 | a closed form for every input: the run is cancelled exactly when the cancel request lands before a checkpoint the run reaches; otherwise it fails when the decoder cannot open the video, the interval is 0, a frame cannot be decoded or saved, nothing is sampled or the report cannot be written; otherwise it returns the metadata, the analysis, the output directory and the frame paths |
| Runs.RunSettled | video_processor.py:116-163 | the flag is set after the run exactly when a cancel request came during it, including one after the last checkpoint that cancels nothing; a cancelled run has the flag set; no file outside the output directory changes; a cancelled run leaves no file below it |
| Runs.CancelledDirectories | video_processor.py:150-163 | a run cancelled after its first checkpoint keeps the output and the frames directories, since `os.rmdir` fails on the non-empty directory; one cancelled at the first checkpoint, with nothing below the output directory before, removes it |
| Runs.RunDone | video_processor.py:119-149 | a completed run created both directories, saved every scheduled frame and then the report, and printed the stage lines with one line per frame |
| Runs.RunFailed | video_processor.py:119-149 | a failed run leaves the files as they were when the decoder cannot open the video or the interval is 0; otherwise exactly the images of the frames before the first unsaved one (all of them for a failure after the loop) are written; the error is the decoder's exactly when it cannot open the video; the output directory remains, and the frames directory too past the decoder |
| Runs.CancelRemovesFailureKeeps | video_processor.py:150-163 | the cleanup runs only on cancellation: a cancelled run leaves no file below the output directory, while a run that fails on a frame keeps the image of every frame before it |
| VideoProcessing.Disk.RemoveDir | video_processor.py:159-162 | `os.rmdir` succeeds exactly on an existing directory with nothing below it |
| VideoProcessing.VideoProcessor.constructor | video_processor.py:11-15 | the output directory is `processed_output` beside the video; the flag is clear |
| VideoProcessing.VideoProcessor.CancelProcessing | video_processor.py:17-19 | sets the flag |
| VideoProcessing.VideoProcessor.CheckCancelled | video_processor.py:21-24 | raises exactly when the flag is set |
| VideoProcessing.VideoProcessor.GetVideoMetadata | video_processor.py:26-38 | follows `MetadataStep`: a checkpoint, then the decoder's properties, name, size and extension |
| VideoProcessing.VideoProcessor.ExtractFrames | video_processor.py:46-80 | follows `ExtractStep`: the frames directory is created, and each scheduled frame is saved with a checkpoint before it |
| VideoProcessing.VideoProcessor.SaveFrames | video_processor.py:57-78 | follows `SampleStep`: the frames before the first raising checkpoint or the first frame that cannot be decoded and saved are saved and announced, and nothing else; that frame's error, the cancellation or every frame is the outcome |
| VideoProcessing.VideoProcessor.SamplePass | video_processor.py:58-78 | one pass of the sampling loop follows one step of `SampleFrom` |
| VideoProcessing.VideoProcessor.AnalyzeFrames | video_processor.py:82-100 | follows `AnalyzeStep`: a checkpoint, the measuring loop, then a division by zero on an empty frame list |
| VideoProcessing.VideoProcessor.MeasureFrames | video_processor.py:92-97 | follows `MeasureStep`: the loop stops at the first raising checkpoint or the first missing file |
| VideoProcessing.VideoProcessor.SaveReport | video_processor.py:102-114 | follows `ReportStep`: a checkpoint, then the report is written and announced, or the run fails when the file cannot be opened for writing |
| VideoProcessing.VideoProcessor.RemoveOutput | video_processor.py:151-162 | follows `Cleanup`: every file below the output directory is removed, then the directory is removed if nothing remains below it |
| VideoProcessing.VideoProcessor.ProcessVideo | video_processor.py:116-163 | follows `Run`: the flag is reset and the stages run, with cleanup on cancellation; a cancel request no checkpoint met sets the flag as the run returns |
| VideoProcessing.VideoProcessor.RunStages | video_processor.py:126-149 | follows `Stages`: the stages in order, each ending the run on cancellation or error |
| Gui.Complete | main.py:341-347 | `process_complete`: idle, no processor, process button enabled, stop button disabled, bar hidden |
| Gui.Handle | main.py:297-334 | one queue message: a message is malformed exactly when its handler raises (a missing key, or results that cannot be indexed after the heading is appended); the widgets stay consistent with the busy flag; "result" and "error" messages end the run and progress messages leave it as it is |
| Gui.FirstMalformed | main.py:293-311 | the first message whose handler raises; every message before it is well formed |
| Gui.DrainConsistent | main.py:291-311 | draining the queue keeps the widgets consistent with the busy flag |
| Gui.DrainLeaves | main.py:293-311 | the drain takes every message up to and including the first malformed one, and leaves the rest in the queue |
| Gui.DrainAppend | main.py:293-311 | messages are handled oldest first: draining q1 + q2 drains q1, then q2 |
| Gui.DrainProgress | main.py:297-299 | progress messages show the last line and append every line |
| Gui.DrainPosted | main.py:291-376 | whatever a worker run prints and however it ends, its messages drain completely and leave the window idle and consistent, with one dialog added: the one that matches the ending |
| Gui.VideoProcessorGui.constructor | main.py:124-148 | the defaults (interval 30, format "png", quality 95, "Ready", idle) and the first queue check scheduled |
| Gui.VideoProcessorGui.BrowseFile | main.py:280-289 | a chosen file replaces the video path; a cancelled dialog keeps it |
| Gui.VideoProcessorGui.CheckQueue | main.py:291-314 | follows `Drain` on the queue and schedules the next check after 100 ms |
| Gui.VideoProcessorGui.HandleMessage | main.py:297-311 | follows `Handle` on one message |
| Gui.VideoProcessorGui.DisplayResults | main.py:320-330 | appends the summary lines and shows the success dialog; raises after the first line when there are no results |
| Gui.VideoProcessorGui.AppendResult | main.py:316-318 | appends one line to the results pane |
| Gui.VideoProcessorGui.HandleError | main.py:332-334 | shows "Error occurred!" and the error dialog |
| Gui.VideoProcessorGui.HandleCancellation | main.py:336-339 | shows the cancelled text, the line and the dialog |
| Gui.VideoProcessorGui.ProcessComplete | main.py:341-347 | follows `Complete` |
| Gui.VideoProcessorGui.StopProcessing | main.py:349-355 | only while busy with a processor: requests the cancellation and shows "Cancelling..."; otherwise nothing changes |
| Gui.VideoProcessorGui.StartProcessing | main.py:378-399 | no path: an error dialog and nothing else; busy: nothing changes; otherwise busy, buttons swapped, results cleared, bar shown, one worker started |
| Gui.VideoProcessorGui.ProcessVideoThread | main.py:357-376 | a fresh processor runs the video; the queue receives one progress message per status line, then the result or the error |
| Requirements.ImportName | generate_requirements.py:42-48 | the package a stripped `import`/`from` line names holds no '.' |
| Requirements.ImportNameOf | generate_requirements.py:42-48 | an indented `import n…` or `from n…` line yields exactly `n`, whatever whitespace follows the keyword's space and whatever submodule, clause or trailing whitespace (such as "\r") follows `n` |
| Requirements.ImportLineWords | generate_requirements.py:43-48 | a stripped line that passes the keyword test has a second word, so indexing it never raises |
| Requirements.LineImport | generate_requirements.py:42-50 | a line adds package p exactly when it names p and p is not a standard module |
| Requirements.CollectExactly | generate_requirements.py:36-50 | a name is collected exactly when some item yields it |
| Requirements.ProjectImportsExactly | generate_requirements.py:36-54 | a package is a project import exactly when some file yields it |
| Requirements.ImportedFrom | generate_requirements.py:36-50 | any non-standard package named on a line of a readable file is a project import |
| Requirements.ProjectImportsNames | generate_requirements.py:23-50 | no project import is a standard module or holds a '.' |
| Requirements.LinesImports | generate_requirements.py:41-50 | the loop over one file's lines collects what its lines yield |
| Requirements.GetProjectImports | generate_requirements.py:7-54 | returns exactly the project imports of the given files |
| Requirements.PackageOf | generate_requirements.py:71 | `req.split("==")[0]` is a prefix of the line |
| Requirements.PackageOfPinned | generate_requirements.py:71 | the name of `name==version` is `name` |
| Requirements.KeepImportedExactly | generate_requirements.py:70-73 | a freeze line is kept exactly when it is in the listing and pins an imported package, ignoring case |
| Requirements.KeepImportedShorter | generate_requirements.py:70-73 | keeping never lengthens the listing |
| Requirements.SelectRequirements | generate_requirements.py:67-73 | the loop keeps the freeze lines that pin imported packages, in freeze order |
| Requirements.FirstPin | generate_requirements.py:86-89 | the first listing line that pins the package, or none when no line does |
| Requirements.MissingExactly | generate_requirements.py:79-81 | an essential package is installed exactly when it is visited and not already pinned |
| Requirements.MissingEssentials | generate_requirements.py:76-81 | visiting the essential set once each, the packages installed are exactly the unpinned essential packages, each once |
| Requirements.EssentialsAddedPin | generate_requirements.py:79-91 | every appended line pins an installed package that was not pinned before; at most one line per install |
| Requirements.AddEssentials | generate_requirements.py:75-91 | the requirements gain the pins of the installed essentials, in visiting order; the packages installed are the missing ones |
| Requirements.InstallAndPin | generate_requirements.py:82-91 | adds the first pin the new listing holds for the package, and nothing when the install raised |
| Requirements.SortLexCorrect | generate_requirements.py:95 | `sorted` yields a permutation of the requirements in Python's string order |
| Requirements.SortedUnique | generate_requirements.py:95 | two sorted orderings of the same lines are equal |
| Requirements.FileTextLines | generate_requirements.py:94-96 | the file splits back at newlines into the lines written and a final empty piece |
| Requirements.WriteRequirements | generate_requirements.py:93-96 | writes each sorted requirement followed by a newline |
| Requirements.GenerateRequirements | generate_requirements.py:57-96 | with the essential set {moviepy, numpy, Pillow, pyinstaller} visited once each, in any order, the file holds the sorted requirements and the packages installed are exactly the essential packages not already pinned, each once |
| Requirements.RequirementsFile | generate_requirements.py:66-96 | read back, the file is the requirements in sorted order, one per line, and nothing else; each line is a kept freeze line or pins an essential package |
| Text.LexTotal | generate_requirements.py:95 | Python's string order is total |
| Text.LexTrans | generate_requirements.py:95 | Python's string order is transitive |
| Text.LexAntisym | generate_requirements.py:95 | Python's string order is antisymmetric |
| Release.LStripV | scripts/release.py:37 | `lstrip("v")` removes every leading 'v' and nothing else |
| Release.DigitRun | scripts/release.py:40 | `\d+` matches the longest digit prefix |
| Release.AsWrittenAccepts | scripts/release.py:40 | the check as written accepts exactly the valid versions and the valid versions followed by one "\n" |
| Release.NewlineAccepted | scripts/release.py:40-42 | the check as written also accepts a version followed by "\n", which is not in the X.Y.Z format |
| Release.VersionFields | scripts/release.py:40 | a valid version is three non-empty digit runs joined by dots |
| Release.IsVersionOf | scripts/release.py:40 | three non-empty digit runs joined by dots form a valid version |
| Release.VersionTextRead | scripts/release.py:18-20 | a written version file reads back as the version written |
| Release.ReadVersion | scripts/release.py:20 | a version file read back has exactly the shape that is written |
| Release.AssignmentAt | scripts/release.py:27-29 | a match of `APP_VERSION = "[^"]+"` starts with the key and ends at the first closing quote, with a non-empty value |
| Release.SetAppVersionAssignment | scripts/release.py:27-29 | a quoted non-empty value after `APP_VERSION = "` is replaced by the new version, and the rest is rewritten in turn |
| Release.EmptyValueKept | scripts/release.py:27-29 | an empty value `APP_VERSION = ""` does not match and stays |
| Release.SetAppVersionPlain | scripts/release.py:27-29 | text without an 'A' passes through unchanged |
| Release.ConfigNotVersionFile | scripts/release.py:13-23 | the configuration file is never one of the version files |
| Release.UpdatedFiles | scripts/release.py:7-32 | both version files hold the new version; reading the configuration raises exactly when it is missing; otherwise it is rewritten; no other file changes |
| Release.FirstFailure | scripts/release.py:64-68 | the first non-zero return code; all codes before it are zero |
| Release.FirstFailureAt | scripts/release.py:64-68 | the position after zeros that holds a non-zero code (or the end) is the first failure |
| Release.StepsRunPrefix | scripts/release.py:55-68 | the commands run are the git steps up to and including the first failing one, and the tag pushed is "v" + the version |
| Release.Checkout.UpdateVersion | scripts/release.py:7-32 | follows `Updated`: the version files are written, then the configuration is rewritten |
| Release.Checkout.CreateRelease | scripts/release.py:35-68 | an invalid version exits with 1 and changes nothing; otherwise the files are updated; a missing configuration raises before any git step; otherwise the steps run up to the first failure, which exits with 1 |
| Release.Checkout.RunSteps | scripts/release.py:64-68 | runs the commands up to and including the first failing one; exits with 1 there, or succeeds |

## Left out

- The tkinter widgets, menu, about dialog and layout (main.py:11-122, 150-278) are not modelled. The controller keeps only the widget states its handlers set.
- Threads are not modelled. The worker runs to completion in `ProcessVideoThread`. The only interleaving modelled is the user's cancel request, given as the checkpoint before which it lands. Interleavings of queue reads with a running worker are not modelled.
- `root.after` only records the 100 ms delay. The timer loop itself is not run.
- The decoder, the image encoder, `os.path.getsize` of the video and the JSON writer are the `Media` parameter. Frame pixels and the JSON text are not modelled.
- The report's `analyzed_at` and `processing_timestamp` clock readings are left out.
- Floating-point numbers are exact reals. Sizes in MB are exact quotients. `int(duration)` is truncation toward zero.
- The text of the summary lines (`:.2f` formatting) is not modelled. Each summary line carries the number it formats.
- Exception messages are not modelled. An error is a constructor of `Error`.
- Gui.VideoProcessorGui.ProcessVideoThread: the interval and quality are integers. A `TclError` from a spinbox holding non-integer text (main.py:367-371), which the worker would post as an "error" message, is not modelled.
- VideoProcessing.Disk.MakeDirs always succeeds. The `FileExistsError`/`NotADirectoryError` that `os.makedirs` raises when a file occupies the path (video_processor.py:49, 125) is not modelled.
- Release.Checkout.UpdateVersion writes both version files. The `FileNotFoundError` from `open(version_file, "w")` when a file's directory is missing (scripts/release.py:19) is not modelled; only a missing config.py raises.
- Release.Checkout.RunSteps takes every step's return code as an input. A git command that cannot be started, so that `subprocess.run` raises (scripts/release.py:65), is not modelled.
- `os.walk` over the project directory (generate_requirements.py:13-20) is not modelled. The `.py` files it finds are an input sequence of contents, in walk order.
- An `open()` that raises before the `try` (generate_requirements.py:37) is not modelled. Only a read that raises inside the `try` is: its file is skipped.
- `pip freeze`, `pip install` and the git commands are inputs, as described above.
- The iteration order of the essential-package set is a parameter `order`: any sequence holding each of the four essential packages once. Python's set order is not modelled.
- Release.SetAppVersion inserts the version literally; the escapes `re.sub` would expand in a replacement holding a backslash are not modelled, since only digit-and-dot versions reach it.
- The `print` calls of both scripts are not modelled. Neither is the reading back of `requirements.txt` (generate_requirements.py:98-106), beyond the lemma that the file splits back into its lines.
- The argument-count check of the release script (scripts/release.py:75-81) is not modelled.
- `os.chdir` and `os.path.abspath` in the release script are not modelled. The script's path is an input, taken as absolute.
- Text.Lower and Text.IsDigit cover ASCII only. Python's `lower()` and `\d` also cover other Unicode letters and digits.
- Text.IsSpace covers the Latin-1 whitespace characters only.
- Requirements.ImportName follows `line.split()[1].split(".")[0]` literally. So `import a, b` yields `a,` and `from . import x` yields the empty name, as in the source.
- No output format is rejected: every format other than "jpg" (in any case) is saved as PNG (video_processor.py:72-75).
- Cleanup removes every file below the output directory, including files of earlier runs (video_processor.py:152-156). Its `os.rmdir` fails whenever the `frames` directory exists, that is, for every run cancelled after its first checkpoint.
- VideoProcessing.VideoProcessor.RemoveOutput and Runs.RunSettled: removing an existing file is taken never to fail, so the `except: pass` around `os.remove` (video_processor.py:155-158) never fires. Permission errors during cleanup are not modelled.
- Release.Checkout.CreateRelease validates with the corrected IsVersion, not the regex as written. The regex also accepts a version followed by "\n"; Release.AsWrittenAccepts and the finding below state what it accepts.
- A frame that cannot be decoded or saved is decided by `Media.saves` before anything is written for it. A partly written image file from a failing `image.save` is not modelled.
- A report that cannot be written fails when the file is opened. A partly written report from a failing `json.dump` is not modelled.
- A cancel request that no checkpoint meets lands after the last one, while the run returns. It then sets the flag without cancelling anything.

## Findings

| source | as written | input that shows it | evidently intended | confidence | as-written member | corrected member |
|---|---|---|---|---|---|---|
| scripts/release.py:40 | `re.match(r"^\d+\.\d+\.\d+$", version)`: Python's `$` also matches just before a final newline | the argument "1.2.3\n" passes the check, and "1.2.3\n" is written into the version files and the tag | only `X.Y.Z` with digit runs and nothing after them | high (not executed) | Release.NewlineAccepted | Release.IsVersionOf |
