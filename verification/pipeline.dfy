/** The frame-extraction run of video_processor.py as pure functions: each stage of
    `process_video` is a function from the state before it to its outcome and the state after
    it. The imperative model (module VideoProcessing) is proved to follow these functions; the
    lemmas here state what a run promises. */
module Pipeline {
  import opened Text
  import opened Paths
  import opened Frames

  /** What the decoder, the image encoder and the JSON serialiser report about one video. */
  datatype Media = Media(
    opens: bool,                         // the decoder can open the file at all
    duration: real,
    fps: real,
    width: nat,
    height: nat,
    fileBytes: nat,                      // size of the video file
    saves: (int, Encoder) -> bool,       // the frame at a time decodes and its image saves
    encodedBytes: (int, Encoder) -> nat, // size of the image saved for the frame at a time
    reportSaves: bool,                   // the report file can be written
    reportBytes: nat)                    // size of the JSON report once written

  /** The "video_metadata" record of the report (the "analyzed_at" clock reading is left out). */
  datatype Metadata = Metadata(duration: real, fps: real, resolution: (nat, nat),
                               filename: string, filesizeMB: real, format: string)

  datatype Report = Report(videoMetadata: Metadata, frameAnalysis: Analysis)

  /** A file on disk: an encoded frame, or the JSON report. */
  datatype FileData = Image(time: int, encoder: Encoder, bytes: nat) | Json(report: Report, bytes: nat)

  /** The exceptions a run can end with, besides the cancellation signal. */
  datatype Error =
    | MediaOpenError            // the decoder could not open the video
    | ZeroStep                  // range() with an interval of 0
    | ZeroDivision              // analyze_frames on an empty frame list
    | FileNotFound(path: string) // getsize on a frame file that is gone
    | FrameError(time: int)     // get_frame or image.save raised for the frame at a time
    | ReportWriteError          // the report file could not be written

  /** How a stage ends: normally, by the ProcessCancelled signal, or by another exception. */
  datatype Step<T> = Done(value: T) | Cancelled | Failed(error: Error)

  /** One entry of `frame_info`: the sample time and the path of the written image. */
  datatype Frame = Frame(time: int, path: string)

  /** The dictionary `process_video` returns. */
  datatype RunResult = RunResult(metadata: Metadata, analysis: Analysis, outputDirectory: string,
                                 framePaths: seq<string>)

  /** The lines a run hands to `print_status`, by kind; StatusText gives each one's text. */
  datatype StatusLine =
    | ExtractingMetadata
    | ExtractingFrames
    | AnalyzingFrames
    | GeneratingReport
    | FrameExtracted(index: nat, total: nat, time: int)
    | ReportSaved(path: string)

  function StatusText(line: StatusLine): string
  {
    match line
    case ExtractingMetadata => "Extracting video metadata..."
    case ExtractingFrames => "Extracting frames..."
    case AnalyzingFrames => "Analyzing extracted frames..."
    case GeneratingReport => "Generating processing report..."
    case FrameExtracted(index, total, t) =>
      "Extracted frame " + FormatInt(index, 0) + "/" + FormatInt(total, 0) + " at " + FormatInt(t, 0) + "s"
    case ReportSaved(path) => "Processing report saved to " + path
  }

  /** Everything a run reads and changes: the files and directories on disk, the status lines
      passed to `print_status`, the cancellation flag, and the number of cancellation
      checkpoints passed since the run began (the clock a cancel request is timed against). */
  datatype State = State(files: map<string, FileData>, dirs: set<string>, status: seq<StatusLine>,
                         shouldCancel: bool, checks: nat)

  const FramesDirName := "frames"
  const ReportName := "processing_report.json"

  /** `os.path.join(os.path.dirname(video_path), "processed_output")`. */
  function OutputDir(videoPath: string): string
  {
    PathJoin(Dirname(videoPath), "processed_output")
  }

  function FramesDir(outputDir: string): string { PathJoin(outputDir, FramesDirName) }

  function ReportPath(outputDir: string): string { PathJoin(outputDir, ReportName) }

  // ---------------------------------------------------------------- cancellation checkpoints

  /** A cancel request `cancel == Some(c)` is the UI thread's `cancel_processing` landing just
      before checkpoint number c of the run, or after the last checkpoint when the run passes
      no more than c of them (LateCancel). A checkpoint raises when the flag is set. */
  function AfterCheck(st: State, cancel: Option<nat>): State
  {
    st.(shouldCancel := st.shouldCancel || cancel == Some(st.checks), checks := st.checks + 1)
  }

  /** Which of the next n checkpoints raises first (n when none does). */
  function FirstFiring(flag: bool, checks: nat, cancel: Option<nat>, n: nat): (k: nat)
    ensures k <= n
    ensures k < n ==> flag || cancel == Some(checks + k)
    ensures k > 0 ==> !flag
    ensures cancel.Some? ==> !(checks <= cancel.value < checks + k)
  {
    if flag then 0
    else if cancel.Some? && checks <= cancel.value < checks + n then cancel.value - checks
    else n
  }

  /** A checkpoint that does not raise comes before the first one that does. */
  lemma NotYetFired(flag: bool, checks: nat, cancel: Option<nat>, n: nat, i: nat)
    requires i < n && i <= FirstFiring(flag, checks, cancel, n)
    requires !flag && cancel != Some(checks + i)
    ensures i < FirstFiring(flag, checks, cancel, n)
  {
  }

  // ---------------------------------------------------------------- stages

  function MetadataOf(videoPath: string, media: Media): Metadata
  {
    Metadata(media.duration, media.fps, (media.width, media.height), Basename(videoPath),
             SizeInMB(media.fileBytes), Extension(videoPath))
  }

  /** `get_video_metadata`: a checkpoint, then the decoder is opened. */
  function MetadataStep(st: State, videoPath: string, media: Media, cancel: Option<nat>)
    : (Step<Metadata>, State)
  {
    var st1 := AfterCheck(st, cancel);
    if st1.shouldCancel then (Cancelled, st1)
    else if !media.opens then (Failed(MediaOpenError), st1)
    else (Done(MetadataOf(videoPath, media)), st1)
  }

  /** The `frame_info` list a complete extraction produces. */
  function FramesOf(framesDir: string, ts: seq<int>, format: string): seq<Frame>
  {
    seq(|ts|, i requires 0 <= i < |ts| => Frame(ts[i], PathJoin(framesDir, FrameName(ts[i], i + 1, format))))
  }

  /** The files after saving the given frames in order. */
  function Writes(files: map<string, FileData>, frames: seq<Frame>, media: Media, enc: Encoder)
    : map<string, FileData>
  {
    if frames == [] then files
    else
      var f := frames[|frames| - 1];
      Writes(files, frames[..|frames| - 1], media, enc)[f.path := Image(f.time, enc, media.encodedBytes(f.time, enc))]
  }

  /** Saving one more frame updates the files saved for the earlier ones. */
  lemma WritesSnoc(files: map<string, FileData>, frames: seq<Frame>, f: Frame, media: Media, enc: Encoder)
    ensures Writes(files, frames + [f], media, enc)
         == Writes(files, frames, media, enc)[f.path := Image(f.time, enc, media.encodedBytes(f.time, enc))]
  {
    assert (frames + [f])[..|frames|] == frames;
  }

  lemma TakeOneMore<T>(prefix: seq<T>, s: seq<T>, i: nat)
    requires i < |s|
    ensures prefix + s[..i + 1] == (prefix + s[..i]) + [s[i]]
  {
    TakeNext(s, i);
  }

  lemma TakeNext<T>(s: seq<T>, i: nat)
    requires i < |s|
    ensures s[..i + 1] == s[..i] + [s[i]]
  {
  }

  /** The status lines of a complete extraction, one per sample. */
  function FrameLines(frames: seq<Frame>): (ls: seq<StatusLine>)
    ensures |ls| == |frames|
    ensures forall i :: 0 <= i < |frames| ==> ls[i] == FrameExtracted(i + 1, |frames|, frames[i].time)
  {
    seq(|frames|, i requires 0 <= i < |frames| => FrameExtracted(i + 1, |frames|, frames[i].time))
  }

  /** The position of the first frame that cannot be decoded and saved (|frames| when all
      can). */
  function FirstUnsaved(frames: seq<Frame>, enc: Encoder, media: Media): (j: nat)
    ensures j <= |frames|
    ensures forall i :: 0 <= i < j ==> media.saves(frames[i].time, enc)
    ensures j < |frames| ==> !media.saves(frames[j].time, enc)
  {
    if frames == [] then 0
    else if !media.saves(frames[0].time, enc) then 0
    else 1 + FirstUnsaved(frames[1..], enc, media)
  }

  /** The sampling loop of `extract_frames` over the frames the schedule calls for: a
      checkpoint before each, then one saved image and one status line. The loop ends at the
      first checkpoint that raises or the first frame that cannot be saved, whichever comes
      first; the frames saved before stay on disk either way. */
  function SampleStep(st: State, frames: seq<Frame>, enc: Encoder, media: Media,
                      cancel: Option<nat>): (Step<seq<Frame>>, State)
  {
    var n := |frames|;
    var k := FirstFiring(st.shouldCancel, st.checks, cancel, n);
    var j := FirstUnsaved(frames, enc, media);
    var saved := if k <= j then k else j;
    var st1 := st.(files := Writes(st.files, frames[..saved], media, enc),
                   status := st.status + FrameLines(frames)[..saved]);
    if k <= j && k < n then (Cancelled, st1.(shouldCancel := true, checks := st.checks + k + 1))
    else if j < n then (Failed(FrameError(frames[j].time)), st1.(checks := st.checks + j + 1))
    else (Done(frames), st1.(checks := st.checks + n))
  }

  /** The sampling loop from frame i on, pass by pass: a checkpoint, then the frame is saved
      and announced, or the loop ends. */
  function SampleFrom(st: State, frames: seq<Frame>, enc: Encoder, media: Media,
                      cancel: Option<nat>, i: nat): (Step<seq<Frame>>, State)
    requires i <= |frames|
    decreases |frames| - i
  {
    if i == |frames| then (Done(frames), st)
    else
      var st1 := AfterCheck(st, cancel);
      if st1.shouldCancel then (Cancelled, st1)
      else if !media.saves(frames[i].time, enc) then (Failed(FrameError(frames[i].time)), st1)
      else SampleFrom(SaveOne(st1, frames, i, enc, media), frames, enc, media, cancel, i + 1)
  }

  /** One pass of the sampling loop once the frame is decoded: its image is saved, then
      announced. */
  function SaveOne(st: State, frames: seq<Frame>, i: nat, enc: Encoder, media: Media): State
    requires i < |frames|
  {
    var f := frames[i];
    Announce(st.(files := st.files[f.path := Image(f.time, enc, media.encodedBytes(f.time, enc))]),
             FrameExtracted(i + 1, |frames|, f.time))
  }

  /** The state after the first i passes of the sampling loop, when none of them raised or
      failed. */
  function SampledPrefix(st: State, frames: seq<Frame>, enc: Encoder, media: Media, i: nat): State
    requires i <= |frames|
  {
    st.(files := Writes(st.files, frames[..i], media, enc),
        status := st.status + FrameLines(frames)[..i], checks := st.checks + i)
  }

  /** A pass that neither raises nor fails extends the prefix by one frame. */
  lemma SampledPrefixNext(st: State, frames: seq<Frame>, enc: Encoder, media: Media,
                          cancel: Option<nat>, i: nat)
    requires i < |frames|
    requires !AfterCheck(SampledPrefix(st, frames, enc, media, i), cancel).shouldCancel
    ensures SaveOne(AfterCheck(SampledPrefix(st, frames, enc, media, i), cancel), frames, i, enc, media)
         == SampledPrefix(st, frames, enc, media, i + 1)
  {
    WritesSnoc(st.files, frames[..i], frames[i], media, enc);
    TakeOneMore(st.status, FrameLines(frames), i);
    assert frames[..i + 1] == frames[..i] + [frames[i]];
  }

  /** A pass whose checkpoint raises ends the loop as the closed form says. */
  lemma SampleFromCancelled(st: State, frames: seq<Frame>, enc: Encoder, media: Media,
                            cancel: Option<nat>, i: nat)
    requires i < |frames| && i <= FirstUnsaved(frames, enc, media)
    requires i <= FirstFiring(st.shouldCancel, st.checks, cancel, |frames|)
    requires AfterCheck(SampledPrefix(st, frames, enc, media, i), cancel).shouldCancel
    ensures SampleFrom(SampledPrefix(st, frames, enc, media, i), frames, enc, media, cancel, i)
         == SampleStep(st, frames, enc, media, cancel)
  {
    assert FirstFiring(st.shouldCancel, st.checks, cancel, |frames|) == i;
  }

  /** A pass whose frame cannot be saved ends the loop as the closed form says. */
  lemma SampleFromFailed(st: State, frames: seq<Frame>, enc: Encoder, media: Media,
                         cancel: Option<nat>, i: nat)
    requires i < |frames| && i <= FirstUnsaved(frames, enc, media)
    requires i <= FirstFiring(st.shouldCancel, st.checks, cancel, |frames|)
    requires !AfterCheck(SampledPrefix(st, frames, enc, media, i), cancel).shouldCancel
    requires !media.saves(frames[i].time, enc)
    ensures SampleFrom(SampledPrefix(st, frames, enc, media, i), frames, enc, media, cancel, i)
         == SampleStep(st, frames, enc, media, cancel)
  {
    NotYetFired(st.shouldCancel, st.checks, cancel, |frames|, i);
    assert FirstUnsaved(frames, enc, media) == i;
  }

  /** A pass that neither raises nor fails hands over to the next one. */
  lemma SampleFromNext(st: State, frames: seq<Frame>, enc: Encoder, media: Media,
                       cancel: Option<nat>, i: nat)
    requires i < |frames|
    requires !AfterCheck(SampledPrefix(st, frames, enc, media, i), cancel).shouldCancel
    requires media.saves(frames[i].time, enc)
    ensures SampleFrom(SampledPrefix(st, frames, enc, media, i), frames, enc, media, cancel, i)
         == SampleFrom(SampledPrefix(st, frames, enc, media, i + 1), frames, enc, media, cancel, i + 1)
  {
    SampledPrefixNext(st, frames, enc, media, cancel, i);
  }

  /** Running the loop pass by pass from frame i, after i passes that neither raised nor
      failed, ends where the closed form says. */
  lemma {:induction false} SampleFromPrefix(st: State, frames: seq<Frame>, enc: Encoder, media: Media,
                                            cancel: Option<nat>, i: nat)
    requires i <= FirstFiring(st.shouldCancel, st.checks, cancel, |frames|)
    requires i <= FirstUnsaved(frames, enc, media)
    ensures SampleFrom(SampledPrefix(st, frames, enc, media, i), frames, enc, media, cancel, i)
         == SampleStep(st, frames, enc, media, cancel)
    decreases |frames| - i
  {
    if i == |frames| {
      assert FirstFiring(st.shouldCancel, st.checks, cancel, i) == i == FirstUnsaved(frames, enc, media);
    } else if AfterCheck(SampledPrefix(st, frames, enc, media, i), cancel).shouldCancel {
      SampleFromCancelled(st, frames, enc, media, cancel, i);
    } else if !media.saves(frames[i].time, enc) {
      SampleFromFailed(st, frames, enc, media, cancel, i);
    } else {
      NotYetFired(st.shouldCancel, st.checks, cancel, |frames|, i);
      SampleFromNext(st, frames, enc, media, cancel, i);
      SampleFromPrefix(st, frames, enc, media, cancel, i + 1);
    }
  }

  /** The loop run pass by pass from the start is the closed form. */
  lemma SampleFromStart(st: State, frames: seq<Frame>, enc: Encoder, media: Media, cancel: Option<nat>)
    ensures SampleFrom(st, frames, enc, media, cancel, 0) == SampleStep(st, frames, enc, media, cancel)
  {
    assert frames[..0] == [] && FrameLines(frames)[..0] == [];
    assert SampledPrefix(st, frames, enc, media, 0) == st;
    SampleFromPrefix(st, frames, enc, media, cancel, 0);
  }

  /** `extract_frames`: create the frames directory, open the decoder, compute the schedule,
      then sample. */
  function ExtractStep(st: State, outputDir: string, media: Media, interval: int, format: string,
                       quality: int, cancel: Option<nat>): (Step<seq<Frame>>, State)
  {
    var framesDir := FramesDir(outputDir);
    var st1 := st.(dirs := st.dirs + {framesDir});
    if !media.opens then (Failed(MediaOpenError), st1)
    else match Schedule(media.duration, interval)
      case None => (Failed(ZeroStep), st1)
      case Some(ts) => SampleStep(st1, FramesOf(framesDir, ts, format), EncoderFor(format, quality), media, cancel)
  }

  /** The position of the first frame whose file is missing (|frames| when none is). */
  function FirstMissing(frames: seq<Frame>, files: map<string, FileData>): (m: nat)
    ensures m <= |frames|
    ensures forall j :: 0 <= j < m ==> frames[j].path in files
    ensures m < |frames| ==> frames[m].path !in files
  {
    if frames == [] then 0
    else if frames[0].path !in files then 0
    else 1 + FirstMissing(frames[1..], files)
  }

  /** What the loop of `analyze_frames` gathers: the frame sizes in MB, the times, and the
      running total of the sizes. */
  datatype Measures = Measures(sizes: seq<real>, times: seq<int>, total: real)

  /** What the first i iterations of the loop of `analyze_frames` have gathered. */
  function Gathered(frames: seq<Frame>, files: map<string, FileData>, i: nat): Measures
    requires i <= |frames| && forall j :: 0 <= j < i ==> frames[j].path in files
  {
    if i == 0 then Measures([], [], 0.0)
    else
      var g := Gathered(frames, files, i - 1);
      var size := SizeInMB(files[frames[i - 1].path].bytes);
      Measures(g.sizes + [size], g.times + [frames[i - 1].time], g.total + size)
  }

  /** The loop gathers, in order, each frame's time and its file's size in MB, and the total
      is the sum of the sizes. */
  lemma GatheredFacts(frames: seq<Frame>, files: map<string, FileData>, i: nat)
    requires i <= |frames| && forall j :: 0 <= j < i ==> frames[j].path in files
    ensures var g := Gathered(frames, files, i);
      && |g.sizes| == |g.times| == i
      && (forall j :: 0 <= j < i ==> g.times[j] == frames[j].time)
      && (forall j :: 0 <= j < i ==> g.sizes[j] == SizeInMB(files[frames[j].path].bytes))
      && g.total == Sum(g.sizes)
  {
    GatheredLists(frames, files, i);
    GatheredTotal(frames, files, i);
  }

  lemma {:induction false} GatheredLists(frames: seq<Frame>, files: map<string, FileData>, i: nat)
    requires i <= |frames| && forall j :: 0 <= j < i ==> frames[j].path in files
    ensures var g := Gathered(frames, files, i);
      && |g.sizes| == |g.times| == i
      && (forall j :: 0 <= j < i ==> g.times[j] == frames[j].time)
      && (forall j :: 0 <= j < i ==> g.sizes[j] == SizeInMB(files[frames[j].path].bytes))
  {
    if i > 0 {
      GatheredLists(frames, files, i - 1);
      var p := Gathered(frames, files, i - 1);
      var g := Gathered(frames, files, i);
      assert g.sizes == p.sizes + [SizeInMB(files[frames[i - 1].path].bytes)];
      assert g.times == p.times + [frames[i - 1].time];
    }
  }

  lemma {:induction false} GatheredTotal(frames: seq<Frame>, files: map<string, FileData>, i: nat)
    requires i <= |frames| && forall j :: 0 <= j < i ==> frames[j].path in files
    ensures Gathered(frames, files, i).total == Sum(Gathered(frames, files, i).sizes)
  {
    if i > 0 {
      GatheredTotal(frames, files, i - 1);
      var p := Gathered(frames, files, i - 1);
      var size := SizeInMB(files[frames[i - 1].path].bytes);
      assert Gathered(frames, files, i) == Measures(p.sizes + [size], p.times + [frames[i - 1].time], p.total + size);
      SumSnoc(p.sizes, size);
    }
  }

  /** The loop of `analyze_frames`: for each frame a checkpoint, then the size of its file; a
      missing file ends the loop with an error. */
  function MeasureStep(st: State, frames: seq<Frame>, cancel: Option<nat>): (Step<Measures>, State)
  {
    var n := |frames|;
    var k := FirstFiring(st.shouldCancel, st.checks, cancel, n);
    var m := FirstMissing(frames, st.files);
    if k <= m && k < n then (Cancelled, st.(shouldCancel := true, checks := st.checks + k + 1))
    else if m < n then (Failed(FileNotFound(frames[m].path)), st.(checks := st.checks + m + 1))
    else (Done(Gathered(frames, st.files, n)), st.(checks := st.checks + n))
  }

  /** `analyze_frames`: a checkpoint, the loop, then the average (a division by zero on an
      empty list). */
  function AnalyzeStep(st: State, frames: seq<Frame>, cancel: Option<nat>): (Step<Analysis>, State)
  {
    var st1 := AfterCheck(st, cancel);
    if st1.shouldCancel then (Cancelled, st1)
    else
      var (ms, st2) := MeasureStep(st1, frames, cancel);
      if !ms.Done? then (Propagate(ms), st2)
      else if frames == [] then (Failed(ZeroDivision), st2)
      else (Done(Analysis(|frames|, ms.value.sizes, Mean(ms.value.total, |frames|), ms.value.times)), st2)
  }

  /** `save_report`: a checkpoint, then the report is written (overwriting) and announced,
      unless the file cannot be opened for writing. */
  function ReportStep(st: State, outputDir: string, metadata: Metadata, analysis: Analysis,
                     media: Media, cancel: Option<nat>): (Step<()>, State)
  {
    var st1 := AfterCheck(st, cancel);
    if st1.shouldCancel then (Cancelled, st1)
    else if !media.reportSaves then (Failed(ReportWriteError), st1)
    else
      var path := ReportPath(outputDir);
      (Done(()), st1.(files := st1.files[path := Json(Report(metadata, analysis), media.reportBytes)],
                     status := st1.status + [ReportSaved(path)]))
  }

  /** Every file anywhere below `dir`. */
  function FilesUnder(files: map<string, FileData>, dir: string): set<string>
  {
    set p | p in files && IsUnder(p, dir)
  }

  /** The cleanup after a cancellation: if the output directory exists, every file below it is
      removed, then the directory itself is removed, which succeeds only when no
      subdirectory remains below it. */
  function Cleanup(st: State, outputDir: string): State
  {
    if outputDir !in st.dirs then st
    else
      var dirs := if exists d :: d in st.dirs && IsUnder(d, outputDir) then st.dirs
                  else st.dirs - {outputDir};
      st.(files := st.files - FilesUnder(st.files, outputDir), dirs := dirs)
  }

  function PathsOf(frames: seq<Frame>): (ps: seq<string>)
    ensures |ps| == |frames| && forall i :: 0 <= i < |frames| ==> ps[i] == frames[i].path
  {
    seq(|frames|, i requires 0 <= i < |frames| => frames[i].path)
  }

  function Announce(st: State, line: StatusLine): State { st.(status := st.status + [line]) }

  /** A cancel request that no checkpoint of the run met lands after the last one the run
      passed: it sets the flag, and nothing reads the flag before the run returns. */
  function LateCancel(st: State, cancel: Option<nat>): State
  {
    st.(shouldCancel := st.shouldCancel || (cancel.Some? && st.checks <= cancel.value))
  }

  /** `process_video`: reset the flag, create the output directory and run the stages; a
      cancellation signal from any stage triggers the cleanup and is passed on, any other
      outcome is passed on as it is, with a cancel request that came too late to be met. */
  function Run(st: State, videoPath: string, media: Media, interval: int, format: string,
               quality: int, cancel: Option<nat>): (Step<RunResult>, State)
  {
    var outputDir := OutputDir(videoPath);
    var s0 := st.(shouldCancel := false, checks := 0, dirs := st.dirs + {outputDir});
    var (r, s1) := Stages(s0, videoPath, outputDir, media, interval, format, quality, cancel);
    if r.Cancelled? then (Cancelled, Cleanup(s1, outputDir)) else (r, LateCancel(s1, cancel))
  }

  /** The body of the `try` in `process_video`: metadata, frames, analysis and report, each
      announced first; the first stage that does not complete ends the run with its outcome. */
  function Stages(st: State, videoPath: string, outputDir: string, media: Media, interval: int,
                  format: string, quality: int, cancel: Option<nat>): (Step<RunResult>, State)
  {
    var (md, s1) := MetadataStep(Announce(st, ExtractingMetadata), videoPath, media, cancel);
    if !md.Done? then (Propagate(md), s1)
    else FromFrames(s1, outputDir, md.value, media, interval, format, quality, cancel)
  }

  /** The stages from the frame extraction on, once the metadata is known. */
  function FromFrames(st: State, outputDir: string, metadata: Metadata, media: Media,
                      interval: int, format: string, quality: int, cancel: Option<nat>)
    : (Step<RunResult>, State)
  {
    var (fr, s2) := ExtractStep(Announce(st, ExtractingFrames), outputDir, media, interval,
                                format, quality, cancel);
    if !fr.Done? then (Propagate(fr), s2)
    else FromAnalysis(s2, outputDir, metadata, fr.value, media, cancel)
  }

  /** The stages from the analysis on, once the frames are extracted. */
  function FromAnalysis(st: State, outputDir: string, metadata: Metadata, frames: seq<Frame>,
                        media: Media, cancel: Option<nat>): (Step<RunResult>, State)
  {
    var (an, s3) := AnalyzeStep(Announce(st, AnalyzingFrames), frames, cancel);
    if !an.Done? then (Propagate(an), s3)
    else FromReport(s3, outputDir, metadata, an.value, frames, media, cancel)
  }

  /** The last stage, the report, once the analysis is known. */
  function FromReport(st: State, outputDir: string, metadata: Metadata, analysis: Analysis,
                      frames: seq<Frame>, media: Media, cancel: Option<nat>): (Step<RunResult>, State)
  {
    var (rp, s4) := ReportStep(Announce(st, GeneratingReport), outputDir, metadata, analysis,
                               media, cancel);
    if !rp.Done? then (Propagate(rp), s4)
    else (Done(RunResult(metadata, analysis, outputDir, PathsOf(frames))), s4)
  }

  /** A stage outcome that is not a value, passed on as the outcome of the caller. */
  function Propagate<T, U>(r: Step<T>): (p: Step<U>)
    requires !r.Done?
    ensures p.Cancelled? <==> r.Cancelled?
    ensures r.Failed? ==> p == Failed(r.error)
  {
    if r.Cancelled? then Cancelled else Failed(r.error)
  }
}
