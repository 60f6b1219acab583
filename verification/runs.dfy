/** What one call of `process_video` promises, proved about the stage functions of module
    Pipeline: its outcome for every input, the files and directories it leaves, its status lines
    and its flag. */
module Runs {
  import opened Text
  import opened Paths
  import opened Frames
  import opened Pipeline

  // ---------------------------------------------------------------- frames on disk

  /** The frames a run names lie in distinct files. */
  lemma FramesOfDistinct(framesDir: string, ts: seq<int>, format: string)
    ensures DistinctPaths(FramesOf(framesDir, ts, format))
  {
    var fs := FramesOf(framesDir, ts, format);
    forall i, j | 0 <= i < |fs| && 0 <= j < |fs| && i != j ensures fs[i].path != fs[j].path {
      FramesOfDiffer(framesDir, ts, format, i, j);
    }
  }

  lemma FramesOfDiffer(framesDir: string, ts: seq<int>, format: string, i: nat, j: nat)
    requires i < |ts| && j < |ts| && i != j
    ensures |FramesOf(framesDir, ts, format)| == |ts|
    ensures FramesOf(framesDir, ts, format)[i].path != FramesOf(framesDir, ts, format)[j].path
  {
    FramesOfIndex(framesDir, ts, format, i);
    FramesOfIndex(framesDir, ts, format, j);
  }

  /** The index of a run's frame can be read back from its path. */
  lemma FramesOfIndex(framesDir: string, ts: seq<int>, format: string, i: nat)
    requires i < |ts|
    ensures |FramesOf(framesDir, ts, format)| == |ts|
    ensures var p := FramesOf(framesDir, ts, format)[i].path;
      |DirPrefix(framesDir)| <= |p| && FrameIndex(p[|DirPrefix(framesDir)|..], format) == Some(i + 1)
  {
    var name := FrameName(ts[i], i + 1, format);
    FramesOfAt(framesDir, ts, format, i);
    FrameNameStart(ts[i], i + 1, format);
    JoinUnder(framesDir, name);
    FrameNameIndex(ts[i], i + 1, format);
    assert (DirPrefix(framesDir) + name)[|DirPrefix(framesDir)|..] == name;
  }

  lemma FramesOfAt(framesDir: string, ts: seq<int>, format: string, i: nat)
    requires i < |ts|
    ensures |FramesOf(framesDir, ts, format)| == |ts|
    ensures FramesOf(framesDir, ts, format)[i] == Frame(ts[i], PathJoin(framesDir, FrameName(ts[i], i + 1, format)))
  {
  }

  /** After the frames are saved, every one of them is on disk. */
  lemma {:induction false} WritesHas(files: map<string, FileData>, frames: seq<Frame>, media: Media, enc: Encoder)
    ensures forall i :: 0 <= i < |frames| ==> frames[i].path in Writes(files, frames, media, enc)
  {
    if frames != [] {
      WritesHas(files, frames[..|frames| - 1], media, enc);
    }
  }

  /** Each frame's file holds the image saved for that frame. */
  predicate HoldsImages(files: map<string, FileData>, frames: seq<Frame>, media: Media, enc: Encoder)
  {
    forall i :: 0 <= i < |frames| ==>
      frames[i].path in files && files[frames[i].path] == Image(frames[i].time, enc, media.encodedBytes(frames[i].time, enc))
  }

  predicate DistinctPaths(frames: seq<Frame>)
  {
    forall i, j :: 0 <= i < |frames| && 0 <= j < |frames| && i != j ==> frames[i].path != frames[j].path
  }

  /** After frames with distinct paths are saved, each file holds the image of its own frame. */
  lemma {:induction false} WritesImages(files: map<string, FileData>, frames: seq<Frame>, media: Media, enc: Encoder)
    requires DistinctPaths(frames)
    ensures HoldsImages(Writes(files, frames, media, enc), frames, media, enc)
  {
    if frames != [] {
      var init := frames[..|frames| - 1];
      WritesImages(files, init, media, enc);
      var w := Writes(files, frames, media, enc);
      forall i | 0 <= i < |frames| - 1
        ensures frames[i].path in w && w[frames[i].path] == Image(frames[i].time, enc, media.encodedBytes(frames[i].time, enc))
      {
        assert init[i] == frames[i];
      }
    }
  }

  /** Saving frames leaves every file that no frame is saved to as it was. */
  lemma {:induction false} WritesOthers(files: map<string, FileData>, frames: seq<Frame>, media: Media, enc: Encoder, p: string)
    requires p in files && forall i :: 0 <= i < |frames| ==> frames[i].path != p
    ensures p in Writes(files, frames, media, enc) && Writes(files, frames, media, enc)[p] == files[p]
  {
    if frames != [] {
      WritesOthers(files, frames[..|frames| - 1], media, enc, p);
    }
  }

  // ---------------------------------------------------------------- outcome

  /** The sizes in MB of the images saved for the given frames. */
  function ImageSizes(frames: seq<Frame>, media: Media, enc: Encoder): (sizes: seq<real>)
    ensures |sizes| == |frames|
  {
    seq(|frames|, i requires 0 <= i < |frames| => SizeInMB(media.encodedBytes(frames[i].time, enc)))
  }

  /** The analysis of freshly saved frames, read off the encoder's sizes. */
  function FramesAnalysis(frames: seq<Frame>, media: Media, enc: Encoder): Analysis
    requires frames != []
  {
    var sizes := ImageSizes(frames, media, enc);
    Analysis(|frames|, sizes, Mean(Sum(sizes), |frames|), seq(|frames|, i requires 0 <= i < |frames| => frames[i].time))
  }

  /** Gathering sizes from files that hold the saved images gives the analysis of the frames. */
  lemma GatheredImages(frames: seq<Frame>, files: map<string, FileData>, media: Media, enc: Encoder)
    requires frames != []
    requires HoldsImages(files, frames, media, enc)
    ensures var g := Gathered(frames, files, |frames|);
      Analysis(|frames|, g.sizes, Mean(g.total, |frames|), g.times) == FramesAnalysis(frames, media, enc)
  {
    GatheredFacts(frames, files, |frames|);
    GatheredSizes(frames, files, media, enc);
    GatheredTimes(frames, files);
  }

  lemma GatheredSizes(frames: seq<Frame>, files: map<string, FileData>, media: Media, enc: Encoder)
    requires HoldsImages(files, frames, media, enc)
    ensures Gathered(frames, files, |frames|).sizes == ImageSizes(frames, media, enc)
  {
    var g := Gathered(frames, files, |frames|);
    GatheredLists(frames, files, |frames|);
    var sizes := ImageSizes(frames, media, enc);
    forall i | 0 <= i < |frames| ensures g.sizes[i] == sizes[i] {
      assert files[frames[i].path].bytes == media.encodedBytes(frames[i].time, enc);
    }
  }

  lemma GatheredTimes(frames: seq<Frame>, files: map<string, FileData>)
    requires forall j :: 0 <= j < |frames| ==> frames[j].path in files
    ensures Gathered(frames, files, |frames|).times == seq(|frames|, i requires 0 <= i < |frames| => frames[i].time)
  {
    GatheredLists(frames, files, |frames|);
  }

  /** The report stage: its one checkpoint decides, then whether the file can be written. */
  lemma ReportOutcome(st: State, outputDir: string, metadata: Metadata, analysis: Analysis,
                      frames: seq<Frame>, media: Media, cancel: Option<nat>)
    requires !st.shouldCancel
    ensures FromReport(st, outputDir, metadata, analysis, frames, media, cancel).0
      == if cancel == Some(st.checks) then Cancelled
         else if !media.reportSaves then Failed(ReportWriteError)
         else Done(RunResult(metadata, analysis, outputDir, PathsOf(frames)))
  {
  }

  /** The end of a run from the analysis of its n saved frames on, `c0` checkpoints in: the
      analysis's checkpoints c0 .. c0 + n, then the report's c0 + n + 1, then the writing of
      the report. */
  function AnalysedResult(c0: nat, metadata: Metadata, outputDir: string, frames: seq<Frame>,
                          enc: Encoder, media: Media, cancel: Option<nat>): Step<RunResult>
  {
    var n := |frames|;
    if cancel.Some? && c0 <= cancel.value <= c0 + n then Cancelled
    else if n == 0 then Failed(ZeroDivision)
    else if cancel == Some(c0 + n + 1) then Cancelled
    else if !media.reportSaves then Failed(ReportWriteError)
    else Done(RunResult(metadata, FramesAnalysis(frames, media, enc), outputDir, PathsOf(frames)))
  }

  /** The analysis and report stages over frames whose images are on disk end as
      AnalysedResult says. */
  lemma AnalysisOutcome(st: State, outputDir: string, metadata: Metadata, frames: seq<Frame>,
                        media: Media, enc: Encoder, cancel: Option<nat>)
    requires !st.shouldCancel
    requires HoldsImages(st.files, frames, media, enc)
    ensures FromAnalysis(st, outputDir, metadata, frames, media, cancel).0
      == AnalysedResult(st.checks, metadata, outputDir, frames, enc, media, cancel)
  {
    var s1 := AfterCheck(Announce(st, AnalyzingFrames), cancel);
    if !s1.shouldCancel {
      assert FirstMissing(frames, s1.files) == |frames|;
      var (ms, s2) := MeasureStep(s1, frames, cancel);
      if ms.Done? && frames != [] {
        Measured(s1, outputDir, metadata, frames, media, enc, cancel);
      }
    }
  }

  /** When every frame is measured, the analysis is that of the saved images and the report
      stage decides. */
  lemma Measured(st: State, outputDir: string, metadata: Metadata, frames: seq<Frame>,
                 media: Media, enc: Encoder, cancel: Option<nat>)
    requires frames != [] && !st.shouldCancel
    requires HoldsImages(st.files, frames, media, enc)
    requires MeasureStep(st, frames, cancel).0.Done?
    ensures var (ms, s2) := MeasureStep(st, frames, cancel);
      var analysis := Analysis(|frames|, ms.value.sizes, Mean(ms.value.total, |frames|), ms.value.times);
      && analysis == FramesAnalysis(frames, media, enc)
      && FromReport(s2, outputDir, metadata, analysis, frames, media, cancel).0
         == if cancel == Some(s2.checks) then Cancelled
            else if !media.reportSaves then Failed(ReportWriteError)
            else Done(RunResult(metadata, FramesAnalysis(frames, media, enc), outputDir, PathsOf(frames)))
  {
    var (ms, s2) := MeasureStep(st, frames, cancel);
    GatheredImages(frames, st.files, media, enc);
    ReportOutcome(s2, outputDir, metadata, FramesAnalysis(frames, media, enc), frames, media, cancel);
  }

  /** The end of a run from the saving of its n frames on, `c0` checkpoints in: the
      extraction's checkpoints c0 .. c0 + n - 1, one before each frame, up to the first frame
      that cannot be saved; then those of AnalysedResult. */
  function SampledResult(c0: nat, metadata: Metadata, outputDir: string, frames: seq<Frame>,
                         enc: Encoder, media: Media, cancel: Option<nat>): Step<RunResult>
  {
    var n := |frames|;
    var j := FirstUnsaved(frames, enc, media);
    if cancel.Some? && c0 <= cancel.value < c0 + n && cancel.value <= c0 + j then Cancelled
    else if j < n then Failed(FrameError(frames[j].time))
    else AnalysedResult(c0 + n, metadata, outputDir, frames, enc, media, cancel)
  }

  /** Saving frames with distinct paths, then analysing them and writing the report, ends as
      SampledResult says. */
  lemma SampledOutcome(st: State, outputDir: string, metadata: Metadata, frames: seq<Frame>,
                       enc: Encoder, media: Media, cancel: Option<nat>)
    requires !st.shouldCancel && DistinctPaths(frames)
    ensures var (fr, s2) := SampleStep(st, frames, enc, media, cancel);
      (if !fr.Done? then Propagate(fr) else FromAnalysis(s2, outputDir, metadata, fr.value, media, cancel).0)
      == SampledResult(st.checks, metadata, outputDir, frames, enc, media, cancel)
  {
    if FirstFiring(false, st.checks, cancel, |frames|) == |frames| == FirstUnsaved(frames, enc, media) {
      SampledAll(st, outputDir, metadata, frames, enc, media, cancel);
    }
  }

  /** When no cancel request lands during the extraction and every frame can be saved, every
      frame is saved and the analysis takes over. */
  lemma SampledAll(st: State, outputDir: string, metadata: Metadata, frames: seq<Frame>,
                   enc: Encoder, media: Media, cancel: Option<nat>)
    requires !st.shouldCancel && DistinctPaths(frames)
    requires FirstFiring(false, st.checks, cancel, |frames|) == |frames| == FirstUnsaved(frames, enc, media)
    ensures var (fr, s2) := SampleStep(st, frames, enc, media, cancel);
      fr == Done(frames) && FromAnalysis(s2, outputDir, metadata, frames, media, cancel).0
        == AnalysedResult(st.checks + |frames|, metadata, outputDir, frames, enc, media, cancel)
  {
    var s2 := SampleStep(st, frames, enc, media, cancel).1;
    assert frames[..|frames|] == frames;
    WritesImages(st.files, frames, media, enc);
    AnalysisOutcome(s2, outputDir, metadata, frames, media, enc, cancel);
  }

  /** The end of a run that has read the metadata and passed `c0` checkpoints: no schedule,
      or the frames the schedule names as SampledResult says. */
  function FramesResult(c0: nat, metadata: Metadata, outputDir: string, media: Media, interval: int,
                        format: string, quality: int, cancel: Option<nat>): Step<RunResult>
  {
    match Schedule(media.duration, interval)
    case None => Failed(ZeroStep)
    case Some(ts) =>
      SampledResult(c0, metadata, outputDir, FramesOf(FramesDir(outputDir), ts, format),
                    EncoderFor(format, quality), media, cancel)
  }

  /** The frame, analysis and report stages end as FramesResult says. */
  lemma FramesOutcome(st: State, outputDir: string, metadata: Metadata, media: Media, interval: int,
                      format: string, quality: int, cancel: Option<nat>)
    requires !st.shouldCancel && media.opens
    ensures FromFrames(st, outputDir, metadata, media, interval, format, quality, cancel).0
      == FramesResult(st.checks, metadata, outputDir, media, interval, format, quality, cancel)
  {
    match Schedule(media.duration, interval)
    case None =>
    case Some(ts) =>
      var frames := FramesOf(FramesDir(outputDir), ts, format);
      var s1 := Announce(st, ExtractingFrames).(dirs := st.dirs + {FramesDir(outputDir)});
      FramesOfDistinct(FramesDir(outputDir), ts, format);
      SampledOutcome(s1, outputDir, metadata, frames, EncoderFor(format, quality), media, cancel);
      assert ExtractStep(Announce(st, ExtractingFrames), outputDir, media, interval, format, quality, cancel)
          == SampleStep(s1, frames, EncoderFor(format, quality), media, cancel);
  }

  /** The outcome of `process_video` as a function of its inputs alone. The run passes
      checkpoint 0 (metadata), 1 .. n (one per frame), n + 1 .. 2n + 1 (analysis) and 2n + 2
      (report), where n is the number of samples; a cancel request before any of them cancels
      the run, whatever was on disk before and whatever the flag was. */
  function Outcome(videoPath: string, media: Media, interval: int, format: string, quality: int,
                   cancel: Option<nat>): Step<RunResult>
  {
    if cancel == Some(0) then Cancelled
    else if !media.opens then Failed(MediaOpenError)
    else FramesResult(1, MetadataOf(videoPath, media), OutputDir(videoPath), media, interval, format, quality, cancel)
  }

  /** `process_video` ends as Outcome says, from every state. */
  lemma RunOutcome(st: State, videoPath: string, media: Media, interval: int, format: string,
                   quality: int, cancel: Option<nat>)
    ensures Run(st, videoPath, media, interval, format, quality, cancel).0
         == Outcome(videoPath, media, interval, format, quality, cancel)
  {
    var outputDir := OutputDir(videoPath);
    StagesOutcome(st.(shouldCancel := false, checks := 0, dirs := st.dirs + {outputDir}), videoPath,
                  media, interval, format, quality, cancel);
  }

  lemma StagesOutcome(st: State, videoPath: string, media: Media, interval: int, format: string,
                      quality: int, cancel: Option<nat>)
    requires !st.shouldCancel && st.checks == 0
    ensures Stages(st, videoPath, OutputDir(videoPath), media, interval, format, quality, cancel).0
         == Outcome(videoPath, media, interval, format, quality, cancel)
  {
    var (md, s1) := MetadataStep(Announce(st, ExtractingMetadata), videoPath, media, cancel);
    if md.Done? {
      assert s1.checks == 1 && md.value == MetadataOf(videoPath, media);
      FramesOutcome(s1, OutputDir(videoPath), md.value, media, interval, format, quality, cancel);
    }
  }

  // ---------------------------------------------------------------- what a run leaves behind

  /** The files that do not lie below `dir`. */
  function Outside(files: map<string, FileData>, dir: string): map<string, FileData>
  {
    map p | p in files && !IsUnder(p, dir) :: files[p]
  }

  /** No cancel request has landed before checkpoint c. */
  predicate NotLanded(cancel: Option<nat>, c: nat) { cancel.Some? ==> c <= cancel.value }

  /** A stage that ends with `r` leaves the flag set exactly when it was cancelled (by the
      request, which then existed; otherwise the request has still not landed), removes no
      directory and changes no file outside `dir`. */
  predicate Settled<T>(r: Step<T>, before: State, after: State, dir: string, cancel: Option<nat>)
  {
    && (after.shouldCancel <==> r.Cancelled?)
    && (r.Cancelled? ==> cancel.Some?)
    && (!r.Cancelled? ==> NotLanded(cancel, after.checks))
    && before.dirs <= after.dirs
    && Outside(after.files, dir) == Outside(before.files, dir)
  }

  /** Writing a file below `dir` changes nothing outside it. */
  lemma OutsideWrite(files: map<string, FileData>, dir: string, p: string, d: FileData)
    requires IsUnder(p, dir)
    ensures Outside(files[p := d], dir) == Outside(files, dir)
  {
  }

  /** Saving frames below `dir` changes nothing outside it. */
  lemma {:induction false} OutsideWrites(files: map<string, FileData>, frames: seq<Frame>, media: Media,
                                         enc: Encoder, dir: string)
    requires forall i :: 0 <= i < |frames| ==> IsUnder(frames[i].path, dir)
    ensures Outside(Writes(files, frames, media, enc), dir) == Outside(files, dir)
  {
    if frames != [] {
      var f := frames[|frames| - 1];
      OutsideWrites(files, frames[..|frames| - 1], media, enc, dir);
      OutsideWrite(Writes(files, frames[..|frames| - 1], media, enc), dir, f.path,
                   Image(f.time, enc, media.encodedBytes(f.time, enc)));
    }
  }

  /** Every frame of a run is saved below its output directory. */
  lemma FramesOfUnder(outputDir: string, ts: seq<int>, format: string)
    ensures var frames := FramesOf(FramesDir(outputDir), ts, format);
      forall i :: 0 <= i < |frames| ==> IsUnder(frames[i].path, outputDir)
  {
    var frames := FramesOf(FramesDir(outputDir), ts, format);
    forall i | 0 <= i < |frames| ensures IsUnder(frames[i].path, outputDir) {
      var name := FrameName(ts[i], i + 1, format);
      FramesOfAt(FramesDir(outputDir), ts, format, i);
      FrameNameStart(ts[i], i + 1, format);
      JoinUnder(FramesDir(outputDir), name);
      UnderSubdirectory(frames[i].path, outputDir, FramesDirName);
    }
  }

  lemma ReportSettled(st: State, outputDir: string, metadata: Metadata, analysis: Analysis,
                      frames: seq<Frame>, media: Media, cancel: Option<nat>)
    requires !st.shouldCancel && NotLanded(cancel, st.checks)
    ensures var (r, s) := FromReport(st, outputDir, metadata, analysis, frames, media, cancel);
      Settled(r, st, s, outputDir, cancel)
  {
    var s1 := AfterCheck(Announce(st, GeneratingReport), cancel);
    JoinUnder(outputDir, ReportName);
    OutsideWrite(s1.files, outputDir, ReportPath(outputDir), Json(Report(metadata, analysis), media.reportBytes));
  }

  lemma AnalysisSettled(st: State, outputDir: string, metadata: Metadata, frames: seq<Frame>,
                        media: Media, cancel: Option<nat>)
    requires !st.shouldCancel && NotLanded(cancel, st.checks)
    ensures var (r, s) := FromAnalysis(st, outputDir, metadata, frames, media, cancel);
      Settled(r, st, s, outputDir, cancel)
  {
    var (an, s3) := AnalyzeStep(Announce(st, AnalyzingFrames), frames, cancel);
    if an.Done? {
      ReportSettled(s3, outputDir, metadata, an.value, frames, media, cancel);
    }
  }

  lemma SampledSettled(st: State, outputDir: string, metadata: Metadata, frames: seq<Frame>,
                       enc: Encoder, media: Media, cancel: Option<nat>)
    requires !st.shouldCancel && NotLanded(cancel, st.checks)
    requires forall i :: 0 <= i < |frames| ==> IsUnder(frames[i].path, outputDir)
    ensures var (fr, s2) := SampleStep(st, frames, enc, media, cancel);
      var (r, s) := if !fr.Done? then (Propagate(fr), s2) else FromAnalysis(s2, outputDir, metadata, fr.value, media, cancel);
      Settled(r, st, s, outputDir, cancel)
  {
    var (fr, s2) := SampleStep(st, frames, enc, media, cancel);
    var k := FirstFiring(st.shouldCancel, st.checks, cancel, |frames|);
    var j := FirstUnsaved(frames, enc, media);
    var saved := if k <= j then k else j;
    OutsideWrites(st.files, frames[..saved], media, enc, outputDir);
    if fr.Done? {
      AnalysisSettled(s2, outputDir, metadata, frames, media, cancel);
    }
  }

  /** Once the decoder opens, the frames directory exists from then on. */
  lemma FramesSettled(st: State, outputDir: string, metadata: Metadata, media: Media, interval: int,
                      format: string, quality: int, cancel: Option<nat>)
    requires !st.shouldCancel && NotLanded(cancel, st.checks)
    ensures var (r, s) := FromFrames(st, outputDir, metadata, media, interval, format, quality, cancel);
      && Settled(r, st, s, outputDir, cancel)
      && (media.opens ==> FramesDir(outputDir) in s.dirs)
  {
    if media.opens {
      match Schedule(media.duration, interval)
      case None =>
      case Some(ts) =>
        var frames := FramesOf(FramesDir(outputDir), ts, format);
        var s1 := Announce(st, ExtractingFrames).(dirs := st.dirs + {FramesDir(outputDir)});
        FramesOfUnder(outputDir, ts, format);
        SampledSettled(s1, outputDir, metadata, frames, EncoderFor(format, quality), media, cancel);
        assert ExtractStep(Announce(st, ExtractingFrames), outputDir, media, interval, format, quality, cancel)
            == SampleStep(s1, frames, EncoderFor(format, quality), media, cancel);
    }
  }

  lemma StagesSettled(st: State, videoPath: string, outputDir: string, media: Media, interval: int,
                       format: string, quality: int, cancel: Option<nat>)
    requires !st.shouldCancel && NotLanded(cancel, st.checks)
    ensures var (r, s) := Stages(st, videoPath, outputDir, media, interval, format, quality, cancel);
      && Settled(r, st, s, outputDir, cancel)
      && (media.opens && cancel != Some(st.checks) ==> FramesDir(outputDir) in s.dirs)
  {
    var (md, s1) := MetadataStep(Announce(st, ExtractingMetadata), videoPath, media, cancel);
    if md.Done? {
      FramesSettled(s1, outputDir, md.value, media, interval, format, quality, cancel);
    }
  }

  /** The cleanup leaves exactly the files outside the directory it cleans. */
  lemma CleanupFiles(st: State, outputDir: string)
    requires outputDir in st.dirs
    ensures Cleanup(st, outputDir).files == Outside(st.files, outputDir)
    ensures Cleanup(st, outputDir).shouldCancel == st.shouldCancel
  {
  }

  /** What `process_video` leaves behind, from every state: the flag ends set exactly when a
      cancel request came during the run, met by a checkpoint or not, and a cancelled run had
      one; no file outside the output directory is created, changed or removed; and a
      cancelled run leaves no file at all below the output directory, not even one that was
      there before it began. */
  lemma RunSettled(st: State, videoPath: string, media: Media, interval: int, format: string,
                   quality: int, cancel: Option<nat>)
    ensures var (r, s) := Run(st, videoPath, media, interval, format, quality, cancel);
      var outputDir := OutputDir(videoPath);
      && (s.shouldCancel <==> cancel.Some?)
      && (r.Cancelled? ==> s.shouldCancel)
      && Outside(s.files, outputDir) == Outside(st.files, outputDir)
      && (r.Cancelled? ==> s.files == Outside(st.files, outputDir))
  {
    var outputDir := OutputDir(videoPath);
    var s0 := st.(shouldCancel := false, checks := 0, dirs := st.dirs + {outputDir});
    StagesSettled(s0, videoPath, outputDir, media, interval, format, quality, cancel);
    var (r, s1) := Stages(s0, videoPath, outputDir, media, interval, format, quality, cancel);
    if r.Cancelled? {
      CleanupFiles(s1, outputDir);
      OutsideTwice(st.files, outputDir);
    }
  }

  lemma OutsideTwice(files: map<string, FileData>, dir: string)
    ensures Outside(Outside(files, dir), dir) == Outside(files, dir)
  {
  }

  /** The cleanup's `os.rmdir` fails whenever the frames directory exists: a run cancelled
      after its first checkpoint, once the decoder has opened, keeps both directories, while
      one cancelled at its first checkpoint removes the output directory when no directory
      lay below it before. */
  lemma CancelledDirectories(st: State, videoPath: string, media: Media, interval: int,
                             format: string, quality: int, cancel: Option<nat>)
    ensures var (r, s) := Run(st, videoPath, media, interval, format, quality, cancel);
      var outputDir := OutputDir(videoPath);
      r.Cancelled? ==>
        && (cancel != Some(0) ==> media.opens && outputDir in s.dirs && FramesDir(outputDir) in s.dirs)
        && (cancel == Some(0) && (forall d :: d in st.dirs ==> !IsUnder(d, outputDir)) ==> outputDir !in s.dirs)
  {
    var outputDir := OutputDir(videoPath);
    var s0 := st.(shouldCancel := false, checks := 0, dirs := st.dirs + {outputDir});
    var (r, s1) := Stages(s0, videoPath, outputDir, media, interval, format, quality, cancel);
    StagesSettled(s0, videoPath, outputDir, media, interval, format, quality, cancel);
    RunOutcome(st, videoPath, media, interval, format, quality, cancel);
    JoinUnder(outputDir, FramesDirName);
    if r.Cancelled? && cancel == Some(0) {
      assert s1.dirs == s0.dirs;
    }
  }

  // ---------------------------------------------------------------- a completed run

  lemma ReportDone(st: State, outputDir: string, metadata: Metadata, analysis: Analysis,
                   frames: seq<Frame>, media: Media, cancel: Option<nat>)
    ensures var (r, s) := FromReport(st, outputDir, metadata, analysis, frames, media, cancel);
      r.Done? ==>
        && r.value.metadata == metadata && r.value.analysis == analysis
        && s.files == st.files[ReportPath(outputDir) := Json(Report(metadata, analysis), media.reportBytes)]
        && s.dirs == st.dirs
        && s.status == st.status + [GeneratingReport, ReportSaved(ReportPath(outputDir))]
  {
  }

  lemma AnalysisDone(st: State, outputDir: string, metadata: Metadata, frames: seq<Frame>,
                     media: Media, cancel: Option<nat>)
    ensures var (r, s) := FromAnalysis(st, outputDir, metadata, frames, media, cancel);
      r.Done? ==>
        && r.value.metadata == metadata
        && s.files == st.files[ReportPath(outputDir) := Json(Report(metadata, r.value.analysis), media.reportBytes)]
        && s.dirs == st.dirs
        && s.status == st.status + [AnalyzingFrames, GeneratingReport, ReportSaved(ReportPath(outputDir))]
  {
    var (an, s3) := AnalyzeStep(Announce(st, AnalyzingFrames), frames, cancel);
    if an.Done? {
      ReportDone(s3, outputDir, metadata, an.value, frames, media, cancel);
    }
  }

  lemma SampledDone(st: State, outputDir: string, metadata: Metadata, frames: seq<Frame>,
                    enc: Encoder, media: Media, cancel: Option<nat>)
    ensures var (fr, s2) := SampleStep(st, frames, enc, media, cancel);
      var (r, s) := if !fr.Done? then (Propagate(fr), s2) else FromAnalysis(s2, outputDir, metadata, fr.value, media, cancel);
      r.Done? ==>
        && r.value.metadata == metadata
        && s.files == Writes(st.files, frames, media, enc)[ReportPath(outputDir) := Json(Report(metadata, r.value.analysis), media.reportBytes)]
        && s.dirs == st.dirs
        && s.status == st.status + FrameLines(frames) + [AnalyzingFrames, GeneratingReport, ReportSaved(ReportPath(outputDir))]
  {
    var (fr, s2) := SampleStep(st, frames, enc, media, cancel);
    if fr.Done? {
      assert frames[..|frames|] == frames;
      assert FrameLines(frames)[..|frames|] == FrameLines(frames);
      AnalysisDone(s2, outputDir, metadata, frames, media, cancel);
    }
  }

  lemma FramesDone(st: State, outputDir: string, metadata: Metadata, media: Media, interval: int,
                   format: string, quality: int, cancel: Option<nat>)
    ensures var (r, s) := FromFrames(st, outputDir, metadata, media, interval, format, quality, cancel);
      r.Done? ==>
        && media.opens && Schedule(media.duration, interval).Some?
        && var frames := FramesOf(FramesDir(outputDir), Schedule(media.duration, interval).value, format);
        && r.value.metadata == metadata
        && s.files == Writes(st.files, frames, media, EncoderFor(format, quality))[ReportPath(outputDir) := Json(Report(metadata, r.value.analysis), media.reportBytes)]
        && s.dirs == st.dirs + {FramesDir(outputDir)}
        && s.status == st.status + [ExtractingFrames] + FrameLines(frames) + [AnalyzingFrames, GeneratingReport, ReportSaved(ReportPath(outputDir))]
  {
    if media.opens {
      match Schedule(media.duration, interval)
      case None =>
      case Some(ts) =>
        var frames := FramesOf(FramesDir(outputDir), ts, format);
        var s1 := Announce(st, ExtractingFrames).(dirs := st.dirs + {FramesDir(outputDir)});
        SampledDone(s1, outputDir, metadata, frames, EncoderFor(format, quality), media, cancel);
        assert ExtractStep(Announce(st, ExtractingFrames), outputDir, media, interval, format, quality, cancel)
            == SampleStep(s1, frames, EncoderFor(format, quality), media, cancel);
        assert st.status + [ExtractingFrames] + FrameLines(frames) == s1.status + FrameLines(frames);
    }
  }

  /** A completed run has created the output and frames directories, saved every frame of
      the schedule in order and then the report (each overwriting a file of the same name),
      and printed the four stage lines, one line per frame and the report line; its flag is
      set only by a cancel request that came after its last checkpoint. */
  lemma RunDone(st: State, videoPath: string, media: Media, interval: int, format: string,
                quality: int, cancel: Option<nat>)
    ensures var (r, s) := Run(st, videoPath, media, interval, format, quality, cancel);
      var outputDir := OutputDir(videoPath);
      r.Done? ==>
        && media.opens && Schedule(media.duration, interval).Some?
        && var frames := FramesOf(FramesDir(outputDir), Schedule(media.duration, interval).value, format);
        && s.files == Writes(st.files, frames, media, EncoderFor(format, quality))[ReportPath(outputDir) := Json(Report(r.value.metadata, r.value.analysis), media.reportBytes)]
        && s.dirs == st.dirs + {outputDir, FramesDir(outputDir)}
        && s.status == st.status + [ExtractingMetadata, ExtractingFrames] + FrameLines(frames)
                       + [AnalyzingFrames, GeneratingReport, ReportSaved(ReportPath(outputDir))]
        && (s.shouldCancel <==> cancel.Some?)
  {
    var outputDir := OutputDir(videoPath);
    StagesDone(st.(shouldCancel := false, checks := 0, dirs := st.dirs + {outputDir}), videoPath, outputDir,
               media, interval, format, quality, cancel);
    RunSettled(st, videoPath, media, interval, format, quality, cancel);
  }

  lemma StagesDone(st: State, videoPath: string, outputDir: string, media: Media, interval: int,
                   format: string, quality: int, cancel: Option<nat>)
    ensures var (r, s) := Stages(st, videoPath, outputDir, media, interval, format, quality, cancel);
      r.Done? ==>
        && media.opens && Schedule(media.duration, interval).Some?
        && var frames := FramesOf(FramesDir(outputDir), Schedule(media.duration, interval).value, format);
        && s.files == Writes(st.files, frames, media, EncoderFor(format, quality))[ReportPath(outputDir) := Json(Report(r.value.metadata, r.value.analysis), media.reportBytes)]
        && s.dirs == st.dirs + {FramesDir(outputDir)}
        && s.status == st.status + [ExtractingMetadata, ExtractingFrames] + FrameLines(frames)
                       + [AnalyzingFrames, GeneratingReport, ReportSaved(ReportPath(outputDir))]
  {
    var (md, s1) := MetadataStep(Announce(st, ExtractingMetadata), videoPath, media, cancel);
    if md.Done? {
      FramesDone(s1, outputDir, md.value, media, interval, format, quality, cancel);
      assert st.status + [ExtractingMetadata, ExtractingFrames] == s1.status + [ExtractingFrames];
    }
  }

  // ---------------------------------------------------------------- a failed run

  lemma AnalysisFailed(st: State, outputDir: string, metadata: Metadata, frames: seq<Frame>,
                       media: Media, cancel: Option<nat>)
    ensures var (r, s) := FromAnalysis(st, outputDir, metadata, frames, media, cancel);
      r.Failed? ==> s.files == st.files && s.dirs == st.dirs
  {
  }

  /** A run that fails once its frames are named ends on the first frame that cannot be
      saved, keeping the frames saved before it; when every frame is saved, it fails in the
      analysis of no frames or in writing the report. */
  lemma SampledFailed(st: State, outputDir: string, metadata: Metadata, frames: seq<Frame>,
                      enc: Encoder, media: Media, cancel: Option<nat>)
    requires !st.shouldCancel && DistinctPaths(frames)
    ensures var (fr, s2) := SampleStep(st, frames, enc, media, cancel);
      var (r, s) := if !fr.Done? then (Propagate(fr), s2) else FromAnalysis(s2, outputDir, metadata, fr.value, media, cancel);
      var j := FirstUnsaved(frames, enc, media);
      r.Failed? ==>
        && (if j < |frames| then r.error == FrameError(frames[j].time)
            else r.error == ZeroDivision || r.error == ReportWriteError)
        && s.files == Writes(st.files, frames[..j], media, enc) && s.dirs == st.dirs
  {
    var (fr, s2) := SampleStep(st, frames, enc, media, cancel);
    if fr.Done? {
      assert FirstFiring(false, st.checks, cancel, |frames|) == |frames| == FirstUnsaved(frames, enc, media);
      assert frames[..|frames|] == frames;
      SampledAll(st, outputDir, metadata, frames, enc, media, cancel);
      AnalysisFailed(s2, outputDir, metadata, frames, media, cancel);
    }
  }

  lemma FramesFailed(st: State, outputDir: string, metadata: Metadata, media: Media, interval: int,
                     format: string, quality: int, cancel: Option<nat>)
    requires !st.shouldCancel && media.opens
    ensures var (r, s) := FromFrames(st, outputDir, metadata, media, interval, format, quality, cancel);
      r.Failed? ==>
        && s.dirs == st.dirs + {FramesDir(outputDir)}
        && (r.error == ZeroStep <==> Schedule(media.duration, interval).None?)
        && (r.error == ZeroStep ==> s.files == st.files)
        && (r.error != ZeroStep ==> FailedFiles(r.error, st.files, s.files, outputDir, media, interval, format, quality))
  {
    match Schedule(media.duration, interval)
    case None =>
    case Some(ts) =>
      var frames := FramesOf(FramesDir(outputDir), ts, format);
      var s1 := Announce(st, ExtractingFrames).(dirs := st.dirs + {FramesDir(outputDir)});
      FramesOfDistinct(FramesDir(outputDir), ts, format);
      SampledFailed(s1, outputDir, metadata, frames, EncoderFor(format, quality), media, cancel);
      assert ExtractStep(Announce(st, ExtractingFrames), outputDir, media, interval, format, quality, cancel)
          == SampleStep(s1, frames, EncoderFor(format, quality), media, cancel);
  }

  /** What a run that failed after naming its frames leaves: the images of the frames before
      the first one that cannot be saved (all of them when there is none), and an error that
      names that frame, or else one of the analysis or the report. */
  predicate FailedFiles(error: Error, before: map<string, FileData>, after: map<string, FileData>,
                        outputDir: string, media: Media, interval: int, format: string, quality: int)
  {
    && Schedule(media.duration, interval).Some?
    && var frames := FramesOf(FramesDir(outputDir), Schedule(media.duration, interval).value, format);
    && var enc := EncoderFor(format, quality);
    && var j := FirstUnsaved(frames, enc, media);
    && (if j < |frames| then error == FrameError(frames[j].time)
        else error == ZeroDivision || error == ReportWriteError)
    && after == Writes(before, frames[..j], media, enc)
  }

  /** A run that fails is not cleaned up. When the decoder cannot open the video or the
      interval is 0, every file is as it was; otherwise the run fails on the first frame that
      cannot be saved, in the analysis of no frames, or in writing the report, and the images
      saved before it stay. The output directory it created stays, with the frames directory
      unless the decoder could not be opened. */
  lemma RunFailed(st: State, videoPath: string, media: Media, interval: int, format: string,
                  quality: int, cancel: Option<nat>)
    ensures var (r, s) := Run(st, videoPath, media, interval, format, quality, cancel);
      var outputDir := OutputDir(videoPath);
      r.Failed? ==>
        && s.dirs == st.dirs + {outputDir} + (if r.error == MediaOpenError then {} else {FramesDir(outputDir)})
        && (r.error == MediaOpenError <==> !media.opens)
        && (r.error in {MediaOpenError, ZeroStep} ==> s.files == st.files)
        && (r.error !in {MediaOpenError, ZeroStep} ==>
              FailedFiles(r.error, st.files, s.files, outputDir, media, interval, format, quality))
  {
    var outputDir := OutputDir(videoPath);
    var s0 := st.(shouldCancel := false, checks := 0, dirs := st.dirs + {outputDir});
    var (md, s1) := MetadataStep(Announce(s0, ExtractingMetadata), videoPath, media, cancel);
    if md.Done? {
      FramesFailed(s1, outputDir, md.value, media, interval, format, quality, cancel);
    }
  }

  /** The contrast the cleanup draws: a cancelled run leaves no file below the output
      directory, while a run that fails on a frame keeps the image of every frame before it. */
  lemma CancelRemovesFailureKeeps(st: State, videoPath: string, media: Media, interval: int,
                                  format: string, quality: int, cancel: Option<nat>)
    ensures var (r, s) := Run(st, videoPath, media, interval, format, quality, cancel);
      var outputDir := OutputDir(videoPath);
      && (r.Cancelled? ==> FilesUnder(s.files, outputDir) == {})
      && (r.Failed? && r.error.FrameError? ==>
            && media.opens && Schedule(media.duration, interval).Some?
            && var frames := FramesOf(FramesDir(outputDir), Schedule(media.duration, interval).value, format);
            && var enc := EncoderFor(format, quality);
            && var j := FirstUnsaved(frames, enc, media);
            && j < |frames| && r.error.time == frames[j].time
            && HoldsImages(s.files, frames[..j], media, enc))
  {
    var (r, s) := Run(st, videoPath, media, interval, format, quality, cancel);
    var outputDir := OutputDir(videoPath);
    RunSettled(st, videoPath, media, interval, format, quality, cancel);
    RunFailed(st, videoPath, media, interval, format, quality, cancel);
    if r.Failed? && r.error.FrameError? {
      var ts := Schedule(media.duration, interval).value;
      var frames := FramesOf(FramesDir(outputDir), ts, format);
      var enc := EncoderFor(format, quality);
      var j := FirstUnsaved(frames, enc, media);
      FramesOfDistinct(FramesDir(outputDir), ts, format);
      PrefixDistinct(frames, j);
      WritesImages(st.files, frames[..j], media, enc);
    }
  }

  lemma PrefixDistinct(frames: seq<Frame>, j: nat)
    requires j <= |frames| && DistinctPaths(frames)
    ensures DistinctPaths(frames[..j])
  {
  }
}
