/** The frame extractor of video_processor.py as an object: `VideoProcessor` keeps the
    cancellation flag and the status lines, and works on a `Disk`. Every method is proved to
    follow its stage function from module Pipeline. */
module VideoProcessing {
  import opened Text
  import opened Paths
  import opened Frames
  import opened Pipeline

  /** The filesystem as the pipeline sees it: files by path, and the directories that exist. */
  class Disk {
    var files: map<string, FileData>
    var dirs: set<string>

    constructor (files: map<string, FileData>, dirs: set<string>)
      ensures this.files == files && this.dirs == dirs
    {
      this.files := files;
      this.dirs := dirs;
    }

    /** `os.makedirs(path, exist_ok=True)`. */
    method MakeDirs(path: string)
      modifies this
      ensures dirs == old(dirs) + {path} && files == old(files)
    {
      dirs := dirs + {path};
    }

    /** Writing a whole file, replacing any previous content. */
    method Save(path: string, data: FileData)
      modifies this
      ensures files == old(files)[path := data] && dirs == old(dirs)
    {
      files := files[path := data];
    }

    /** `os.remove(path)`. */
    method Remove(path: string)
      modifies this
      ensures files == old(files) - {path} && dirs == old(dirs)
    {
      files := files - {path};
    }

    /** `os.rmdir(path)`: succeeds only on an existing directory with nothing below it. */
    method RemoveDir(path: string) returns (ok: bool)
      modifies this
      ensures ok <==> path in old(dirs) && FilesUnder(old(files), path) == {}
                      && !(exists d :: d in old(dirs) && IsUnder(d, path))
      ensures dirs == (if ok then old(dirs) - {path} else old(dirs)) && files == old(files)
    {
      ok := path in dirs && FilesUnder(files, path) == {}
            && !(exists d :: d in dirs && IsUnder(d, path));
      if ok {
        dirs := dirs - {path};
      }
    }
  }

  class VideoProcessor {
    const videoPath: string
    /** The fixed directory `processed_output` beside the video. */
    const outputDir: string := OutputDir(videoPath)
    const disk: Disk
    var shouldCancel: bool
    /** The lines handed to `print_status`, oldest first. */
    var status: seq<StatusLine>
    /** Cancellation checkpoints passed in the current run. */
    var checks: nat

    function Snapshot(): State
      reads this, disk
    {
      State(disk.files, disk.dirs, status, shouldCancel, checks)
    }

    constructor (videoPath: string, disk: Disk)
      ensures this.videoPath == videoPath && this.disk == disk
      ensures outputDir == OutputDir(videoPath)
      ensures !shouldCancel && status == [] && checks == 0
    {
      this.videoPath := videoPath;
      this.disk := disk;
      shouldCancel := false;
      status := [];
      checks := 0;
    }

    /** `cancel_processing`. */
    method CancelProcessing()
      modifies this`shouldCancel
      ensures shouldCancel
    {
      shouldCancel := true;
    }

    /** `check_cancelled`: true stands for raising ProcessCancelled. */
    method CheckCancelled() returns (cancelled: bool)
      ensures cancelled <==> shouldCancel
    {
      cancelled := shouldCancel;
    }

    /** One checkpoint of the run, with the UI thread's cancel request landing just before it
        when `cancel` names this checkpoint. */
    method Checkpoint(cancel: Option<nat>) returns (cancelled: bool)
      modifies this`shouldCancel, this`checks
      ensures shouldCancel == (old(shouldCancel) || cancel == Some(old(checks)))
      ensures checks == old(checks) + 1 && cancelled == shouldCancel
    {
      if cancel == Some(checks) {
        CancelProcessing();
      }
      checks := checks + 1;
      cancelled := CheckCancelled();
    }

    method Announce(line: StatusLine)
      modifies this`status
      ensures status == old(status) + [line]
    {
      status := status + [line];
    }

    /** `get_video_metadata`. */
    method GetVideoMetadata(media: Media, cancel: Option<nat>) returns (r: Step<Metadata>)
      modifies this`shouldCancel, this`checks
      ensures var (out, st) := MetadataStep(old(Snapshot()), videoPath, media, cancel);
        && r == out && disk.files == st.files && disk.dirs == st.dirs && status == st.status
        && shouldCancel == st.shouldCancel && checks == st.checks
    {
      var cancelled := Checkpoint(cancel);
      if cancelled {
        return Cancelled;
      }
      if !media.opens {
        return Failed(MediaOpenError);
      }
      r := Done(MetadataOf(videoPath, media));
    }

    /** `extract_frames`. The entries of `frame_info` the schedule calls for are named first
        (naming has no effect on the state); the loop then takes them in order. */
    method ExtractFrames(media: Media, interval: int, format: string, quality: int,
                         cancel: Option<nat>) returns (r: Step<seq<Frame>>)
      modifies this`shouldCancel, this`checks, this`status, disk
      ensures var (out, st) := ExtractStep(old(Snapshot()), outputDir, media, interval, format,
                                           quality, cancel);
        && r == out && disk.files == st.files && disk.dirs == st.dirs && status == st.status
        && shouldCancel == st.shouldCancel && checks == st.checks
    {
      var framesDir := FramesDir(outputDir);
      disk.MakeDirs(framesDir);
      if !media.opens {
        return Failed(MediaOpenError);
      }
      var schedule := Schedule(media.duration, interval);
      if schedule.None? {
        return Failed(ZeroStep);
      }
      var frames := FramesOf(framesDir, schedule.value, format);
      var enc := EncoderFor(format, quality);
      r := SaveFrames(frames, enc, media, cancel);
    }

    /** The sampling loop of `extract_frames`: before each frame a checkpoint, then the frame
        is decoded, its image saved and announced. The first checkpoint that raises, or the
        first frame that cannot be saved, ends the loop. */
    method SaveFrames(frames: seq<Frame>, enc: Encoder, media: Media, cancel: Option<nat>)
      returns (r: Step<seq<Frame>>)
      modifies this`shouldCancel, this`checks, this`status, disk
      ensures var (out, st) := SampleStep(old(Snapshot()), frames, enc, media, cancel);
        && r == out && disk.files == st.files && disk.dirs == st.dirs && status == st.status
        && shouldCancel == st.shouldCancel && checks == st.checks
    {
      ghost var before := Snapshot();
      SampleFromStart(before, frames, enc, media, cancel);
      var frameInfo: seq<Frame> := [];
      var idx := 0;
      while idx < |frames|
        invariant idx <= |frames| && frameInfo == frames[..idx]
        invariant SampleFrom(Snapshot(), frames, enc, media, cancel, idx)
               == SampleFrom(before, frames, enc, media, cancel, 0)
      {
        var more, out := SamplePass(frames, enc, media, cancel, idx);
        if !more {
          return out;
        }
        TakeNext(frames, idx);
        frameInfo := frameInfo + [frames[idx]];
        idx := idx + 1;
      }
      assert frameInfo == frames;
      r := Done(frameInfo);
    }

    /** One pass of the sampling loop: the checkpoint, then frame idx is decoded, its image
        saved and announced. `more` is false when the pass ends the loop with outcome r. */
    method SamplePass(frames: seq<Frame>, enc: Encoder, media: Media, cancel: Option<nat>, idx: nat)
      returns (more: bool, r: Step<seq<Frame>>)
      requires idx < |frames|
      modifies this`shouldCancel, this`checks, this`status, disk
      ensures more ==>
        SampleFrom(old(Snapshot()), frames, enc, media, cancel, idx)
        == SampleFrom(Snapshot(), frames, enc, media, cancel, idx + 1)
      ensures !more ==> SampleFrom(old(Snapshot()), frames, enc, media, cancel, idx) == (r, Snapshot())
    {
      ghost var head := Snapshot();
      var cancelled := Checkpoint(cancel);
      if cancelled {
        return false, Cancelled;
      }
      var frame := frames[idx];
      if !media.saves(frame.time, enc) {
        return false, Failed(FrameError(frame.time));
      }
      disk.Save(frame.path, Image(frame.time, enc, media.encodedBytes(frame.time, enc)));
      Announce(FrameExtracted(idx + 1, |frames|, frame.time));
      assert Snapshot() == SaveOne(AfterCheck(head, cancel), frames, idx, enc, media);
      more, r := true, Done(frames);
    }

    /** `analyze_frames`. */
    method AnalyzeFrames(frames: seq<Frame>, cancel: Option<nat>) returns (r: Step<Analysis>)
      modifies this`shouldCancel, this`checks
      ensures var (out, st) := AnalyzeStep(old(Snapshot()), frames, cancel);
        && r == out && disk.files == st.files && disk.dirs == st.dirs && status == st.status
        && shouldCancel == st.shouldCancel && checks == st.checks
    {
      var cancelled := Checkpoint(cancel);
      if cancelled {
        return Cancelled;
      }
      var measured := MeasureFrames(frames, cancel);
      if !measured.Done? {
        return Propagate(measured);
      }
      if |frames| == 0 {
        return Failed(ZeroDivision);
      }
      var m := measured.value;
      r := Done(Analysis(|frames|, m.sizes, Mean(m.total, |frames|), m.times));
    }

    /** The loop of `analyze_frames`: a checkpoint before each frame, then its size is read and
        added to the lists and the running total. */
    method MeasureFrames(frames: seq<Frame>, cancel: Option<nat>) returns (r: Step<Measures>)
      modifies this`shouldCancel, this`checks
      ensures var (out, st) := MeasureStep(old(Snapshot()), frames, cancel);
        && r == out && disk.files == st.files && disk.dirs == st.dirs && status == st.status
        && shouldCancel == st.shouldCancel && checks == st.checks
    {
      ghost var files := disk.files;
      ghost var k := FirstFiring(shouldCancel, checks, cancel, |frames|);
      ghost var m := FirstMissing(frames, files);
      var sizes: seq<real> := [];
      var times: seq<int> := [];
      var totalSize := 0.0;
      var i := 0;
      while i < |frames|
        invariant i <= k && i <= m
        invariant Measures(sizes, times, totalSize) == Gathered(frames, files, i)
        invariant shouldCancel == old(shouldCancel) && checks == old(checks) + i
      {
        var cancelled := Checkpoint(cancel);
        if cancelled {
          assert k == i;
          return Cancelled;
        }
        var path := frames[i].path;
        if path !in disk.files {
          assert m == i && k > i;
          return Failed(FileNotFound(path));
        }
        var fileSize := SizeInMB(disk.files[path].bytes);
        sizes := sizes + [fileSize];
        times := times + [frames[i].time];
        totalSize := totalSize + fileSize;
        i := i + 1;
      }
      r := Done(Measures(sizes, times, totalSize));
    }

    /** `save_report`. */
    method SaveReport(metadata: Metadata, analysis: Analysis, media: Media, cancel: Option<nat>)
      returns (r: Step<()>)
      modifies this`shouldCancel, this`checks, this`status, disk
      ensures var (out, st) := ReportStep(old(Snapshot()), outputDir, metadata, analysis, media, cancel);
        && r == out && disk.files == st.files && disk.dirs == st.dirs && status == st.status
        && shouldCancel == st.shouldCancel && checks == st.checks
    {
      var cancelled := Checkpoint(cancel);
      if cancelled {
        return Cancelled;
      }
      if !media.reportSaves {
        return Failed(ReportWriteError);
      }
      var path := ReportPath(outputDir);
      disk.Save(path, Json(Report(metadata, analysis), media.reportBytes));
      Announce(ReportSaved(path));
      r := Done(());
    }

    /** The cleanup of `process_video` on cancellation: every file below the output directory
        is removed, then the directory itself when nothing remains below it. */
    method RemoveOutput()
      modifies disk
      ensures var st := Cleanup(old(Snapshot()), outputDir);
        disk.files == st.files && disk.dirs == st.dirs
    {
      if outputDir in disk.dirs {
        ghost var under := FilesUnder(disk.files, outputDir);
        var doomed := FilesUnder(disk.files, outputDir);
        while doomed != {}
          invariant doomed <= under
          invariant disk.files == old(disk.files) - (under - doomed)
          invariant disk.dirs == old(disk.dirs)
          decreases doomed
        {
          var p :| p in doomed;
          disk.Remove(p);
          doomed := doomed - {p};
        }
        assert FilesUnder(disk.files, outputDir) == {};
        var _ := disk.RemoveDir(outputDir);
      }
    }

    /** `process_video`: the flag is reset, the output directory created and the stages run;
        on a cancellation the output is cleaned up before the signal is passed on. A cancel
        request that no checkpoint met lands after the last one, while the run returns. */
    method ProcessVideo(media: Media, interval: int, format: string, quality: int,
                        cancel: Option<nat>) returns (r: Step<RunResult>)
      modifies this`shouldCancel, this`checks, this`status, disk
      ensures var (out, st) := Run(old(Snapshot()), videoPath, media, interval, format, quality, cancel);
        && r == out && disk.files == st.files && disk.dirs == st.dirs && status == st.status
        && shouldCancel == st.shouldCancel && checks == st.checks
    {
      shouldCancel := false;
      checks := 0;
      disk.MakeDirs(outputDir);
      r := RunStages(media, interval, format, quality, cancel);
      if r.Cancelled? {
        RemoveOutput();
      } else if cancel.Some? && checks <= cancel.value {
        CancelProcessing();
      }
    }

    /** The `try` body of `process_video`, stage by stage. */
    method RunStages(media: Media, interval: int, format: string, quality: int,
                     cancel: Option<nat>) returns (r: Step<RunResult>)
      modifies this`shouldCancel, this`checks, this`status, disk
      ensures var (out, st) := Stages(old(Snapshot()), videoPath, outputDir, media, interval,
                                      format, quality, cancel);
        && r == out && disk.files == st.files && disk.dirs == st.dirs && status == st.status
        && shouldCancel == st.shouldCancel && checks == st.checks
    {
      Announce(ExtractingMetadata);
      ghost var entry := Snapshot();
      assert entry == Pipeline.Announce(old(Snapshot()), ExtractingMetadata);
      var md := GetVideoMetadata(media, cancel);
      if !md.Done? {
        return Propagate(md);
      }
      r := RunFromFrames(md.value, media, interval, format, quality, cancel);
    }

    method RunFromFrames(metadata: Metadata, media: Media, interval: int, format: string,
                         quality: int, cancel: Option<nat>) returns (r: Step<RunResult>)
      modifies this`shouldCancel, this`checks, this`status, disk
      ensures var (out, st) := FromFrames(old(Snapshot()), outputDir, metadata, media, interval,
                                          format, quality, cancel);
        && r == out && disk.files == st.files && disk.dirs == st.dirs && status == st.status
        && shouldCancel == st.shouldCancel && checks == st.checks
    {
      Announce(ExtractingFrames);
      ghost var entry := Snapshot();
      assert entry == Pipeline.Announce(old(Snapshot()), ExtractingFrames);
      var fr := ExtractFrames(media, interval, format, quality, cancel);
      if !fr.Done? {
        return Propagate(fr);
      }
      r := RunFromAnalysis(metadata, fr.value, media, cancel);
    }

    method RunFromAnalysis(metadata: Metadata, frames: seq<Frame>, media: Media,
                           cancel: Option<nat>) returns (r: Step<RunResult>)
      modifies this`shouldCancel, this`checks, this`status, disk
      ensures var (out, st) := FromAnalysis(old(Snapshot()), outputDir, metadata, frames, media, cancel);
        && r == out && disk.files == st.files && disk.dirs == st.dirs && status == st.status
        && shouldCancel == st.shouldCancel && checks == st.checks
    {
      Announce(AnalyzingFrames);
      ghost var entry := Snapshot();
      assert entry == Pipeline.Announce(old(Snapshot()), AnalyzingFrames);
      var an := AnalyzeFrames(frames, cancel);
      if !an.Done? {
        return Propagate(an);
      }
      r := RunFromReport(metadata, an.value, frames, media, cancel);
    }

    method RunFromReport(metadata: Metadata, analysis: Analysis, frames: seq<Frame>, media: Media,
                         cancel: Option<nat>) returns (r: Step<RunResult>)
      modifies this`shouldCancel, this`checks, this`status, disk
      ensures var (out, st) := FromReport(old(Snapshot()), outputDir, metadata, analysis, frames,
                                          media, cancel);
        && r == out && disk.files == st.files && disk.dirs == st.dirs && status == st.status
        && shouldCancel == st.shouldCancel && checks == st.checks
    {
      Announce(GeneratingReport);
      ghost var entry := Snapshot();
      assert entry == Pipeline.Announce(old(Snapshot()), GeneratingReport);
      var rp := SaveReport(metadata, analysis, media, cancel);
      if !rp.Done? {
        return Propagate(rp);
      }
      r := Done(RunResult(metadata, analysis, outputDir, PathsOf(frames)));
    }
  }
}
