/** The controller of the main window (`VideoProcessorGUI` in main.py) without its widgets: the
    busy flag, the processor handle, the enabled state of the two buttons, the progress bar, the
    progress line, the results pane and the dialogs shown, and the message queue through which
    the worker thread reports to the UI thread. */
module Gui {
  import opened Text
  import opened Frames
  import opened Pipeline
  import opened VideoProcessing

  // ---------------------------------------------------------------- messages and what they show

  /** What the worker reports as the error of a run: `ProcessCancelled` or any other exception. */
  datatype Fault = CancelFault | Failure(error: Error)

  /** A message dictionary in the queue, by its "type". `Progress(None)` and `ErrorMsg(None)`
      lack the key their handler reads, so the lookup raises before anything changes; so does
      `ResultKeyMissing`, a "result" message without "results". `ResultMsg(None)` carries a
      results value that cannot be indexed (such as None): `display_results` appends its
      heading, then raises. */
  datatype Message =
    | Progress(message: Option<string>)
    | ResultMsg(results: Option<RunResult>)
    | ResultKeyMissing
    | ErrorMsg(fault: Option<Fault>)
    | OtherType(kind: string)

  /** A line appended to the results pane; the summary lines carry the numbers they format. */
  datatype ResultLine =
    | Line(text: string)
    | DurationLine(seconds: real)
    | FramesLine(count: nat)
    | AverageSizeLine(mb: real)
    | OutputDirLine(dir: string)

  /** The message boxes the controller shows. */
  datatype Dialog =
    | SelectFileFirst          // "Error": "Please select a video file first!"
    | Success                  // "Success": "Video processing completed successfully!"
    | CancelledInfo            // "Cancelled": "Video processing was cancelled"
    | ProcessingError(error: Error)  // "Error": "Error processing video: " + the error

  const Ready := "Ready"
  const Starting := "Starting processing..."
  const Cancelling := "Cancelling..."
  const ErrorOccurred := "Error occurred!"
  const CancelledByUser := "Processing cancelled by user"
  /** The delay, in milliseconds, before the next `check_queue`. */
  const CheckInterval := 100

  /** Everything a message handler can change. */
  datatype View = View(
    isProcessing: bool,
    processor: VideoProcessor?,
    processEnabled: bool,
    stopEnabled: bool,
    barVisible: bool,
    barRunning: bool,
    progressText: string,
    results: seq<ResultLine>,
    dialogs: seq<Dialog>)

  /** The widgets agree with the busy flag: the process button is enabled and the progress bar
      hidden and stopped exactly when idle, and the stop button is enabled only while busy. */
  predicate Consistent(v: View)
  {
    && v.processEnabled == !v.isProcessing
    && v.barVisible == v.isProcessing
    && v.barRunning == v.isProcessing
    && (v.stopEnabled ==> v.isProcessing)
  }

  /** `process_complete`. */
  function Complete(v: View): (w: View)
    ensures Consistent(w) && !w.isProcessing && w.processor == null
  {
    v.(isProcessing := false, processEnabled := true, stopEnabled := false, barRunning := false,
       barVisible := false, processor := null)
  }

  /** The lines `display_results` appends. */
  function SummaryLines(r: RunResult): seq<ResultLine>
  {
    [Line("\nProcessing Summary:"), DurationLine(r.metadata.duration), FramesLine(r.analysis.totalFrames),
     AverageSizeLine(r.analysis.averageFileSize), OutputDirLine(r.outputDirectory)]
  }

  /** One pass of the body of the loop of `check_queue` on message `m`: the new view, and
      whether the handler raised (which ends the loop). */
  function Handle(v: View, m: Message): (r: (View, bool))
    ensures r.1 <==> !WellFormed(m)
    ensures Consistent(v) ==> Consistent(r.0)
    ensures Terminal(m) ==> !r.0.isProcessing && r.0.processor == null
    ensures !Terminal(m) ==> r.0.isProcessing == v.isProcessing && r.0.processor == v.processor
  {
    match m
    case Progress(None) => (v, true)
    case Progress(Some(text)) => (v.(progressText := text, results := v.results + [Line(text)]), false)
    case ResultMsg(None) => (v.(results := v.results + [Line("\nProcessing Summary:")]), true)
    case ResultMsg(Some(r)) => (Complete(v.(results := v.results + SummaryLines(r), dialogs := v.dialogs + [Success])), false)
    case ResultKeyMissing => (v, true)
    case ErrorMsg(None) => (v, true)
    case ErrorMsg(Some(CancelFault)) =>
      (Complete(v.(progressText := CancelledByUser, results := v.results + [Line("\nProcessing cancelled by user")],
                   dialogs := v.dialogs + [CancelledInfo])), false)
    case ErrorMsg(Some(Failure(e))) =>
      (Complete(v.(progressText := ErrorOccurred, dialogs := v.dialogs + [ProcessingError(e)])), false)
    case OtherType(_) => (v, false)
  }

  /** The loop of `check_queue`: messages are taken oldest first until the queue is empty or a
      handler raises; the result is the view and what is left in the queue. */
  function Drain(v: View, q: seq<Message>): (View, seq<Message>)
    decreases |q|
  {
    if q == [] then (v, [])
    else
      var (w, raised) := Handle(v, q[0]);
      if raised then (w, q[1..]) else Drain(w, q[1..])
  }

  /** A message no handler raises on. */
  predicate WellFormed(m: Message)
  {
    match m
    case Progress(t) => t.Some?
    case ResultMsg(r) => r.Some?
    case ResultKeyMissing => false
    case ErrorMsg(f) => f.Some?
    case OtherType(_) => true
  }

  /** A message that ends a run: "result", or "error" of either kind. */
  predicate Terminal(m: Message)
  {
    (m.ResultMsg? && m.results.Some?) || (m.ErrorMsg? && m.fault.Some?)
  }

  // ---------------------------------------------------------------- what the worker posts

  /** The messages `process_video_thread` posts for a run that printed `lines` and ended
      with `r`: one "progress" per line, then "result" or "error". */
  function Posted(lines: seq<StatusLine>, r: Step<RunResult>): seq<Message>
  {
    ProgressMessages(lines) + [TerminalFor(r)]
  }

  function ProgressMessages(lines: seq<StatusLine>): seq<Message>
  {
    seq(|lines|, i requires 0 <= i < |lines| => Progress(Some(StatusText(lines[i]))))
  }

  /** The lines the progress messages of `lines` append to the results pane. */
  function ProgressLines(lines: seq<StatusLine>): seq<ResultLine>
  {
    seq(|lines|, i requires 0 <= i < |lines| => Line(StatusText(lines[i])))
  }

  /** The progress line after the progress messages of `lines`: the last of them. */
  function LastProgress(v: View, lines: seq<StatusLine>): string
  {
    if lines == [] then v.progressText else StatusText(lines[|lines| - 1])
  }

  function TerminalFor(r: Step<RunResult>): Message
  {
    match r
    case Done(res) => ResultMsg(Some(res))
    case Cancelled => ErrorMsg(Some(CancelFault))
    case Failed(e) => ErrorMsg(Some(Failure(e)))
  }

  /** The view after the messages of a whole run are handled. */
  function Finished(v: View, lines: seq<StatusLine>, r: Step<RunResult>): View
  {
    var w := v.(progressText := LastProgress(v, lines), results := v.results + ProgressLines(lines));
    match r
    case Done(res) => Complete(w.(results := w.results + SummaryLines(res), dialogs := w.dialogs + [Success]))
    case Cancelled =>
      Complete(w.(progressText := CancelledByUser, results := w.results + [Line("\nProcessing cancelled by user")],
                  dialogs := w.dialogs + [CancelledInfo]))
    case Failed(e) => Complete(w.(progressText := ErrorOccurred, dialogs := w.dialogs + [ProcessingError(e)]))
  }

  // ---------------------------------------------------------------- properties of the drain

  lemma {:induction false} DrainConsistent(v: View, q: seq<Message>)
    requires Consistent(v)
    ensures Consistent(Drain(v, q).0)
    decreases |q|
  {
    if q != [] {
            DrainConsistent(Handle(v, q[0]).0, q[1..]);
    }
  }

  /** The position of the first malformed message (|q| when there is none). */
  function FirstMalformed(q: seq<Message>): (k: nat)
    ensures k <= |q|
    ensures forall j :: 0 <= j < k ==> WellFormed(q[j])
    ensures k < |q| ==> !WellFormed(q[k])
  {
    if q == [] then 0
    else if !WellFormed(q[0]) then 0
    else 1 + FirstMalformed(q[1..])
  }

  /** The drain takes every message up to and including the first malformed one, and no
      more: the queue is left empty when all are well formed. */
  lemma {:induction false} DrainLeaves(v: View, q: seq<Message>)
    ensures var k := FirstMalformed(q);
      Drain(v, q).1 == if k < |q| then q[k + 1..] else []
    decreases |q|
  {
    if q != [] {
      if WellFormed(q[0]) {
        DrainLeaves(Handle(v, q[0]).0, q[1..]);
        var k := FirstMalformed(q[1..]);
        if k < |q| - 1 {
          assert q[1..][k + 1..] == q[k + 2..];
        }
      }
    }
  }

  /** The drain handles messages oldest first: draining a queue is handling its first
      message and then draining the rest, unless that first handler raises. */
  lemma {:induction false} DrainAppend(v: View, q1: seq<Message>, q2: seq<Message>)
    requires forall j :: 0 <= j < |q1| ==> WellFormed(q1[j])
    ensures Drain(v, q1 + q2) == Drain(Drain(v, q1).0, q2)
    decreases |q1|
  {
    if q1 != [] {
      assert (q1 + q2)[0] == q1[0] && (q1 + q2)[1..] == q1[1..] + q2;
      assert WellFormed(q1[0]);
      DrainAppend(Handle(v, q1[0]).0, q1[1..], q2);
    } else {
      assert q1 + q2 == q2;
    }
  }

  /** Handling the progress messages of `lines` shows the last line and appends them all. */
  lemma {:induction false} DrainProgress(v: View, lines: seq<StatusLine>)
    ensures Drain(v, ProgressMessages(lines)).0
      == v.(progressText := LastProgress(v, lines), results := v.results + ProgressLines(lines))
    decreases |lines|
  {
    if lines != [] {
      var init, last := lines[..|lines| - 1], lines[|lines| - 1];
      var m := Progress(Some(StatusText(last)));
      ProgressSnoc(lines);
      DrainAppend(v, ProgressMessages(init), [m]);
      DrainProgress(v, init);
      var u := Drain(v, ProgressMessages(init)).0;
      assert Drain(u, [m]).0 == Handle(u, m).0;
      assert v.results + ProgressLines(init) + [Line(StatusText(last))] == v.results + ProgressLines(lines);
    }
  }

  lemma ProgressSnoc(lines: seq<StatusLine>)
    requires lines != []
    ensures var init, last := lines[..|lines| - 1], lines[|lines| - 1];
      && ProgressMessages(lines) == ProgressMessages(init) + [Progress(Some(StatusText(last)))]
      && ProgressLines(lines) == ProgressLines(init) + [Line(StatusText(last))]
      && (forall j :: 0 <= j < |init| ==> WellFormed(ProgressMessages(init)[j]))
  {
  }

  /** Whatever a run printed and however it ended, the messages its worker posts are all
      handled in one drain, which leaves the window idle and consistent, with the run's lines
      in the results pane and the dialog that matches its end. */
  lemma DrainPosted(v: View, lines: seq<StatusLine>, r: Step<RunResult>)
    ensures Drain(v, Posted(lines, r)) == (Finished(v, lines, r), [])
    ensures Consistent(Finished(v, lines, r)) && !Finished(v, lines, r).isProcessing
    ensures Finished(v, lines, r).dialogs
         == v.dialogs + [match r case Done(_) => Success case Cancelled => CancelledInfo
                                 case Failed(e) => ProcessingError(e)]
  {
    var progress := ProgressMessages(lines);
    DrainAppend(v, progress, [TerminalFor(r)]);
    DrainProgress(v, lines);
  }

  // ---------------------------------------------------------------- the controller

  class VideoProcessorGui {
    var videoPath: string
    var interval: int
    var outputFormat: string
    var quality: int
    var isProcessing: bool
    var processor: VideoProcessor?
    var processEnabled: bool
    var stopEnabled: bool
    var barVisible: bool
    var barRunning: bool
    var progressText: string
    var results: seq<ResultLine>
    var dialogs: seq<Dialog>
    /** `message_queue`, oldest message first. */
    var queue: seq<Message>
    /** The delays of the `root.after` callbacks requested so far. */
    var timers: seq<nat>
    /** The worker threads started so far. */
    var workers: nat

    function Current(): View
      reads this
    {
      View(isProcessing, processor, processEnabled, stopEnabled, barVisible, barRunning, progressText,
           results, dialogs)
    }

    predicate Valid()
      reads this
    {
      Consistent(Current())
    }

    /** `__init__`: the defaults of the variables, the initial widget states, then the first
        `check_queue`. */
    constructor ()
      ensures Valid()
      ensures videoPath == "" && interval == 30 && outputFormat == "png" && quality == 95
      ensures progressText == Ready && !isProcessing && processor == null
      ensures processEnabled && !stopEnabled && !barVisible
      ensures results == [] && dialogs == [] && queue == [] && timers == [CheckInterval] && workers == 0
    {
      videoPath := "";
      interval := 30;
      outputFormat := "png";
      quality := 95;
      progressText := Ready;
      isProcessing := false;
      processor := null;
      processEnabled := true;
      stopEnabled := false;
      barVisible := false;
      barRunning := false;
      results := [];
      dialogs := [];
      queue := [];
      timers := [];
      workers := 0;
      new;
      CheckQueue();
    }

    /** `browse_file` once the dialog has returned `filename` ("" when cancelled). */
    method BrowseFile(filename: string)
      modifies this`videoPath
      ensures videoPath == if filename != "" then filename else old(videoPath)
    {
      if filename != "" {
        videoPath := filename;
      }
    }

    /** `check_queue`: drain the queue, then schedule the next check. */
    method CheckQueue()
      requires Valid()
      modifies this`isProcessing, this`processor, this`processEnabled, this`stopEnabled,
               this`barVisible, this`barRunning, this`progressText, this`results, this`dialogs,
               this`queue, this`timers
      ensures Valid()
      ensures (Current(), queue) == Drain(old(Current()), old(queue))
      ensures timers == old(timers) + [CheckInterval]
    {
      while queue != []
        invariant Valid()
        invariant Drain(Current(), queue) == Drain(old(Current()), old(queue))
        invariant timers == old(timers)
        decreases |queue|
      {
        var msg := queue[0];
        queue := queue[1..];
        var raised := HandleMessage(msg);
        if raised {
          break;
        }
      }
      timers := timers + [CheckInterval];
    }

    /** The body of the `try` in `check_queue` for one message. */
    method HandleMessage(msg: Message) returns (raised: bool)
      requires Valid()
      modifies this`isProcessing, this`processor, this`processEnabled, this`stopEnabled,
               this`barVisible, this`barRunning, this`progressText, this`results, this`dialogs
      ensures Valid()
      ensures (Current(), raised) == Handle(old(Current()), msg)
    {
      raised := false;
      match msg
      case Progress(text) =>
        if text.None? {
          return true;
        }
        progressText := text.value;
        AppendResult(Line(text.value));
      case ResultMsg(res) =>
        raised := DisplayResults(res);
        if raised {
          return;
        }
        ProcessComplete();
      case ResultKeyMissing =>
        raised := true;
      case ErrorMsg(fault) =>
        if fault.None? {
          return true;
        }
        if fault.value.CancelFault? {
          HandleCancellation();
        } else {
          HandleError(fault.value.error);
        }
        ProcessComplete();
      case OtherType(_) =>
    }

    /** `display_results`: the summary lines, then the success dialog; with no results it
        raises right after the heading. */
    method DisplayResults(res: Option<RunResult>) returns (raised: bool)
      modifies this`results, this`dialogs
      ensures raised <==> res.None?
      ensures res.None? ==> results == old(results) + [Line("\nProcessing Summary:")] && dialogs == old(dialogs)
      ensures res.Some? ==> results == old(results) + SummaryLines(res.value) && dialogs == old(dialogs) + [Success]
    {
      AppendResult(Line("\nProcessing Summary:"));
      if res.None? {
        return true;
      }
      var r := res.value;
      AppendResult(DurationLine(r.metadata.duration));
      AppendResult(FramesLine(r.analysis.totalFrames));
      AppendResult(AverageSizeLine(r.analysis.averageFileSize));
      AppendResult(OutputDirLine(r.outputDirectory));
      dialogs := dialogs + [Success];
      raised := false;
    }

    method AppendResult(line: ResultLine)
      modifies this`results
      ensures results == old(results) + [line]
    {
      results := results + [line];
    }

    /** `handle_error`. */
    method HandleError(error: Error)
      modifies this`progressText, this`dialogs
      ensures progressText == ErrorOccurred && dialogs == old(dialogs) + [ProcessingError(error)]
    {
      progressText := ErrorOccurred;
      dialogs := dialogs + [ProcessingError(error)];
    }

    /** `handle_cancellation`. */
    method HandleCancellation()
      modifies this`progressText, this`results, this`dialogs
      ensures progressText == CancelledByUser
      ensures results == old(results) + [Line("\nProcessing cancelled by user")]
      ensures dialogs == old(dialogs) + [CancelledInfo]
    {
      progressText := CancelledByUser;
      AppendResult(Line("\nProcessing cancelled by user"));
      dialogs := dialogs + [CancelledInfo];
    }

    /** `process_complete`. */
    method ProcessComplete()
      modifies this`isProcessing, this`processor, this`processEnabled, this`stopEnabled,
               this`barVisible, this`barRunning
      ensures Current() == Complete(old(Current()))
    {
      isProcessing := false;
      processEnabled := true;
      stopEnabled := false;
      barRunning := false;
      barVisible := false;
      processor := null;
    }

    /** `stop_processing`: only with a processor while busy, request the cancellation. */
    method StopProcessing()
      requires Valid()
      modifies this`stopEnabled, this`progressText, this`results, processor
      ensures Valid()
      ensures old(processor != null && isProcessing) ==>
        && processor.shouldCancel && !stopEnabled && progressText == Cancelling
        && results == old(results) + [Line("\nCancelling processing...")]
      ensures !old(processor != null && isProcessing) ==>
        && stopEnabled == old(stopEnabled) && progressText == old(progressText) && results == old(results)
        && (processor != null ==> processor.shouldCancel == old(processor.shouldCancel))
      ensures processor != null ==>
        processor.status == old(processor.status) && processor.checks == old(processor.checks)
    {
      if processor != null && isProcessing {
        processor.CancelProcessing();
        stopEnabled := false;
        progressText := Cancelling;
        AppendResult(Line("\nCancelling processing..."));
      }
    }

    /** `start_processing`: refused without a video path (with an error dialog) and while
        busy; otherwise the window turns busy and one worker thread is started. */
    method StartProcessing()
      requires Valid()
      modifies this`isProcessing, this`processEnabled, this`stopEnabled, this`barVisible,
               this`barRunning, this`progressText, this`results, this`dialogs, this`workers
      ensures Valid()
      ensures videoPath == "" ==>
        Current() == old(Current()).(dialogs := old(dialogs) + [SelectFileFirst]) && workers == old(workers)
      ensures videoPath != "" && old(isProcessing) ==> Current() == old(Current()) && workers == old(workers)
      ensures videoPath != "" && !old(isProcessing) ==>
        && isProcessing && !processEnabled && stopEnabled && barVisible && barRunning
        && progressText == Starting && results == [] && dialogs == old(dialogs)
        && workers == old(workers) + 1
    {
      if videoPath == "" {
        dialogs := dialogs + [SelectFileFirst];
        return;
      }
      if isProcessing {
        return;
      }
      isProcessing := true;
      processEnabled := false;
      stopEnabled := true;
      results := [];
      progressText := Starting;
      barVisible := true;
      barRunning := true;
      workers := workers + 1;
    }

    /** `process_video_thread`, the body of one worker: a fresh processor for the selected
        video, whose `print_status` posts "progress" messages, runs `process_video` with the
        chosen settings; the outcome is posted as "result" or "error". The run itself is the
        one of module Pipeline, from a fresh flag and no status lines. */
    method ProcessVideoThread(disk: Disk, media: Media, cancel: Option<nat>)
      modifies this`processor, this`queue, disk
      ensures processor != null && fresh(processor)
      ensures var (r, st) := Run(State(old(disk.files), old(disk.dirs), [], false, 0), videoPath, media,
                                 interval, outputFormat, quality, cancel);
        && queue == old(queue) + Posted(st.status, r)
        && disk.files == st.files && disk.dirs == st.dirs
    {
      var p := new VideoProcessor(videoPath, disk);
      processor := p;
      var r := p.ProcessVideo(media, interval, outputFormat, quality, cancel);
      queue := queue + Posted(p.status, r);
    }
  }
}
