/** The pure parts of the frame extractor (video_processor.py): the HH-MM-SS timestamp text,
    the sampling schedule, the frame file names, the choice of image encoder and the
    statistics computed over the extracted frames. */
module Frames {
  import opened Text

  // ---------------------------------------------------------------- timestamps

  /** Hours, minutes and seconds of `seconds` with Python's floor division and modulo. */
  function Hms(seconds: int): (r: (int, int, int))
    ensures r.0 * 3600 + r.1 * 60 + r.2 == seconds
    ensures 0 <= r.1 < 60 && 0 <= r.2 < 60
    ensures seconds >= 0 ==> r.0 >= 0
  {
    (seconds / 3600, (seconds % 3600) / 60, seconds % 60)
  }

  /** `format_timestamp`: "HH-MM-SS", each field padded to two digits; hours may be wider. */
  function FormatTimestamp(seconds: int): string
  {
    var (h, m, s) := Hms(seconds);
    TimestampText(h, m, s)
  }

  function TimestampText(h: int, m: int, s: int): string
  {
    FormatInt(h, 2) + "-" + FormatInt(m, 2) + "-" + FormatInt(s, 2)
  }

  /** Reads "H..H-MM-SS" back, the inverse of FormatTimestamp on non-negative input. */
  function ParseTimestamp(s: string): Option<nat>
  {
    if |s| < 7 then None
    else
      var n := |s|;
      var hh, mm, ss := s[..n - 6], s[n - 5..n - 3], s[n - 2..];
      if s[n - 6] == '-' && s[n - 3] == '-' && AllDigits(hh) && AllDigits(mm) && AllDigits(ss)
      then Some(DigitsValue(hh) * 3600 + DigitsValue(mm) * 60 + DigitsValue(ss))
      else None
  }

  lemma TextRoundTrip(h: nat, m: nat, s: nat)
    requires m < 60 && s < 60
    ensures ParseTimestamp(TimestampText(h, m, s)) == Some(h * 3600 + m * 60 + s)
    ensures |TimestampText(h, m, s)| >= 8
  {
    var H, M, S := FormatInt(h, 2), FormatInt(m, 2), FormatInt(s, 2);
    PaddedRoundTrip(h, 2);
    PaddedRoundTrip(m, 2);
    PaddedRoundTrip(s, 2);
    TwoDigitPad(m);
    TwoDigitPad(s);
    var t := H + "-" + M + "-" + S;
    var n := |t|;
    assert t[..n - 6] == H;
    assert t[n - 5..n - 3] == M;
    assert t[n - 2..] == S;
    assert t[n - 6] == '-' && t[n - 3] == '-';
  }

  lemma TimestampRoundTrip(seconds: nat)
    ensures ParseTimestamp(FormatTimestamp(seconds)) == Some(seconds)
    ensures |FormatTimestamp(seconds)| >= 8
  {
    var r := Hms(seconds);
    assert FormatTimestamp(seconds) == TimestampText(r.0, r.1, r.2);
    TextRoundTrip(r.0, r.1, r.2);
  }

  /** Every character of a formatted number is a digit or the minus sign. */
  lemma FormatIntChars(n: int, width: nat)
    ensures forall i :: 0 <= i < |FormatInt(n, width)| ==>
              IsDigit(FormatInt(n, width)[i]) || FormatInt(n, width)[i] == '-'
  {
    var a := if n >= 0 then n else -n;
    var w := if n >= 0 || width == 0 then width else width - 1;
    var p := ZeroPad(NatToDigits(a), w);
    RepeatChars('0', |p| - |NatToDigits(a)|);
    forall i | 0 <= i < |p| ensures IsDigit(p[i]) {
      if i >= |p| - |NatToDigits(a)| {
        assert p[i] == NatToDigits(a)[i - (|p| - |NatToDigits(a)|)];
      }
    }
  }

  lemma TimestampChars(seconds: int)
    ensures '_' !in FormatTimestamp(seconds) && '.' !in FormatTimestamp(seconds)
  {
    var (h, m, s) := Hms(seconds);
    FormatIntChars(h, 2);
    FormatIntChars(m, 2);
    FormatIntChars(s, 2);
    var t := TimestampText(h, m, s);
    assert forall i :: 0 <= i < |t| ==> IsDigit(t[i]) || t[i] == '-';
  }

  // ---------------------------------------------------------------- schedule

  /** `int(x)` on a float: truncation toward zero. */
  function Trunc(x: real): int
  {
    if x >= 0.0 then x.Floor else -((-x).Floor)
  }

  function RangeUp(x: int, stop: int, step: int): seq<int>
    requires step > 0
    decreases stop - x
  {
    if x >= stop then [] else [x] + RangeUp(x + step, stop, step)
  }

  function RangeDown(x: int, stop: int, step: int): seq<int>
    requires step < 0
    decreases x - stop
  {
    if x <= stop then [] else [x] + RangeDown(x + step, stop, step)
  }

  /** `range(start, stop, step)`; a zero step is Python's ValueError. */
  function Range(start: int, stop: int, step: int): Option<seq<int>>
  {
    if step == 0 then None
    else if step > 0 then Some(RangeUp(start, stop, step))
    else Some(RangeDown(start, stop, step))
  }

  /** The sample times of `extract_frames`: `range(0, int(duration), interval)`. */
  function Schedule(duration: real, interval: int): Option<seq<int>>
  {
    Range(0, Trunc(duration), interval)
  }

  lemma StepMul(i: int, step: int)
    ensures (i - 1) * step + step == i * step
  {
  }

  /** The i-th element of an ascending range is its start plus i steps. */
  lemma {:induction false} RangeUpElems(x: int, stop: int, step: int)
    requires step > 0
    ensures forall i :: 0 <= i < |RangeUp(x, stop, step)| ==> RangeUp(x, stop, step)[i] == x + i * step
    decreases stop - x
  {
    if x < stop {
      var r := RangeUp(x, stop, step);
      var rest := RangeUp(x + step, stop, step);
      RangeUpElems(x + step, stop, step);
      assert r == [x] + rest;
      forall i | 0 < i < |r| ensures r[i] == x + i * step {
        assert r[i] == rest[i - 1];
        StepMul(i, step);
      }
    }
  }

  /** An ascending range stops at the first element that reaches `stop`. */
  lemma {:induction false} RangeUpLength(x: int, stop: int, step: int)
    requires step > 0
    ensures x >= stop ==> RangeUp(x, stop, step) == []
    ensures x < stop ==> var n := |RangeUp(x, stop, step)|; x + (n - 1) * step < stop <= x + n * step
    decreases stop - x
  {
    if x < stop {
      RangeUpLength(x + step, stop, step);
      var n := |RangeUp(x + step, stop, step)|;
      assert |RangeUp(x, stop, step)| == n + 1;
      StepMul(n + 1, step);
      if x + step < stop {
        StepMul(n, step);
      }
    }
  }

  lemma RangeUpShape(x: int, stop: int, step: int)
    requires step > 0
    ensures var r := RangeUp(x, stop, step);
      && (forall i :: 0 <= i < |r| ==> r[i] == x + i * step)
      && (forall i, j :: 0 <= i < j < |r| ==> r[i] < r[j])
      && (x >= stop ==> r == [])
      && (x < stop ==> x + (|r| - 1) * step < stop <= x + |r| * step)
  {
    var r := RangeUp(x, stop, step);
    RangeUpElems(x, stop, step);
    RangeUpLength(x, stop, step);
    forall i, j | 0 <= i < j < |r| ensures r[i] < r[j] {
      MultipleBelow(i, j, step);
    }
  }

  /** For a positive interval the schedule is exactly the multiples of the interval in
      [0, int(duration)), ascending, and there are ceil(int(duration) / interval) of them. */
  lemma ScheduleSpec(duration: real, interval: int)
    requires interval > 0
    ensures Schedule(duration, interval).Some?
    ensures var ts := Schedule(duration, interval).value; var d := Trunc(duration);
      && (forall i :: 0 <= i < |ts| ==> ts[i] == i * interval)
      && (forall i, j :: 0 <= i < j < |ts| ==> ts[i] < ts[j])
      && (forall t :: t in ts <==> 0 <= t < d && t % interval == 0)
      && (d <= 0 ==> ts == [])
      && (d > 0 ==> (|ts| - 1) * interval < d <= |ts| * interval)
  {
    var d := Trunc(duration);
    var ts := RangeUp(0, d, interval);
    RangeUpShape(0, d, interval);
    forall t | 0 <= t < d && t % interval == 0 ensures t in ts {
      var i := t / interval;
      assert t == i * interval;
      MultipleBelow(i, |ts|, interval);
      assert ts[i] == t;
    }
    forall t | t in ts ensures 0 <= t < d && t % interval == 0 {
      var i :| 0 <= i < |ts| && ts[i] == t;
      assert t == i * interval;
      MultipleBelow(i, |ts|, interval);
      ModOfMultiple(i, interval);
    }
  }

  lemma MultipleBelow(i: int, n: int, step: int)
    requires step > 0 && i >= 0 && n >= 0
    ensures i < n <==> i * step < n * step
    ensures i * step >= 0
  {
    if i < n {
      assert n * step == i * step + (n - i) * step;
    } else {
      assert i * step == n * step + (i - n) * step;
    }
  }

  lemma ModOfMultiple(i: int, step: int)
    requires step > 0
    ensures (i * step) % step == 0
  {
    DivModUnique(i * step, step, i, 0);
  }

  /** Euclidean quotient and remainder are unique. */
  lemma DivModUnique(a: int, b: int, q: int, r: int)
    requires b > 0 && a == q * b + r && 0 <= r < b
    ensures a / b == q && a % b == r
  {
    var q', r' := a / b, a % b;
    assert a == q' * b + r';
    if q' > q {
      assert (q' - q) * b == r - r';
      assert (q' - q) * b == (q' - q - 1) * b + b;
      MultipleBelow(q' - q - 1, 0, b);
    } else if q' < q {
      assert (q - q') * b == r' - r;
      assert (q - q') * b == (q - q' - 1) * b + b;
      MultipleBelow(q - q' - 1, 0, b);
    }
  }

  // ---------------------------------------------------------------- naming and encoding

  /** The image encoder `extract_frames` hands each frame to. */
  datatype Encoder = Jpeg(quality: int) | Png

  /** "jpg" in any letter case selects JPEG with the given quality; every other format PNG. */
  function EncoderFor(format: string, quality: int): Encoder
  {
    if Lower(format) == "jpg" then Jpeg(quality) else Png
  }

  lemma EncoderChoice(format: string, quality: int)
    ensures EncoderFor(format, quality).Jpeg? <==>
      |format| == 3 && format[0] in "jJ" && format[1] in "pP" && format[2] in "gG"
    ensures EncoderFor(format, quality).Jpeg? ==> EncoderFor(format, quality).quality == quality
  {
    if |format| == 3 && format[0] in "jJ" && format[1] in "pP" && format[2] in "gG" {
      assert Lower(format) == "jpg";
    }
  }

  /** "frame_<HH-MM-SS>_<index, 4 digits>.<format>", the format kept exactly as given. */
  function FrameName(t: int, index: nat, format: string): string
  {
    "frame_" + (FormatTimestamp(t) + "_" + FormatInt(index, 4)) + "." + format
  }

  /** The "<HH-MM-SS>_<NNNN>" middle of a frame file name written in `format`. */
  function FrameStem(name: string, format: string): Option<string>
  {
    if |name| < 7 + |format| then None
    else
      var cut := |name| - |format| - 1;
      if name[..6] == "frame_" && name[cut] == '.' && name[cut + 1..] == format
      then Some(name[6..cut]) else None
  }

  /** The frame index a frame file name carries. */
  function FrameIndex(name: string, format: string): Option<nat>
  {
    match FrameStem(name, format)
    case None => None
    case Some(stem) =>
      match LastIndexOf(stem, '_')
      case None => None
      case Some(k) => if AllDigits(stem[k + 1..]) then Some(DigitsValue(stem[k + 1..])) else None
  }

  /** The sample time and the frame index a frame file name carries. */
  function ParseFrameName(name: string, format: string): Option<(nat, nat)>
  {
    match FrameStem(name, format)
    case None => None
    case Some(stem) =>
      match LastIndexOf(stem, '_')
      case None => None
      case Some(k) =>
        match ParseTimestamp(stem[..k])
        case None => None
        case Some(t) =>
          if AllDigits(stem[k + 1..]) then Some((t, DigitsValue(stem[k + 1..]))) else None
  }

  lemma StemOf(prefix: string, stem: string, format: string)
    requires prefix == "frame_"
    ensures FrameStem(prefix + stem + "." + format, format) == Some(stem)
  {
    var name := prefix + stem + "." + format;
    var cut := |name| - |format| - 1;
    assert cut == 6 + |stem|;
    assert name[6..cut] == stem;
    assert name[..6] == prefix;
    assert name[cut] == '.';
    assert name[cut + 1..] == format;
  }

  lemma LastSeparator(ts: string, ix: string)
    requires '_' !in ix
    ensures LastIndexOf(ts + "_" + ix, '_') == Some(|ts|)
  {
    var stem := ts + "_" + ix;
    assert stem[|ts|] == '_';
    assert stem[|ts| + 1..] == ix;
  }

  /** How a frame name built from any time text `ts` and any digit string `ix` reads back. */
  lemma ParseBuiltName(ts: string, ix: string, format: string)
    requires '_' !in ix && AllDigits(ix)
    ensures FrameIndex("frame_" + (ts + "_" + ix) + "." + format, format) == Some(DigitsValue(ix))
    ensures ParseFrameName("frame_" + (ts + "_" + ix) + "." + format, format)
      == match ParseTimestamp(ts) case None => None case Some(t) => Some((t, DigitsValue(ix)))
  {
    var stem := ts + "_" + ix;
    StemOf("frame_", stem, format);
    LastSeparator(ts, ix);
    assert stem[|ts| + 1..] == ix;
    assert stem[..|ts|] == ts;
  }

  /** The index can be read back from every frame name, whatever the time. */
  lemma FrameNameIndex(t: int, index: nat, format: string)
    ensures FrameIndex(FrameName(t, index, format), format) == Some(index)
  {
    PaddedRoundTrip(index, 4);
    ParseBuiltName(FormatTimestamp(t), FormatInt(index, 4), format);
  }

  /** Frame names of one run (one format) differ whenever their indices differ. */
  lemma FrameNamesDistinct(t1: int, i1: nat, t2: int, i2: nat, format: string)
    requires i1 != i2
    ensures FrameName(t1, i1, format) != FrameName(t2, i2, format)
  {
    FrameNameIndex(t1, i1, format);
    FrameNameIndex(t2, i2, format);
  }

  /** A frame name is a plain file name: it starts with the letter of "frame_". */
  lemma FrameNameStart(t: int, index: nat, format: string)
    ensures |FrameName(t, index, format)| > 0 && FrameName(t, index, format)[0] == 'f'
  {
  }

  /** For a non-negative sample time both the time and the index are recoverable. */
  lemma FrameNameRoundTrip(t: nat, index: nat, format: string)
    ensures ParseFrameName(FrameName(t, index, format), format) == Some((t, index))
  {
    PaddedRoundTrip(index, 4);
    TimestampRoundTrip(t);
    ParseBuiltName(FormatTimestamp(t), FormatInt(index, 4), format);
  }

  // ---------------------------------------------------------------- analysis

  /** The "frame_analysis" record of the report. */
  datatype Analysis = Analysis(totalFrames: nat, frameSizes: seq<real>, averageFileSize: real,
                               timestamps: seq<int>)

  /** `os.path.getsize(p) / (1024 * 1024)`, as an exact real. */
  function SizeInMB(bytes: nat): real { bytes as real / 1048576.0 }

  function Sum(xs: seq<real>): real
  {
    if xs == [] then 0.0 else Sum(xs[..|xs| - 1]) + xs[|xs| - 1]
  }

  lemma SumSnoc(xs: seq<real>, x: real)
    ensures Sum(xs + [x]) == Sum(xs) + x
  {
    assert (xs + [x])[..|xs|] == xs;
  }

  /** `total_size / len(frame_info)`: a mean over n > 0 values. */
  function Mean(total: real, n: nat): real
    requires n > 0
  {
    total / n as real
  }

  /** The mean of the sizes lies between the smallest and the largest of them. */
  lemma AverageBetween(sizes: seq<real>, lo: real, hi: real)
    requires sizes != []
    requires forall i :: 0 <= i < |sizes| ==> lo <= sizes[i] <= hi
    ensures lo <= Mean(Sum(sizes), |sizes|) <= hi
  {
    SumBounds(sizes, lo, hi);
    MeanBetween(Sum(sizes), |sizes| as real, lo, hi);
  }

  lemma MeanBetween(total: real, n: real, lo: real, hi: real)
    requires n > 0.0 && lo * n <= total <= hi * n
    ensures lo <= total / n <= hi
  {
    assert (total / n) * n == total;
  }

  lemma {:induction false} SumBounds(xs: seq<real>, lo: real, hi: real)
    requires forall i :: 0 <= i < |xs| ==> lo <= xs[i] <= hi
    ensures lo * |xs| as real <= Sum(xs) <= hi * |xs| as real
  {
    if xs != [] {
      SumBounds(xs[..|xs| - 1], lo, hi);
    }
  }
}
