/** The release script: normalising and validating the version argument, rewriting the version
    files and the configuration, and running the git steps until the first one fails. The git
    processes are modelled by their return codes; the script's own location is an input. */
module Release {
  import opened Text
  import opened Paths

  // ---------------------------------------------------------------------------------------------
  // The version argument

  /** `version.lstrip("v")`: every leading 'v' goes, not just one. */
  function LStripV(s: string): (r: string)
    ensures r == [] || r[0] != 'v'
    ensures |r| <= |s| && s == Repeat('v', |s| - |r|) + r
  {
    if s != [] && s[0] == 'v' then
      var r := LStripV(s[1..]);
      assert Repeat('v', |s| - |r|) == ['v'] + Repeat('v', |s[1..]| - |r|);
      r
    else s
  }

  /** The number of digits `s` starts with: how far `\d+` reaches. */
  function DigitRun(s: string): (n: nat)
    ensures n <= |s| && AllDigits(s[..n]) && (n < |s| ==> !IsDigit(s[n]))
  {
    if s != [] && IsDigit(s[0]) then 1 + DigitRun(s[1..]) else 0
  }

  /** `\d+\.` at the start of `s`: the length of the match, if there is one. Digits and dots are
      disjoint, so the greedy digit run is the only way the pattern can match. */
  function NumberDot(s: string): (n: Option<nat>)
    ensures n.Some? ==> 2 <= n.value <= |s| && AllDigits(s[..n.value - 1]) && s[n.value - 1] == '.'
  {
    var d := DigitRun(s);
    if 0 < d < |s| && s[d] == '.' then Some(d + 1) else None
  }

  /** `X.Y.Z` with non-empty digit runs and nothing else: the intended format. */
  predicate IsVersion(v: string)
  {
    match NumberDot(v)
    case None => false
    case Some(a) =>
      match NumberDot(v[a..])
      case None => false
      case Some(b) => LastNumber(v[a + b..])
  }

  /** The final `\d+` of the intended format: digits and nothing after them. */
  predicate LastNumber(tail: string)
  {
    tail != [] && DigitRun(tail) == |tail|
  }

  /** The final `\d+$` as Python evaluates it: digits, then at most one newline. */
  predicate LastNumberAsWritten(tail: string)
  {
    var c := DigitRun(tail);
    0 < c && (c == |tail| || (c + 1 == |tail| && tail[c] == '\n'))
  }

  /** `re.match(r"^\d+\.\d+\.\d+$", v)` as Python evaluates it: `$` also matches just before
      a final newline, so one trailing "\n" after the last number is accepted. */
  predicate MatchesAsWritten(v: string)
  {
    match NumberDot(v)
    case None => false
    case Some(a) =>
      match NumberDot(v[a..])
      case None => false
      case Some(b) => LastNumberAsWritten(v[a + b..])
  }

  lemma {:induction false} DigitRunAppend(s: string, t: string)
    ensures DigitRun(s) < |s| ==> DigitRun(s + t) == DigitRun(s)
    ensures DigitRun(s) == |s| && (t == [] || !IsDigit(t[0])) ==> DigitRun(s + t) == |s|
  {
    if s != [] {
      assert (s + t)[0] == s[0] && (s + t)[1..] == s[1..] + t;
      DigitRunAppend(s[1..], t);
    } else {
      assert s + t == t;
    }
  }

  /** Every version in the intended format passes the check as written. */
  lemma VersionMatches(v: string)
    requires IsVersion(v)
    ensures MatchesAsWritten(v)
  {
  }

  /** The check as written also lets a version followed by a newline through, which the version
      files and the tag would then carry. */
  lemma NewlineAccepted(v: string)
    requires IsVersion(v)
    ensures MatchesAsWritten(v + "\n") && !IsVersion(v + "\n")
  {
    NewlineMatches(v);
    NewlineNoVersion(v);
  }

  lemma NewlineMatches(v: string)
    requires IsVersion(v)
    ensures MatchesAsWritten(v + "\n")
  {
    var a := NumberDot(v).value;
    var b := NumberDot(v[a..]).value;
    VersionBySplit(v, a, b);
    SameSplit(v, "\n");
    VersionBySplit(v + "\n", a, b);
    NewlineAfterNumber(v[a + b..]);
  }

  lemma NewlineNoVersion(v: string)
    requires IsVersion(v)
    ensures !IsVersion(v + "\n")
  {
    var a := NumberDot(v).value;
    var b := NumberDot(v[a..]).value;
    VersionBySplit(v, a, b);
    SameSplit(v, "\n");
    VersionBySplit(v + "\n", a, b);
    NewlineAfterNumber(v[a + b..]);
  }

  /** The check as written accepts exactly the versions of the intended format and those
      followed by one newline. */
  lemma AsWrittenAccepts(v: string)
    ensures MatchesAsWritten(v) ==> IsVersion(v) || VersionAndNewline(v)
    ensures IsVersion(v) || VersionAndNewline(v) ==> MatchesAsWritten(v)
  {
    if MatchesAsWritten(v) {
      NewlineTrimmed(v);
    }
    if IsVersion(v) {
      VersionMatches(v);
    } else if VersionAndNewline(v) {
      TrimmedMatches(v);
    }
  }

  /** A version in the intended format followed by one newline. */
  predicate VersionAndNewline(v: string)
  {
    v != [] && v[|v| - 1] == '\n' && IsVersion(v[..|v| - 1])
  }

  lemma TrimmedMatches(v: string)
    requires VersionAndNewline(v)
    ensures MatchesAsWritten(v)
  {
    var u := v[..|v| - 1];
    assert v == u + [v[|v| - 1]];
    NewlineMatches(u);
  }

  /** What the check as written accepts beyond the intended format is a version and one
      newline. */
  lemma NewlineTrimmed(v: string)
    requires MatchesAsWritten(v)
    ensures IsVersion(v) || VersionAndNewline(v)
  {
    var a := NumberDot(v).value;
    var b := NumberDot(v[a..]).value;
    VersionBySplit(v, a, b);
    var tail := v[a + b..];
    var c := DigitRun(tail);
    if c < |tail| {
      var x, y, z := v[..a - 1], v[a..][..b - 1], tail[..c];
      assert v[..|v| - 1] == v[..a + b] + z;
      assert v[..a + b] == x + "." + y + ".";
      IsVersionOf(x, y, z);
    }
  }

  /** Once the first two numbers are known, both checks come down to what follows them. */
  lemma VersionBySplit(w: string, a: nat, b: nat)
    requires NumberDot(w) == Some(a) && a <= |w| && NumberDot(w[a..]) == Some(b)
    ensures a + b <= |w|
    ensures IsVersion(w) == LastNumber(w[a + b..])
    ensures MatchesAsWritten(w) == LastNumberAsWritten(w[a + b..])
  {
  }

  /** A final number followed by a newline passes `\d+$` but is no final number. */
  lemma NewlineAfterNumber(tail: string)
    requires LastNumber(tail)
    ensures LastNumberAsWritten(tail + "\n") && !LastNumber(tail + "\n")
  {
    DigitRunAppend(tail, "\n");
    assert (tail + "\n")[|tail|] == '\n';
  }

  /** Text after the first two numbers of a version leaves them as they are. */
  lemma SameSplit(v: string, t: string)
    requires NumberDot(v).Some? && NumberDot(v[NumberDot(v).value..]).Some?
    ensures var a := NumberDot(v).value; var b := NumberDot(v[a..]).value;
      NumberDot(v + t) == Some(a) && NumberDot((v + t)[a..]) == Some(b) && (v + t)[a + b..] == v[a + b..] + t
  {
    var a := NumberDot(v).value;
    var r := v[a..];
    NumberDotAppend(v, t);
    assert (v + t)[a..] == r + t;
    NumberDotAppend(r, t);
    assert (v + t)[a..][NumberDot(r).value..] == (v + t)[a + NumberDot(r).value..];
  }

  /** Text after a match of `\d+\.` does not change the match. */
  lemma NumberDotAppend(s: string, t: string)
    requires NumberDot(s).Some?
    ensures NumberDot(s + t) == NumberDot(s)
  {
    DigitRunAppend(s, t);
    assert (s + t)[DigitRun(s)] == s[DigitRun(s)];
  }

  /** The three numbers of a version. */
  function VersionFields(v: string): (f: (string, string, string))
    requires IsVersion(v)
    ensures v == f.0 + "." + f.1 + "." + f.2
    ensures f.0 != [] && f.1 != [] && f.2 != [] && AllDigits(f.0) && AllDigits(f.1) && AllDigits(f.2)
  {
    var a := NumberDot(v).value;
    var b := NumberDot(v[a..]).value;
    var f := (v[..a - 1], v[a..][..b - 1], v[a + b..]);
    assert v[a + b..][..|v[a + b..]|] == v[a + b..];
    assert v == v[..a - 1] + "." + v[a..][..b - 1] + "." + v[a + b..];
    f
  }

  /** Any three non-empty digit strings joined by dots form a version. */
  lemma IsVersionOf(x: string, y: string, z: string)
    requires x != [] && y != [] && z != [] && AllDigits(x) && AllDigits(y) && AllDigits(z)
    ensures IsVersion(x + "." + y + "." + z)
  {
    var rest := y + ("." + z);
    var v := x + ("." + rest);
    assert x + "." + y + "." + z == v;
    IsVersionSteps(v, x, rest, y, z);
  }

  lemma IsVersionSteps(v: string, x: string, rest: string, y: string, z: string)
    requires x != [] && y != [] && z != [] && AllDigits(x) && AllDigits(y) && AllDigits(z)
    requires v == x + ("." + rest) && rest == y + ("." + z)
    ensures IsVersion(v)
  {
    DigitsThenDot(x, rest);
    DigitsThenDot(y, z);
    assert v[|x| + 1..] == rest;
    assert v[|x| + 1 + |y| + 1..] == z;
    DigitRunAll(z);
  }

  lemma DigitsThenDot(x: string, rest: string)
    requires x != [] && AllDigits(x)
    ensures NumberDot(x + ("." + rest)) == Some(|x| + 1)
  {
    DigitRunAll(x);
    DigitRunAppend(x, "." + rest);
  }

  lemma {:induction false} DigitRunAll(x: string)
    requires AllDigits(x)
    ensures DigitRun(x) == |x|
  {
    if x != [] {
      DigitRunAll(x[1..]);
    }
  }

  // ---------------------------------------------------------------------------------------------
  // The files rewritten

  /** The text of a version file: one assignment, no final newline. */
  function VersionText(v: string): string
  {
    "VERSION = '" + v + "'"
  }

  /** The value a version file assigns, if it has the shape `VersionText` writes. */
  function ReadVersion(text: string): (v: Option<string>)
    ensures v.Some? ==> text == VersionText(v.value)
  {
    if |text| >= 12 && text[..11] == "VERSION = '" && text[|text| - 1] == '\'' then
      var v := text[11..|text| - 1];
      assert text == text[..11] + v + [text[|text| - 1]];
      Some(v)
    else None
  }

  /** A version file reads back as the version written into it. */
  lemma VersionTextRead(v: string)
    ensures ReadVersion(VersionText(v)) == Some(v)
  {
    var t := VersionText(v);
    assert t[..11] == "VERSION = '" && t[11..|t| - 1] == v;
  }

  /** The text `APP_VERSION = "` that opens the assignment the script rewrites. */
  const Key: string := "APP_VERSION = \""

  /** The length of a match of `APP_VERSION = "[^"]+"` at the start of `s`, if any. */
  function AssignmentAt(s: string): (n: Option<nat>)
    ensures n.Some? ==> |Key| + 2 <= n.value <= |s| && StartsWith(s, Key)
    ensures n.Some? ==> s[n.value - 1] == '"' && '"' !in s[|Key|..n.value - 1]
  {
    if StartsWith(s, Key) then
      match IndexOf(s[|Key|..], '"')
      case Some(k) => if k > 0 then Some(|Key| + k + 1) else None
      case None => None
    else None
  }

  /** `re.sub(r'APP_VERSION = "[^"]+"', f'APP_VERSION = "{v}"', content)`: every match, scanning
      left to right without overlaps, becomes the assignment of `v`. The replacement is taken
      literally, which is what `re.sub` does for a `v` without a backslash; the release flow only passes
      versions of digits and dots here. */
  function SetAppVersion(content: string, v: string): string
    decreases |content|
  {
    if content == [] then []
    else match AssignmentAt(content)
      case Some(n) => Key + v + "\"" + SetAppVersion(content[n..], v)
      case None => [content[0]] + SetAppVersion(content[1..], v)
  }

  /** Text without an 'A' passes through untouched. */
  lemma {:induction false} SetAppVersionPlain(c: string, d: string, v: string)
    requires 'A' !in c
    ensures SetAppVersion(c + d, v) == c + SetAppVersion(d, v)
  {
    if c != [] {
      var s := c + d;
      assert s[0] == c[0] && s[1..] == c[1..] + d;
      assert !StartsWith(s, Key) by {
        assert Key[0] == 'A';
      }
      SetAppVersionPlain(c[1..], d, v);
    } else {
      assert c + d == d;
    }
  }

  /** A quoted non-empty value after `APP_VERSION = "` is replaced by the new version. */
  lemma SetAppVersionAssignment(value: string, rest: string, v: string)
    requires value != [] && '"' !in value
    ensures SetAppVersion(Key + value + "\"" + rest, v) == Key + v + "\"" + SetAppVersion(rest, v)
  {
    var s := Key + value + "\"" + rest;
    assert s[..|Key|] == Key;
    assert s[|Key|..] == value + ("\"" + rest);
    assert IndexOf(value + ("\"" + rest), '"') == Some(|value|) by {
      IndexAfter(value, "\"" + rest);
    }
    assert s[|Key| + |value| + 1..] == rest;
  }

  lemma {:induction false} IndexAfter(value: string, rest: string)
    requires '"' !in value && rest != [] && rest[0] == '"'
    ensures IndexOf(value + rest, '"') == Some(|value|)
  {
    if value != [] {
      assert (value + rest)[1..] == value[1..] + rest;
      IndexAfter(value[1..], rest);
    } else {
      assert value + rest == rest;
    }
  }

  /** An empty value, `APP_VERSION = ""`, does not match and stays as it is. */
  lemma EmptyValueKept(rest: string, v: string)
    ensures SetAppVersion(Key + ("\"" + rest), v) == Key + ("\"" + SetAppVersion(rest, v))
  {
    var c := (Key + "\"")[1..];
    KeyTail(rest, SetAppVersion(rest, v));
    EmptyValueNoMatch(rest);
    SkipPlain('A', c, rest, v);
  }

  /** A character where no assignment starts, then text without an 'A', pass through. */
  lemma SkipPlain(x: char, c: string, rest: string, v: string)
    requires AssignmentAt([x] + (c + rest)) == None && 'A' !in c
    ensures SetAppVersion([x] + (c + rest), v) == [x] + (c + SetAppVersion(rest, v))
  {
    SetAppVersionSkip([x] + (c + rest), v);
    assert ([x] + (c + rest))[1..] == c + rest;
    SetAppVersionPlain(c, rest, v);
  }

  /** Where no assignment starts, the first character is kept and the scan moves on. */
  lemma SetAppVersionSkip(s: string, v: string)
    requires s != [] && AssignmentAt(s) == None
    ensures SetAppVersion(s, v) == [s[0]] + SetAppVersion(s[1..], v)
  {
  }

  /** After its first character, the empty assignment holds no 'A'. */
  lemma KeyTail(rest: string, rest': string)
    ensures var c := (Key + "\"")[1..];
      && 'A' !in c
      && Key + ("\"" + rest) == ['A'] + (c + rest)
      && Key + ("\"" + rest') == ['A'] + (c + rest')
  {
    var c := (Key + "\"")[1..];
    assert Key + "\"" == ['A'] + c;
  }

  /** `[^"]+` needs at least one character before the closing quote. */
  lemma EmptyValueNoMatch(rest: string)
    ensures AssignmentAt(Key + ("\"" + rest)) == None
  {
    var s := Key + ("\"" + rest);
    assert s[..|Key|] == Key;
    assert s[|Key|..] == "\"" + rest;
  }

  // ---------------------------------------------------------------------------------------------
  // The release

  /** The version files: `version.py` beside the script and in the project's `src`. */
  function VersionFiles(scriptPath: string): seq<string>
  {
    var scriptDir := Dirname(scriptPath);
    var root := Dirname(scriptDir);
    [PathJoin(scriptDir, "version.py"), PathJoin(PathJoin(root, "src"), "version.py")]
  }

  function ConfigPath(scriptPath: string): string
  {
    PathJoin(PathJoin(Dirname(Dirname(scriptPath)), "src"), "config.py")
  }

  /** The files after the version files are written, before the configuration is read. */
  function WithVersionFiles(files: map<string, string>, scriptPath: string, v: string): map<string, string>
  {
    var vf := VersionFiles(scriptPath);
    files[vf[0] := VersionText(v)][vf[1] := VersionText(v)]
  }

  /** `update_version`: the files afterwards, and whether reading the configuration raised. */
  function Updated(files: map<string, string>, scriptPath: string, v: string): (map<string, string>, bool)
  {
    var written := WithVersionFiles(files, scriptPath, v);
    var config := ConfigPath(scriptPath);
    if config in written then (written[config := SetAppVersion(written[config], v)], false)
    else (written, true)
  }

  lemma PathJoinEnds(a: string, b: string)
    requires b != [] && b[0] != '/'
    ensures |b| <= |PathJoin(a, b)| && PathJoin(a, b)[|PathJoin(a, b)| - |b|..] == b
  {
  }

  /** The configuration is never one of the version files. */
  lemma ConfigNotVersionFile(scriptPath: string)
    ensures ConfigPath(scriptPath) !in VersionFiles(scriptPath)
  {
    var src := PathJoin(Dirname(Dirname(scriptPath)), "src");
    JoinsDiffer(src, Dirname(scriptPath));
    JoinsDiffer(src, src);
  }

  /** A path ending in `config.py` never ends in `version.py`. */
  lemma JoinsDiffer(a: string, b: string)
    ensures PathJoin(a, "config.py") != PathJoin(b, "version.py")
  {
    var p := PathJoin(a, "config.py");
    var q := PathJoin(b, "version.py");
    PathJoinEnds(a, "config.py");
    PathJoinEnds(b, "version.py");
    assert p[|p| - 9] == "config.py"[0] == 'c';
    assert q[|q| - 9] == "version.py"[1] == 'e';
  }

  /** What `update_version` leaves: both version files hold the new version, the configuration
      (when present) has its assignments rewritten, and nothing else changes. */
  lemma UpdatedFiles(files: map<string, string>, scriptPath: string, v: string)
    ensures var (after, raised) := Updated(files, scriptPath, v);
      (forall p :: p in VersionFiles(scriptPath) ==> p in after && after[p] == VersionText(v)) &&
      (raised <==> ConfigPath(scriptPath) !in files) &&
      (!raised ==> after[ConfigPath(scriptPath)] == SetAppVersion(files[ConfigPath(scriptPath)], v)) &&
      (forall p :: p in files && p !in VersionFiles(scriptPath) && p != ConfigPath(scriptPath) ==>
        p in after && after[p] == files[p]) &&
      after.Keys == files.Keys + (set p | p in VersionFiles(scriptPath))
  {
    ConfigNotVersionFile(scriptPath);
  }

  /** The git steps, in order. */
  function Commands(v: string): seq<seq<string>>
  {
    [ ["git", "add", "src/version.py", "src/config.py", "scripts/version.py"],
      ["git", "commit", "-m", "Release version " + v],
      ["git", "tag", "-a", "v" + v, "-m", "Release version " + v],
      ["git", "push"],
      ["git", "push", "origin", "v" + v] ]
  }

  /** The index of the first non-zero return code, or the number of codes when all are zero. */
  function FirstFailure(codes: seq<int>): (k: nat)
    ensures k <= |codes| && (forall i :: 0 <= i < k ==> codes[i] == 0)
    ensures k < |codes| ==> codes[k] != 0
  {
    if codes == [] || codes[0] != 0 then 0 else 1 + FirstFailure(codes[1..])
  }

  /** How the script ends: all steps done, `sys.exit(code)`, or an uncaught exception. */
  datatype Exit = Released | Exited(code: int) | Raised

  /** The project checkout the script works on. */
  class Checkout {
    var files: map<string, string>
    /** The git commands run so far. */
    var ran: seq<seq<string>>

    constructor (files: map<string, string>)
      ensures this.files == files && ran == []
    {
      this.files := files;
      ran := [];
    }

    /** `update_version`: the loop over the version files, then the configuration rewrite. */
    method UpdateVersion(scriptPath: string, v: string) returns (raised: bool)
      modifies this`files
      ensures (files, raised) == Updated(old(files), scriptPath, v)
    {
      var versionFiles := VersionFiles(scriptPath);
      for i := 0 to |versionFiles|
        invariant i == 0 ==> files == old(files)
        invariant i == 1 ==> files == old(files)[versionFiles[0] := VersionText(v)]
        invariant i == 2 ==> files == WithVersionFiles(old(files), scriptPath, v)
      {
        files := files[versionFiles[i] := VersionText(v)];
      }
      var configPath := ConfigPath(scriptPath);
      if configPath !in files {
        return true;
      }
      var content := files[configPath];
      content := SetAppVersion(content, v);
      files := files[configPath := content];
      raised := false;
    }

    /** `create_release`: `codes[i]` is the return code the i-th git step would give. */
    method CreateRelease(scriptPath: string, arg: string, codes: seq<int>) returns (exit: Exit)
      requires |codes| == |Commands(LStripV(arg))|
      modifies this
      ensures !IsVersion(LStripV(arg)) ==> exit == Exited(1) && files == old(files) && ran == old(ran)
      ensures IsVersion(LStripV(arg)) ==> files == Updated(old(files), scriptPath, LStripV(arg)).0
      ensures IsVersion(LStripV(arg)) && Updated(old(files), scriptPath, LStripV(arg)).1 ==>
        exit == Raised && ran == old(ran)
      ensures IsVersion(LStripV(arg)) && !Updated(old(files), scriptPath, LStripV(arg)).1 ==>
        ran == old(ran) + StepsRun(Commands(LStripV(arg)), codes) &&
        exit == StepsExit(codes)
    {
      var version := LStripV(arg);
      if !IsVersion(version) {
        exit := Exited(1);
      } else {
        var raised := UpdateVersion(scriptPath, version);
        if raised {
          exit := Raised;
        } else {
          exit := RunSteps(Commands(version), codes);
        }
      }
    }

    /** The loop over the git steps, stopping at the first failure. */
    method RunSteps(commands: seq<seq<string>>, codes: seq<int>) returns (exit: Exit)
      requires |codes| == |commands|
      modifies this`ran
      ensures ran == old(ran) + StepsRun(commands, codes) && exit == StepsExit(codes)
    {
      for i := 0 to |commands|
        invariant ran == old(ran) + commands[..i]
        invariant forall j :: 0 <= j < i ==> codes[j] == 0
      {
        ran := ran + [commands[i]];
        assert commands[..i + 1] == commands[..i] + [commands[i]];
        if codes[i] != 0 {
          assert FirstFailure(codes) == i by {
            FirstFailureAt(codes, i);
          }
          return Exited(1);
        }
      }
      assert commands[..|commands|] == commands;
      FirstFailureAt(codes, |codes|);
      exit := Released;
    }
  }

  /** The first failure is where the codes stop being zero. */
  lemma {:induction false} FirstFailureAt(codes: seq<int>, i: nat)
    requires i <= |codes| && (forall j :: 0 <= j < i ==> codes[j] == 0)
    requires i < |codes| ==> codes[i] != 0
    ensures FirstFailure(codes) == i
  {
    if i > 0 {
      FirstFailureAt(codes[1..], i - 1);
    }
  }

  /** The steps that run: up to and including the first failing one. */
  function StepsRun(commands: seq<seq<string>>, codes: seq<int>): seq<seq<string>>
    requires |codes| == |commands|
  {
    var k := FirstFailure(codes);
    commands[..if k < |codes| then k + 1 else k]
  }

  /** Exit status 1 at the first failing step, success when every step succeeds. */
  function StepsExit(codes: seq<int>): Exit
  {
    if FirstFailure(codes) < |codes| then Exited(1) else Released
  }

  /** The steps run are a prefix of the git steps that ends at the first failure; the tag pushed
      last is the one created. */
  lemma StepsRunPrefix(v: string, codes: seq<int>)
    requires |codes| == |Commands(v)|
    ensures var k := FirstFailure(codes); var run := StepsRun(Commands(v), codes);
      |run| <= 5 && (k < |codes| ==> |run| == k + 1 && codes[|run| - 1] != 0) &&
      (forall i :: 0 <= i < |run| - 1 ==> codes[i] == 0) &&
      (StepsExit(codes) == Released <==> |run| == 5 && forall i :: 0 <= i < 5 ==> codes[i] == 0) &&
      (|run| == 5 ==> run[2][3] == run[4][3] == "v" + v)
  {
  }
}
