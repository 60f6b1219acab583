/** The requirements generator: scanning source files for import lines, keeping the frozen packages
    the project imports, adding the essential packages, and writing the sorted requirements file.
    The directory walk, pip's `freeze` listing and `pip install` are inputs of the model. */
module Requirements {
  import opened Text

  /** Modules treated as the standard library and never listed. */
  const Stdlib: set<string> :=
    {"os", "sys", "datetime", "time", "json", "typing", "threading", "queue", "logging"}

  /** Packages the application always needs. */
  const Essential: set<string> := {"moviepy", "numpy", "Pillow", "pyinstaller"}

  // ---------------------------------------------------------------------------------------------
  // Import lines

  /** A stripped import line always has a second word, so taking it never fails. */
  lemma ImportLineWords(line: string)
    requires StartsWith(line, "import ") || StartsWith(line, "from ")
    requires !IsSpace(line[|line| - 1])
    ensures |Words(line)| >= 2
  {
    var m := if StartsWith(line, "import ") then 6 else 4;
    assert line[..m] == "import" || line[..m] == "from";
    TwoWords(line, m);
  }

  /** A line whose first `m` characters form a word followed by a space, and which ends in a
      non-space character, has at least two words. */
  lemma TwoWords(line: string, m: nat)
    requires 0 < m < |line| && NoSpace(line[..m]) && IsSpace(line[m]) && !IsSpace(line[|line| - 1])
    ensures |Words(line)| >= 2
  {
    assert line == line[..m] + line[m..];
    SecondWord(line[..m], line[m..]);
  }

  /** The package an import line names: the second word up to its first dot, after stripping
      the line; `None` for a line that is neither an `import` nor a `from` statement. */
  function ImportName(raw: string): (p: Option<string>)
    ensures p.Some? ==> '.' !in p.value
  {
    var line := Strip(raw);
    if StartsWith(line, "import ") || StartsWith(line, "from ") then
      ImportLineWords(line);
      SplitJoin(Words(line)[1], '.');
      Some(Split(Words(line)[1], '.')[0])
    else None
  }

  /** Stripping an import line removes its indentation and the whitespace it ends in. */
  lemma StripImportLine(indent: string, k: string, sep: string, n: string, t: string)
    requires forall i :: 0 <= i < |indent| ==> IsSpace(indent[i])
    requires k != [] && !IsSpace(k[0])
    requires n != [] && NoSpace(n)
    ensures Strip(indent + k + sep + n + t) == k + (sep + (n + RStrip(t)))
  {
    var head := k + sep + n;
    Regroup(indent, k, sep, n, t);
    StripAfterIndent(indent, head, t);
    Regroup([], k, sep, n, RStrip(t));
  }

  lemma Regroup(indent: string, k: string, sep: string, n: string, t: string)
    ensures indent + k + sep + n + t == indent + ((k + sep + n) + t)
    ensures (k + sep + n) + t == k + (sep + (n + t))
  {
  }

  /** Stripping an indented text that opens and closes on non-space characters leaves the
      text with only its trailing whitespace removed. */
  lemma StripAfterIndent(indent: string, head: string, t: string)
    requires forall i :: 0 <= i < |indent| ==> IsSpace(indent[i])
    requires head != [] && !IsSpace(head[0]) && !IsSpace(head[|head| - 1])
    ensures Strip(indent + (head + t)) == head + RStrip(t)
  {
    LStripSpaces(indent, head + t);
    assert (head + t)[0] == head[0];
    RStripAfter(head, t);
  }

  /** A line opening with either keyword and a space passes the import test. */
  lemma KeywordLine(k: string, sep: string, v: string)
    requires k == "import" || k == "from"
    requires sep != [] && sep[0] == ' '
    ensures NoSpace(k)
    ensures StartsWith(k + (sep + v), "import ") || StartsWith(k + (sep + v), "from ")
  {
    assert (k + (sep + v))[..|k| + 1] == k + " ";
    if k == "import" { } else { }
  }

  /** The second word of a line is the first word of what follows the first. */
  lemma SecondWord(k: string, rest: string)
    requires k != [] && NoSpace(k)
    requires rest != [] && IsSpace(rest[0]) && !IsSpace(rest[|rest| - 1])
    ensures |Words(k + rest)| >= 2 && Words(k + rest)[1] == WordAt(LStrip(rest))
  {
    WordsCons(k, rest);
    WordsFirst(rest);
  }

  /** The second word of `k sep n t` is `n` followed by the non-space text right after it. */
  lemma SecondWordOf(k: string, sep: string, n: string, t: string)
    requires k != [] && NoSpace(k)
    requires sep != [] && forall i :: 0 <= i < |sep| ==> IsSpace(sep[i])
    requires n != [] && NoSpace(n)
    requires t == [] || !IsSpace(t[|t| - 1])
    ensures |Words(k + (sep + (n + t)))| >= 2 && Words(k + (sep + (n + t)))[1] == n + WordAt(t)
  {
    var rest := sep + (n + t);
    assert rest[|rest| - 1] == (n + t)[|n + t| - 1];
    SecondWord(k, rest);
    LStripSpaces(sep, n + t);
    assert (n + t)[0] == n[0];
    WordAtAppend(n, t);
  }

  /** What follows the package name, cut at its first whitespace, leaves the name as the
      part before the first dot. */
  lemma PackageHead(n: string, t: string)
    requires '.' !in n
    requires t == [] || t[0] == '.' || IsSpace(t[0])
    ensures Split(n + WordAt(RStrip(t)), '.')[0] == n
  {
    var tail := RStrip(t);
    assert tail != [] ==> tail[0] == t[0];
    SplitFirst(n, WordAt(tail), '.');
  }

  /** An (indented) `import n…` or `from n…` line yields `n`, whatever whitespace follows the
      keyword's space and whatever submodule, clause or trailing whitespace follows `n`. */
  lemma ImportNameOf(indent: string, k: string, sep: string, n: string, t: string)
    requires forall i :: 0 <= i < |indent| ==> IsSpace(indent[i])
    requires k == "import" || k == "from"
    requires sep != [] && sep[0] == ' ' && forall i :: 0 <= i < |sep| ==> IsSpace(sep[i])
    requires n != [] && NoSpace(n) && '.' !in n
    requires t == [] || t[0] == '.' || IsSpace(t[0])
    ensures ImportName(indent + k + sep + n + t) == Some(n)
  {
    var tail := RStrip(t);
    KeywordLine(k, sep, n + tail);
    StripImportLine(indent, k, sep, n, t);
    SecondWordOf(k, sep, n, tail);
    PackageHead(n, t);
  }

  /** What one line adds to the imports: its package unless that is a standard module. */
  function LineImport(line: string): (found: set<string>)
    ensures forall p :: p in found <==> p !in Stdlib && ImportName(line) == Some(p)
  {
    match ImportName(line)
    case Some(p) => if p in Stdlib then {} else {p}
    case None => {}
  }

  /** A project file: its text, or a read that raised (the file is then reported and skipped). */
  datatype SourceFile = Readable(content: string) | Unreadable

  function FileImports(f: SourceFile): set<string>
  {
    match f
    case Readable(content) => Collect(Split(content, '\n'), LineImport)
    case Unreadable => {}
  }

  /** The union of what `f` yields for each item. */
  function Collect<T>(xs: seq<T>, f: T -> set<string>): set<string>
  {
    if xs == [] then {} else Collect(xs[..|xs| - 1], f) + f(xs[|xs| - 1])
  }

  /** A name is collected exactly when some item yields it. */
  lemma {:induction false} CollectExactly<T>(xs: seq<T>, f: T -> set<string>, p: string)
    ensures p in Collect(xs, f) <==> exists j :: 0 <= j < |xs| && p in f(xs[j])
  {
    if xs != [] {
      var init := xs[..|xs| - 1];
      CollectExactly(init, f, p);
      if exists j :: 0 <= j < |xs| && p in f(xs[j]) {
        var j :| 0 <= j < |xs| && p in f(xs[j]);
        if j < |init| {
          assert init[j] == xs[j];
        }
      }
      if p in Collect(init, f) {
        var j :| 0 <= j < |init| && p in f(init[j]);
        assert xs[j] == init[j];
      }
    }
  }

  lemma CollectSnoc<T>(xs: seq<T>, j: nat, f: T -> set<string>)
    requires j < |xs|
    ensures Collect(xs[..j + 1], f) == Collect(xs[..j], f) + f(xs[j])
  {
    assert xs[..j + 1][..j] == xs[..j];
  }

  function ProjectImports(files: seq<SourceFile>): set<string>
  {
    Collect(files, FileImports)
  }

  /** A package is a project import exactly when some file yields it. */
  lemma ProjectImportsExactly(files: seq<SourceFile>, p: string)
    ensures p in ProjectImports(files) <==> exists i :: 0 <= i < |files| && p in FileImports(files[i])
  {
    CollectExactly(files, FileImports, p);
  }

  /** Any non-standard package named on a line of a readable file is a project import. */
  lemma ImportedFrom(files: seq<SourceFile>, i: nat, j: nat, p: string)
    requires i < |files| && files[i].Readable? && j < |Split(files[i].content, '\n')|
    requires ImportName(Split(files[i].content, '\n')[j]) == Some(p) && p !in Stdlib
    ensures p in ProjectImports(files)
  {
    var lines := Split(files[i].content, '\n');
    assert p in LineImport(lines[j]);
    CollectExactly(lines, LineImport, p);
    CollectExactly(files, FileImports, p);
  }

  /** Every project import is a dot-free, non-standard name. */
  lemma ProjectImportsNames(files: seq<SourceFile>)
    ensures forall p :: p in ProjectImports(files) ==> p !in Stdlib && '.' !in p
  {
    forall p | p in ProjectImports(files)
      ensures p !in Stdlib && '.' !in p
    {
      CollectExactly(files, FileImports, p);
      var i :| 0 <= i < |files| && p in FileImports(files[i]);
      var lines := Split(files[i].content, '\n');
      CollectExactly(lines, LineImport, p);
    }
  }

  /** The loop over the lines of one file. */
  method LinesImports(lines: seq<string>) returns (found: set<string>)
    ensures found == Collect(lines, LineImport)
  {
    found := {};
    for j := 0 to |lines|
      invariant found == Collect(lines[..j], LineImport)
    {
      CollectSnoc(lines, j, LineImport);
      match ImportName(lines[j])
      case None =>
      case Some(package) =>
        if package !in Stdlib {
          found := found + {package};
        }
    }
    assert lines[..|lines|] == lines;
  }

  /** `get_project_imports` over the files the directory walk found. */
  method GetProjectImports(files: seq<SourceFile>) returns (imports: set<string>)
    ensures imports == ProjectImports(files)
  {
    imports := {};
    for i := 0 to |files|
      invariant imports == Collect(files[..i], FileImports)
    {
      CollectSnoc(files, i, FileImports);
      match files[i]
      case Unreadable =>
      case Readable(content) =>
        var found := LinesImports(Split(content, '\n'));
        imports := imports + found;
    }
    assert files[..|files|] == files;
  }

  // ---------------------------------------------------------------------------------------------
  // Frozen requirements

  /** `req.split("==")[0]`: the name part of a pinned requirement. */
  function PackageOf(req: string): (name: string)
    ensures |name| <= |req| && name == req[..|name|]
  {
    if req == [] || (|req| >= 2 && req[0] == '=' && req[1] == '=') then []
    else [req[0]] + PackageOf(req[1..])
  }

  /** The name of `name==version` is `name`. */
  lemma {:induction false} PackageOfPinned(name: string, version: string)
    requires '=' !in name
    ensures PackageOf(name + "==" + version) == name
  {
    if name != [] {
      assert (name + "==" + version)[1..] == name[1..] + "==" + version;
      PackageOfPinned(name[1..], version);
    } else {
      assert name + "==" + version == "==" + version;
    }
  }

  /** Whether `req` pins `package`, ignoring (ASCII) case. */
  predicate Pins(req: string, package: string)
  {
    Lower(PackageOf(req)) == Lower(package)
  }

  function Lowered(names: set<string>): set<string>
  {
    set n | n in names :: Lower(n)
  }

  /** The freeze lines for packages the project imports, in freeze order. */
  function KeepImported(frozen: seq<string>, imports: set<string>): seq<string>
  {
    if frozen == [] then []
    else
      var req := frozen[|frozen| - 1];
      KeepImported(frozen[..|frozen| - 1], imports) +
        (if Lower(PackageOf(req)) in Lowered(imports) then [req] else [])
  }

  /** A freeze line is kept exactly when it pins an imported package. */
  lemma {:induction false} KeepImportedExactly(frozen: seq<string>, imports: set<string>, req: string)
    ensures req in KeepImported(frozen, imports) <==>
      req in frozen && exists p :: p in imports && Pins(req, p)
  {
    if frozen != [] {
      var init := frozen[..|frozen| - 1];
      KeepImportedExactly(init, imports, req);
      assert frozen == init + [frozen[|frozen| - 1]];
    }
  }

  /** Keeping never lengthens the listing: at most one requirement per frozen line. */
  lemma {:induction false} KeepImportedShorter(frozen: seq<string>, imports: set<string>)
    ensures |KeepImported(frozen, imports)| <= |frozen|
  {
    if frozen != [] {
      KeepImportedShorter(frozen[..|frozen| - 1], imports);
    }
  }

  /** The loop over `freeze()` that builds the first requirements. */
  method SelectRequirements(frozen: seq<string>, imports: set<string>) returns (requirements: seq<string>)
    ensures requirements == KeepImported(frozen, imports)
  {
    var lowered := set imp | imp in imports :: Lower(imp);
    requirements := [];
    for i := 0 to |frozen|
      invariant requirements == KeepImported(frozen[..i], imports)
    {
      assert frozen[..i + 1][..i] == frozen[..i];
      var packageName := Lower(PackageOf(frozen[i]));
      if packageName in lowered {
        requirements := requirements + [frozen[i]];
      }
    }
    assert frozen[..|frozen|] == frozen;
  }

  // ---------------------------------------------------------------------------------------------
  // Essential packages

  /** The lowered names the requirements already pin. */
  function CurrentPackages(requirements: seq<string>): set<string>
  {
    set r | r in requirements :: Lower(PackageOf(r))
  }

  /** The first line of a listing that pins `package`. */
  function FirstPin(listing: seq<string>, package: string): (k: Option<nat>)
    ensures k.Some? ==> k.value < |listing| && Pins(listing[k.value], package)
    ensures k.Some? ==> forall j :: 0 <= j < k.value ==> !Pins(listing[j], package)
    ensures k.None? ==> forall j :: 0 <= j < |listing| ==> !Pins(listing[j], package)
  {
    if listing == [] then None
    else if Pins(listing[0], package) then Some(0)
    else match FirstPin(listing[1..], package)
      case None => None
      case Some(k) => Some(k + 1)
  }

  /** The outcome of installing one package: `None` when `pip install` failed (the error is
      reported and the package skipped), otherwise the `freeze()` listing after the install. */
  type Installer = string -> Option<seq<string>>

  /** What installing `package` adds: the first listing line that pins it, if any. */
  function Added(package: string, install: Option<seq<string>>): seq<string>
  {
    match install
    case None => []
    case Some(listing) =>
      match FirstPin(listing, package)
      case None => []
      case Some(k) => [listing[k]]
  }

  /** The essential packages, in the order visited, that were not already pinned. */
  function Missing(order: seq<string>, current: set<string>): seq<string>
  {
    if order == [] then []
    else
      var p := order[|order| - 1];
      Missing(order[..|order| - 1], current) + (if Lower(p) in current then [] else [p])
  }

  /** The lines the essential-package loop appends. */
  function EssentialsAdded(order: seq<string>, current: set<string>, installs: Installer): seq<string>
  {
    if order == [] then []
    else
      var p := order[|order| - 1];
      EssentialsAdded(order[..|order| - 1], current, installs) +
        (if Lower(p) in current then [] else Added(p, installs(p)))
  }

  /** Every package is installed exactly when it is visited and not already pinned. */
  lemma {:induction false} MissingExactly(order: seq<string>, current: set<string>, p: string)
    ensures p in Missing(order, current) <==> p in order && Lower(p) !in current
  {
    if order != [] {
      MissingExactly(order[..|order| - 1], current, p);
      assert order == order[..|order| - 1] + [order[|order| - 1]];
    }
  }

  /** The essential packages not already pinned: what the loop has to install. */
  function EssentialsToInstall(current: set<string>): set<string>
  {
    set p | p in Essential && Lower(p) !in current
  }

  /** Each visit of an unpinned package installs it once; a pinned one is never installed. */
  lemma {:induction false} MissingCount(order: seq<string>, current: set<string>, x: string)
    ensures multiset(Missing(order, current))[x] == if Lower(x) in current then 0 else multiset(order)[x]
  {
    if order != [] {
      var init, p := order[..|order| - 1], order[|order| - 1];
      var tail := if Lower(p) in current then [] else [p];
      MissingCount(init, current, x);
      assert order == init + [p];
      assert multiset(order) == multiset(init) + multiset{p};
      assert multiset(Missing(order, current)) == multiset(Missing(init, current)) + multiset(tail);
    }
  }

  /** Visiting the essential set once each, the loop installs every unpinned essential package
      exactly once and nothing else. */
  lemma MissingEssentials(order: seq<string>, current: set<string>)
    requires multiset(order) == multiset(Essential)
    ensures multiset(Missing(order, current)) == multiset(EssentialsToInstall(current))
  {
    forall x
      ensures multiset(Missing(order, current))[x] == multiset(EssentialsToInstall(current))[x]
    {
      MissingCount(order, current, x);
    }
  }

  /** Every appended line pins a package that was installed, and none pins one already present. */
  lemma {:induction false} EssentialsAddedPin(order: seq<string>, current: set<string>, installs: Installer)
    ensures forall r :: r in EssentialsAdded(order, current, installs) ==>
      Lower(PackageOf(r)) in Lowered(set p | p in Missing(order, current)) &&
      Lower(PackageOf(r)) !in current
    ensures |EssentialsAdded(order, current, installs)| <= |Missing(order, current)|
  {
    if order != [] {
      var init := order[..|order| - 1];
      var p := order[|order| - 1];
      EssentialsAddedPin(init, current, installs);
      var before := set q | q in Missing(init, current);
      var after := set q | q in Missing(order, current);
      assert before <= after;
      assert Lowered(before) <= Lowered(after);
      if Lower(p) !in current {
        assert p in after;
        assert Lower(p) in Lowered(after);
      }
    }
  }

  /** Visiting one more essential package extends both lists by that package's part. */
  lemma EssentialsStep(order: seq<string>, i: nat, current: set<string>, installs: Installer)
    requires i < |order|
    ensures Missing(order[..i + 1], current)
      == Missing(order[..i], current) + (if Lower(order[i]) in current then [] else [order[i]])
    ensures EssentialsAdded(order[..i + 1], current, installs)
      == EssentialsAdded(order[..i], current, installs)
         + (if Lower(order[i]) in current then [] else Added(order[i], installs(order[i])))
  {
    assert order[..i + 1][..i] == order[..i];
  }

  /** The essential-package loop. `order` is the order in which the set of essential packages is
      iterated; `installed` lists the packages handed to `pip install`, in order. */
  method AddEssentials(requirements: seq<string>, order: seq<string>, installs: Installer)
    returns (result: seq<string>, installed: seq<string>)
    ensures result == requirements + EssentialsAdded(order, CurrentPackages(requirements), installs)
    ensures installed == Missing(order, CurrentPackages(requirements))
  {
    var current := set req | req in requirements :: Lower(PackageOf(req));
    result := requirements;
    installed := [];
    for i := 0 to |order|
      invariant result == requirements + EssentialsAdded(order[..i], current, installs)
      invariant installed == Missing(order[..i], current)
    {
      EssentialsStep(order, i, current, installs);
      var package := order[i];
      if Lower(package) !in current {
        installed := installed + [package];
        var added := InstallAndPin(package, installs);
        result := result + added;
      }
    }
    assert order[..|order|] == order;
  }

  /** Installing one package and scanning `freeze()` for its pin, stopping at the first match. */
  method InstallAndPin(package: string, installs: Installer) returns (added: seq<string>)
    ensures added == Added(package, installs(package))
  {
    added := [];
    match installs(package)
    case None =>
    case Some(listing) =>
      var j := 0;
      while j < |listing|
        invariant j <= |listing|
        invariant forall k :: 0 <= k < j ==> !Pins(listing[k], package)
      {
        if Lower(PackageOf(listing[j])) == Lower(package) {
          added := [listing[j]];
          break;
        }
        j := j + 1;
      }
  }

  // ---------------------------------------------------------------------------------------------
  // The requirements file

  predicate SortedLex(xs: seq<string>)
  {
    forall i, j :: 0 <= i < j < |xs| ==> LexLe(xs[i], xs[j])
  }

  function InsertLex(x: string, xs: seq<string>): seq<string>
  {
    if xs == [] || LexLe(x, xs[0]) then [x] + xs else [xs[0]] + InsertLex(x, xs[1..])
  }

  /** `sorted(requirements)`, as an insertion sort. */
  function SortLex(xs: seq<string>): seq<string>
  {
    if xs == [] then [] else InsertLex(xs[0], SortLex(xs[1..]))
  }

  lemma {:induction false} InsertLexSorted(x: string, xs: seq<string>)
    requires SortedLex(xs)
    ensures SortedLex(InsertLex(x, xs))
    ensures multiset(InsertLex(x, xs)) == multiset(xs) + multiset{x}
  {
    if xs == [] || LexLe(x, xs[0]) {
      InsertFront(x, xs);
    } else {
      InsertLexSorted(x, xs[1..]);
      LexTotal(x, xs[0]);
      assert xs == [xs[0]] + xs[1..];
      InsertBehind(x, xs[0], xs[1..], InsertLex(x, xs[1..]));
    }
  }

  lemma InsertFront(x: string, xs: seq<string>)
    requires SortedLex(xs) && (xs == [] || LexLe(x, xs[0]))
    ensures SortedLex([x] + xs)
  {
    var r := [x] + xs;
    forall i, j | 0 <= i < j < |r|
      ensures LexLe(r[i], r[j])
    {
      if i == 0 && j > 1 {
        LexTrans(x, xs[0], xs[j - 1]);
      }
    }
  }

  lemma InsertBehind(x: string, y: string, ys: seq<string>, t: seq<string>)
    requires SortedLex([y] + ys) && LexLe(y, x)
    requires SortedLex(t) && multiset(t) == multiset(ys) + multiset{x}
    ensures SortedLex([y] + t)
  {
    var r := [y] + t;
    forall k | 0 <= k < |t|
      ensures LexLe(y, t[k])
    {
      assert t[k] in multiset(t);
      if t[k] != x {
        assert t[k] in multiset(ys);
        var m :| 0 <= m < |ys| && ys[m] == t[k];
        assert ([y] + ys)[0] == y && ([y] + ys)[m + 1] == t[k];
      }
    }
    forall i, j | 0 <= i < j < |r|
      ensures LexLe(r[i], r[j])
    {
      if i > 0 {
        assert r[i] == t[i - 1] && r[j] == t[j - 1];
      }
    }
  }

  /** The sorted list is in Python's string order and holds exactly the given lines. */
  lemma {:induction false} SortLexCorrect(xs: seq<string>)
    ensures SortedLex(SortLex(xs))
    ensures multiset(SortLex(xs)) == multiset(xs)
  {
    if xs != [] {
      SortLexCorrect(xs[1..]);
      InsertLexSorted(xs[0], SortLex(xs[1..]));
      assert xs == [xs[0]] + xs[1..];
    }
  }

  /** Sorting is determined by the contents alone: two sorted orderings of the same lines agree. */
  lemma {:induction false} SortedUnique(a: seq<string>, b: seq<string>)
    requires SortedLex(a) && SortedLex(b) && multiset(a) == multiset(b)
    ensures a == b
    decreases |a|
  {
    if a != [] {
      SortedHeads(a, b);
      SortedTail(a);
      SortedTail(b);
      SortedUnique(a[1..], b[1..]);
    }
  }

  /** Without its first line, a sorted list stays sorted and loses just that line. */
  lemma SortedTail(a: seq<string>)
    requires a != [] && SortedLex(a)
    ensures SortedLex(a[1..]) && multiset(a[1..]) == multiset(a) - multiset{a[0]}
    ensures a == [a[0]] + a[1..]
  {
    assert a == [a[0]] + a[1..];
  }

  /** Two sorted orderings of the same lines start with the same line. */
  lemma SortedHeads(a: seq<string>, b: seq<string>)
    requires a != [] && SortedLex(a) && SortedLex(b) && multiset(a) == multiset(b)
    ensures b != [] && a[0] == b[0]
  {
    assert a[0] in multiset(b);
    assert b[0] in multiset(a);
    var i :| 0 <= i < |b| && b[i] == a[0];
    var j :| 0 <= j < |a| && a[j] == b[0];
    if a[0] != b[0] {
      assert LexLe(b[0], b[i]) && LexLe(a[0], a[j]);
      LexAntisym(a[0], b[0]);
    }
  }

  /** The text written for the given lines, each followed by a newline. */
  function FileText(lines: seq<string>): string
  {
    if lines == [] then [] else lines[0] + "\n" + FileText(lines[1..])
  }

  lemma {:induction false} FileTextSnoc(lines: seq<string>, line: string)
    ensures FileText(lines + [line]) == FileText(lines) + line + "\n"
  {
    if lines == [] {
      assert [] + [line] == [line];
    } else {
      assert (lines + [line])[1..] == lines[1..] + [line];
      FileTextSnoc(lines[1..], line);
    }
  }

  /** Reading the file back line by line gives the lines and a final empty piece. */
  lemma {:induction false} FileTextLines(lines: seq<string>)
    requires forall k :: 0 <= k < |lines| ==> '\n' !in lines[k]
    ensures Split(FileText(lines), '\n') == lines + [""]
  {
    FileTextJoin(lines);
    JoinSplit(lines + [""], '\n');
  }

  lemma {:induction false} FileTextJoin(lines: seq<string>)
    ensures FileText(lines) == Join(lines + [""], '\n')
  {
    if lines != [] {
      FileTextJoin(lines[1..]);
      assert (lines + [""])[1..] == lines[1..] + [""];
    }
  }

  /** The loop writing `requirements.txt`. */
  method WriteRequirements(requirements: seq<string>) returns (text: string)
    ensures text == FileText(SortLex(requirements))
  {
    var sorted := SortLex(requirements);
    text := [];
    for i := 0 to |sorted|
      invariant text == FileText(sorted[..i])
    {
      FileTextSnoc(sorted[..i], sorted[i]);
      assert sorted[..i + 1] == sorted[..i] + [sorted[i]];
      text := text + sorted[i] + "\n";
    }
    assert sorted[..|sorted|] == sorted;
  }

  // ---------------------------------------------------------------------------------------------
  // The whole generator

  /** The requirements before sorting. */
  function RequirementsOf(files: seq<SourceFile>, frozen: seq<string>, order: seq<string>,
                          installs: Installer): seq<string>
  {
    var kept := KeepImported(frozen, ProjectImports(files));
    kept + EssentialsAdded(order, CurrentPackages(kept), installs)
  }

  /** `generate_requirements`: `frozen` is the `freeze()` listing, `order` the iteration order of
      the essential packages, each visited once; returns the file's text and the packages
      installed, which are the essential packages the kept lines do not pin, each once. */
  method GenerateRequirements(files: seq<SourceFile>, frozen: seq<string>, order: seq<string>,
                              installs: Installer)
    returns (text: string, installed: seq<string>)
    requires multiset(order) == multiset(Essential)
    ensures text == FileText(SortLex(RequirementsOf(files, frozen, order, installs)))
    ensures installed == Missing(order, CurrentPackages(KeepImported(frozen, ProjectImports(files))))
    ensures multiset(installed)
      == multiset(EssentialsToInstall(CurrentPackages(KeepImported(frozen, ProjectImports(files)))))
  {
    var imports := GetProjectImports(files);
    var requirements := SelectRequirements(frozen, imports);
    MissingEssentials(order, CurrentPackages(requirements));
    requirements, installed := AddEssentials(requirements, order, installs);
    text := WriteRequirements(requirements);
  }

  /** Read back, the file holds the requirements in sorted order, one per line, and nothing else;
      each line is a kept freeze line or pins an essential package. */
  lemma RequirementsFile(files: seq<SourceFile>, frozen: seq<string>, order: seq<string>,
                         installs: Installer)
    requires multiset(order) == multiset(Essential)
    requires forall k :: 0 <= k < |RequirementsOf(files, frozen, order, installs)| ==>
      '\n' !in RequirementsOf(files, frozen, order, installs)[k]
    ensures var lines := Split(FileText(SortLex(RequirementsOf(files, frozen, order, installs))), '\n');
      lines[|lines| - 1] == "" &&
      SortedLex(lines[..|lines| - 1]) &&
      multiset(lines[..|lines| - 1]) == multiset(RequirementsOf(files, frozen, order, installs))
    ensures forall r :: r in RequirementsOf(files, frozen, order, installs) ==>
      r in KeepImported(frozen, ProjectImports(files)) || Lower(PackageOf(r)) in Lowered(Essential)
  {
    var reqs := RequirementsOf(files, frozen, order, installs);
    var kept := KeepImported(frozen, ProjectImports(files));
    var current := CurrentPackages(kept);
    EssentialsAddedPin(order, current, installs);
    forall p | p in Missing(order, current)
      ensures p in Essential
    {
      MissingExactly(order, current, p);
      assert p in multiset(order);
    }
    assert (set p | p in Missing(order, current)) <= Essential;
    var sorted := SortLex(reqs);
    SortLexCorrect(reqs);
    forall k | 0 <= k < |sorted|
      ensures '\n' !in sorted[k]
    {
      assert sorted[k] in multiset(reqs);
    }
    FileTextLines(sorted);
    assert (sorted + [""])[..|sorted|] == sorted;
  }
}
