/** POSIX path manipulation as Python's `posixpath` performs it. */
module Paths {
  import opened Text

  /** `os.path.join(a, b)`: an absolute `b` replaces `a`; otherwise one '/' separates them
      unless `a` is empty or already ends with one. */
  function PathJoin(a: string, b: string): (p: string)
    ensures StartsWith(b, "/") ==> p == b
  {
    if StartsWith(b, "/") then b
    else if a == [] || a[|a| - 1] == '/' then a + b
    else a + "/" + b
  }

  /** `os.path.basename(p)`: everything after the last '/', that is the longest suffix
      without a '/'. */
  function Basename(p: string): (b: string)
    ensures '/' !in b
    ensures |b| <= |p| && p[|p| - |b|..] == b
    ensures |b| == |p| || p[|p| - |b| - 1] == '/'
  {
    match LastIndexOf(p, '/')
    case None => p
    case Some(i) => p[i + 1..]
  }

  predicate AllSlashes(s: string) { forall i :: 0 <= i < |s| ==> s[i] == '/' }

  /** `s` without its trailing slashes. */
  function RStripSlashes(s: string): (r: string)
    ensures |r| <= |s| && r == s[..|r|]
    ensures AllSlashes(s[|r|..]) && (r == [] || r[|r| - 1] != '/')
  {
    if s != [] && s[|s| - 1] == '/' then
      var r := RStripSlashes(s[..|s| - 1]);
      assert s[|r|..] == s[..|s| - 1][|r|..] + ['/'];
      r
    else s
  }

  /** `os.path.dirname(p)`: everything up to the last '/', with trailing slashes removed
      unless the head is made of slashes only. */
  function Dirname(p: string): (d: string)
    ensures |d| <= |p| && d == p[..|d|]
    ensures '/' !in p ==> d == []
  {
    var head := match LastIndexOf(p, '/') case None => [] case Some(i) => p[..i + 1];
    if head != [] && !AllSlashes(head) then RStripSlashes(head) else head
  }

  /** The directory part is what precedes the base name, without its trailing slashes unless
      it is made of slashes only. */
  lemma DirnameOfHead(p: string)
    requires '/' in p
    ensures var head := p[..|p| - |Basename(p)|]; var d := Dirname(p);
      if AllSlashes(head) then d == head
      else 0 < |d| <= |head| && d == head[..|d|] && d[|d| - 1] != '/' && AllSlashes(head[|d|..])
  {
  }

  /** The extension part of `os.path.splitext(p)`: that of its base name. */
  function Extension(p: string): (e: string)
    ensures e == [] || (e[0] == '.' && '/' !in e)
  {
    NameExtension(Basename(p))
  }

  /** The extension of a base name: from its last '.', unless only dots come before that
      one (so ".bashrc" has no extension). */
  function NameExtension(b: string): string
  {
    match LastIndexOf(b, '.')
    case None => []
    case Some(k) => if exists j :: 0 <= j < k && b[j] != '.' then b[k..] else []
  }

  /** The extension is the base name's tail from its last dot, when something other than a
      dot comes before that dot; otherwise there is none. */
  lemma ExtensionOfBase(p: string)
    ensures var b := Basename(p); var e := Extension(p);
      && |e| <= |b| && b[|b| - |e|..] == e
      && (e != [] ==> '.' !in e[1..] && exists j :: 0 <= j < |b| - |e| && b[j] != '.')
      && (e == [] ==> forall k :: 0 <= k < |b| && b[k] == '.' && '.' !in b[k + 1..] ==> AllDots(b[..k]))
  {
    NameExtensionTail(Basename(p));
  }

  lemma NameExtensionTail(b: string)
    ensures var e := NameExtension(b);
      && |e| <= |b| && b[|b| - |e|..] == e
      && (e != [] ==> '.' !in e[1..] && exists j :: 0 <= j < |b| - |e| && b[j] != '.')
      && (e == [] ==> forall k :: 0 <= k < |b| && b[k] == '.' && '.' !in b[k + 1..] ==> AllDots(b[..k]))
  {
    match LastIndexOf(b, '.')
    case None =>
    case Some(k) =>
      if exists j :: 0 <= j < k && b[j] != '.' {
        assert |b| - |b[k..]| == k && b[k..][1..] == b[k + 1..];
      } else {
        LastDotOnly(b, k);
      }
  }

  predicate AllDots(s: string) { forall i :: 0 <= i < |s| ==> s[i] == '.' }

  /** When only dots precede the last dot, only dots precede any dot with no dot after it
      (there is just one). */
  lemma LastDotOnly(b: string, k: nat)
    requires k < |b| && b[k] == '.' && '.' !in b[k + 1..] && forall j :: 0 <= j < k ==> b[j] == '.'
    ensures forall m :: 0 <= m < |b| && b[m] == '.' && '.' !in b[m + 1..] ==> AllDots(b[..m])
  {
  }

  /** The extension is the tail of the path itself. */
  lemma ExtensionSuffix(p: string)
    ensures |Extension(p)| <= |p| && p[|p| - |Extension(p)|..] == Extension(p)
  {
    var b := Basename(p);
    var e := Extension(p);
    NameExtensionTail(b);
    assert p[|p| - |b|..][|b| - |e|..] == b[|b| - |e|..];
    assert p[|p| - |e|..] == p[|p| - |b|..][|b| - |e|..];
  }

  /** The prefix every path strictly inside directory `d` starts with (`os.path.join(d, "")`). */
  function DirPrefix(d: string): string { PathJoin(d, "") }

  /** Path `p` names an entry somewhere below directory `d`, at any depth. */
  predicate IsUnder(p: string, d: string)
  {
    StartsWith(p, DirPrefix(d)) && |p| > |DirPrefix(d)|
  }

  /** A relative, non-empty name joined onto a directory lies below that directory, and
      different names give different paths. */
  lemma JoinUnder(d: string, name: string)
    requires name != [] && name[0] != '/'
    ensures IsUnder(PathJoin(d, name), d)
    ensures PathJoin(d, name) == DirPrefix(d) + name
  {
  }

  lemma JoinInjective(d: string, n1: string, n2: string)
    requires n1 != [] && n1[0] != '/' && n2 != [] && n2[0] != '/'
    requires PathJoin(d, n1) == PathJoin(d, n2)
    ensures n1 == n2
  {
    JoinUnder(d, n1);
    JoinUnder(d, n2);
    assert n1 == PathJoin(d, n1)[|DirPrefix(d)|..];
  }

  /** Whatever lies below a subdirectory of `d` lies below `d`. */
  lemma UnderSubdirectory(p: string, d: string, name: string)
    requires name != [] && name[0] != '/'
    requires IsUnder(p, PathJoin(d, name))
    ensures IsUnder(p, d)
  {
    var sub := PathJoin(d, name);
    JoinUnder(d, name);
    assert StartsWith(DirPrefix(sub), sub);
    assert p[..|sub|] == sub;
    assert p[..|DirPrefix(d)|] == sub[..|DirPrefix(d)|];
  }
}
