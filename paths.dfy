/** The POSIX `os.path` helpers the program uses: `basename`, `dirname`, `join` and `splitext`. */
module Paths {
  import opened Strings

  /** Python `s.rfind(c)`: the last index of `c`, or -1. */
  function RFind(s: string, c: char): (r: int)
    ensures -1 <= r < |s|
    ensures r >= 0 ==> s[r] == c
    ensures forall k :: r < k < |s| ==> s[k] != c
  {
    if s == [] then -1 else if s[|s| - 1] == c then |s| - 1 else RFind(s[..|s| - 1], c)
  }

  /** `os.path.basename`: the text after the last `/`. */
  function Basename(p: string): string {
    p[RFind(p, '/') + 1..]
  }

  predicate AllSlashes(s: string) {
    forall i :: 0 <= i < |s| ==> s[i] == '/'
  }

  /** `os.path.dirname`: the text up to the last `/`, without its trailing slashes unless it is made of slashes only. */
  function Dirname(p: string): string {
    var head := p[..RFind(p, '/') + 1];
    if head != [] && !AllSlashes(head) then RStripChar(head, '/') else head
  }

  /** `os.path.join(a, b)`: an absolute `b` replaces `a`; otherwise one `/` separates them unless `a` is empty or ends in `/`. */
  function Join(a: string, b: string): string {
    if StartsWith(b, "/") then b
    else if a == [] || EndsWith(a, "/") then a + b
    else a + "/" + b
  }

  predicate HasNonDot(s: string) {
    exists i :: 0 <= i < |s| && s[i] != '.'
  }

  /** `os.path.splitext`: the extension starts at the last `.` of the final component, unless only dots precede it there. */
  function SplitExt(p: string): (string, string) {
    var sep := RFind(p, '/');
    var dot := RFind(p, '.');
    if dot > sep && HasNonDot(p[sep + 1..dot]) then (p[..dot], p[dot..]) else (p, "")
  }

  /** `os.path.splitext(p)[0]`. */
  function Root(p: string): string {
    SplitExt(p).0
  }

  /** `os.path.splitext(p)[1]`. */
  function Ext(p: string): string {
    SplitExt(p).1
  }

  /** What an extension found by `splitext` looks like: empty, or one leading dot and no other dot or slash. */
  predicate IsExtension(e: string) {
    e == [] || (e[0] == '.' && '.' !in e[1..] && '/' !in e)
  }

  /** Stem and extension put back together give the path, and the extension is well formed. */
  lemma SplitExtParts(p: string)
    ensures Root(p) + Ext(p) == p
    ensures IsExtension(Ext(p))
    ensures EndsWith(p, Ext(p))
  {
    var sep := RFind(p, '/');
    var dot := RFind(p, '.');
    if dot > sep && HasNonDot(p[sep + 1..dot]) {
      assert SplitExt(p) == (p[..dot], p[dot..]);
      assert p[..dot] + p[dot..] == p;
      TailAfterLast(p, dot, sep);
    } else {
      assert SplitExt(p) == (p, "");
      assert p + "" == p;
    }
  }

  lemma TailAfterLast(p: string, dot: int, sep: int)
    requires 0 <= dot < |p| && p[dot] == '.' && sep < dot
    requires forall k :: dot < k < |p| ==> p[k] != '.'
    requires forall k :: sep < k < |p| && k >= 0 ==> p[k] != '/'
    ensures IsExtension(p[dot..])
  {
    var e := p[dot..];
    assert e[0] == '.';
    assert forall i :: 1 <= i < |e| ==> e[i] == p[dot + i];
    assert forall i :: 0 <= i < |e[1..]| ==> e[1..][i] == e[i + 1];
    assert '.' !in e[1..];
    assert forall i :: 0 <= i < |e| ==> e[i] == p[dot + i];
    assert '/' !in e;
  }

  lemma RFindAbsent(s: string, c: char)
    requires forall k :: 0 <= k < |s| ==> s[k] != c
    ensures RFind(s, c) == -1
  {
    if s != [] {
      RFindAbsent(s[..|s| - 1], c);
    }
  }

  /** A stem (with at least one character other than a dot, and no slash) followed by an extension splits back into the two. */
  lemma KeepsExtension(stem: string, e: string)
    requires IsExtension(e) && e != []
    requires '/' !in stem && HasNonDot(stem)
    ensures SplitExt(stem + e) == (stem, e)
  {
    var p := stem + e;
    forall k | 0 <= k < |p| ensures p[k] != '/' {
      if k < |stem| { assert p[k] == stem[k]; } else { assert p[k] == e[k - |stem|]; }
    }
    RFindAbsent(p, '/');
    assert p[|stem|] == '.';
    forall k | |stem| < k < |p| ensures p[k] != '.' {
      assert p[k] == e[k - |stem|];
      assert e[k - |stem|] == e[1..][k - |stem| - 1];
    }
    RFindLastIs(p, |stem|, '.');
    assert p[-1 + 1..|stem|] == stem;
  }

  lemma RFindLastIs(s: string, k: nat, c: char)
    requires k < |s| && s[k] == c
    requires forall j :: k < j < |s| ==> s[j] != c
    ensures RFind(s, c) == k
  {
    if k < |s| - 1 {
      RFindLastIs(s[..|s| - 1], k, c);
    }
  }

  /** Joining a folder and a name without `/` ends in that name. */
  lemma BasenameOfJoin(d: string, n: string)
    requires '/' !in n
    ensures Basename(Join(d, n)) == n
  {
    var j := Join(d, n);
    var cut := |j| - |n|;
    assert j[cut..] == n;
    if n == [] {
      assert !StartsWith(n, "/");
    }
    if cut > 0 {
      assert j[cut - 1] == '/';
      forall k | cut <= k < |j| ensures j[k] != '/' { assert j[k] == n[k - cut]; }
      RFindLastIs(j, cut - 1, '/');
    } else {
      assert j == n;
      RFindAbsent(j, '/');
    }
  }

  /** The stem of a name without `/` has none either. */
  lemma RootNoSlash(p: string)
    requires '/' !in p
    ensures '/' !in Root(p)
  {
    SplitExtParts(p);
    var r := Root(p);
    forall k | 0 <= k < |r| ensures r[k] != '/' {
      assert r[k] == (r + Ext(p))[k];
    }
  }

  /** Joining a folder and a name without `/` gives a path that ends with the name. */
  lemma JoinEndsWith(d: string, n: string)
    requires '/' !in n
    ensures Basename(Join(d, n)) == n && EndsWith(Join(d, n), n)
  {
    BasenameOfJoin(d, n);
  }

  /** Basename and folder of a path rebuild the path: the last `/` separates them. */
  lemma PathSplitsAtLastSlash(p: string)
    ensures p[..RFind(p, '/') + 1] + Basename(p) == p
    ensures '/' !in Basename(p)
  {
    var b := Basename(p);
    forall k | 0 <= k < |b| ensures b[k] != '/' { assert b[k] == p[RFind(p, '/') + 1 + k]; }
  }

  /** A stem followed by a suffix that does not start an extension is never the path itself: the
      derived output file cannot be the input file. */
  lemma RootWithSuffixIsNew(p: string, suffix: string)
    requires suffix != [] && suffix[0] != '.'
    ensures Root(p) + suffix != p
  {
    SplitExtParts(p);
    var r := Root(p);
    if |Ext(p)| == |suffix| {
      assert p[|r|] == Ext(p)[0] == '.';
      assert (r + suffix)[|r|] == suffix[0];
    } else {
      assert |r + suffix| != |p|;
    }
  }
}
