/** Sequences built piece by piece: each element of a sequence contributes a (possibly empty) run. */
module Seqs {
  /** The runs `f(s[0])`, `f(s[1])`, … laid end to end. */
  function ConcatMap<T, U>(f: T -> seq<U>, s: seq<T>): seq<U> {
    if s == [] then [] else ConcatMap(f, s[..|s| - 1]) + f(s[|s| - 1])
  }

  /** Concatenating the inputs concatenates the outputs. */
  lemma {:induction false} ConcatMapAppend<T, U>(f: T -> seq<U>, a: seq<T>, b: seq<T>)
    ensures ConcatMap(f, a + b) == ConcatMap(f, a) + ConcatMap(f, b)
    decreases |b|
  {
    if b == [] {
      assert a + b == a;
    } else {
      var b' := b[..|b| - 1];
      assert (a + b)[..|a + b| - 1] == a + b';
      assert (a + b)[|a + b| - 1] == b[|b| - 1];
      ConcatMapAppend(f, a, b');
    }
  }

  lemma ConcatMapOne<T, U>(f: T -> seq<U>, x: T)
    ensures ConcatMap(f, [x]) == f(x)
  {
    assert [x][..0] == [];
  }

  /** The first element's run comes first. */
  lemma ConcatMapCons<T, U>(f: T -> seq<U>, x: T, s: seq<T>)
    ensures ConcatMap(f, [x] + s) == f(x) + ConcatMap(f, s)
  {
    ConcatMapAppend(f, [x], s);
    ConcatMapOne(f, x);
  }

  /** `[f(x) for x in s]`. */
  function Mapped<T, U>(f: T -> U, s: seq<T>): (r: seq<U>)
    ensures |r| == |s|
    ensures forall i :: 0 <= i < |s| ==> r[i] == f(s[i])
  {
    seq(|s|, i requires 0 <= i < |s| => f(s[i]))
  }

  /** `[x for x in s if p(x)]`. */
  function Filter<T>(p: T -> bool, s: seq<T>): (r: seq<T>)
    ensures |r| <= |s|
    ensures forall i :: 0 <= i < |r| ==> r[i] in s && p(r[i])
  {
    if s == [] then []
    else
      assert s == s[..|s| - 1] + [s[|s| - 1]];
      Filter(p, s[..|s| - 1]) + (if p(s[|s| - 1]) then [s[|s| - 1]] else [])
  }

  /** An element is kept exactly when it is in the input and passes the test. */
  lemma {:induction false} FilterIn<T>(p: T -> bool, s: seq<T>, x: T)
    ensures x in Filter(p, s) <==> x in s && p(x)
  {
    if s != [] {
      FilterIn(p, s[..|s| - 1], x);
      assert s == s[..|s| - 1] + [s[|s| - 1]];
    }
  }

  lemma FilterPrefix<T>(p: T -> bool, s: seq<T>, i: nat)
    requires i < |s|
    ensures Filter(p, s[..i + 1]) == Filter(p, s[..i]) + (if p(s[i]) then [s[i]] else [])
  {
    assert s[..i + 1][..i] == s[..i];
  }

  /** One more element of the input adds its image when it passes the test, and nothing otherwise. */
  lemma MapFilterStep<T, U>(f: T -> U, p: T -> bool, s: seq<T>, i: nat)
    requires i < |s|
    ensures Mapped(f, Filter(p, s[..i + 1])) == Mapped(f, Filter(p, s[..i])) + (if p(s[i]) then [f(s[i])] else [])
  {
    FilterPrefix(p, s, i);
    MappedAppend(f, Filter(p, s[..i]), if p(s[i]) then [s[i]] else []);
  }

  /** `[f(x) for x in s if p(x)]` as the loop that appends builds it, one element at a time. */
  function Collect<T, U>(p: T -> bool, f: T -> U, s: seq<T>): seq<U> {
    if s == [] then []
    else Collect(p, f, s[..|s| - 1]) + (if p(s[|s| - 1]) then [f(s[|s| - 1])] else [])
  }

  lemma CollectPrefix<T, U>(p: T -> bool, f: T -> U, s: seq<T>, i: nat)
    requires i < |s|
    ensures Collect(p, f, s[..i + 1]) == Collect(p, f, s[..i]) + (if p(s[i]) then [f(s[i])] else [])
  {
    assert s[..i + 1][..i] == s[..i];
  }

  /** The loop gives the images of the elements that pass the test, in order. */
  lemma {:induction false} CollectIsMapFilter<T, U>(p: T -> bool, f: T -> U, s: seq<T>)
    ensures Collect(p, f, s) == Mapped(f, Filter(p, s))
  {
    if s != [] {
      var n := |s| - 1;
      CollectIsMapFilter(p, f, s[..n]);
      MapFilterStep(f, p, s, n);
      assert s[..n + 1] == s;
    }
  }

  lemma MappedAppend<T, U>(f: T -> U, a: seq<T>, b: seq<T>)
    ensures Mapped(f, a + b) == Mapped(f, a) + Mapped(f, b)
  {
  }

  /** Extending a prefix by one element adds that element's run. */
  lemma ConcatMapPrefix<T, U>(f: T -> seq<U>, s: seq<T>, i: nat)
    requires i < |s|
    ensures ConcatMap(f, s[..i + 1]) == ConcatMap(f, s[..i]) + f(s[i])
  {
    assert s[..i + 1][..i] == s[..i];
  }

  lemma AppendAssoc<T>(a: seq<T>, b: seq<T>, c: seq<T>)
    ensures (a + b) + c == a + (b + c)
  {
  }

  /** An element of the result comes from the run of some element of the input. */
  lemma {:induction false} ConcatMapIn<T, U>(f: T -> seq<U>, s: seq<T>, y: U)
    ensures y in ConcatMap(f, s) <==> exists i :: 0 <= i < |s| && y in f(s[i])
  {
    if s != [] {
      var init := s[..|s| - 1];
      ConcatMapIn(f, init, y);
      assert ConcatMap(f, s) == ConcatMap(f, init) + f(s[|s| - 1]);
      if y in ConcatMap(f, init) {
        var i :| 0 <= i < |init| && y in f(init[i]);
        assert s[i] == init[i];
      }
      if exists i :: 0 <= i < |s| && y in f(s[i]) {
        var i :| 0 <= i < |s| && y in f(s[i]);
        if i < |init| {
          assert init[i] == s[i];
        }
      }
    }
  }
}
