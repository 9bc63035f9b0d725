/** Python string operations used throughout the program, on `seq<char>`. */
module Strings {
  import Seqs

  /** Python `str.lower()`, on ASCII letters (other characters are left as they are). */
  function LowerChar(c: char): char {
    if 'A' <= c <= 'Z' then (c as int + 32) as char else c
  }

  /** Python `str.upper()`, on ASCII letters. */
  function UpperChar(c: char): char {
    if 'a' <= c <= 'z' then (c as int - 32) as char else c
  }

  function Lower(s: string): (r: string)
    ensures |r| == |s|
    ensures forall i :: 0 <= i < |s| ==> r[i] == LowerChar(s[i])
  {
    if s == [] then [] else [LowerChar(s[0])] + Lower(s[1..])
  }

  function Upper(s: string): (r: string)
    ensures |r| == |s|
    ensures forall i :: 0 <= i < |s| ==> r[i] == UpperChar(s[i])
  {
    if s == [] then [] else [UpperChar(s[0])] + Upper(s[1..])
  }

  lemma LowerAppend(a: string, b: string)
    ensures Lower(a + b) == Lower(a) + Lower(b)
  {
    var l := Lower(a + b);
    var r := Lower(a) + Lower(b);
    forall i | 0 <= i < |l| ensures l[i] == r[i] {
      if i < |a| {
        assert (a + b)[i] == a[i];
      } else {
        assert (a + b)[i] == b[i - |a|];
      }
    }
    assert l == r;
  }

  /** Lowering twice is lowering once, so every lower-cased test is case-insensitive. */
  lemma LowerIdempotent(s: string)
    ensures Lower(Lower(s)) == Lower(s)
  {
  }

  /** Upper-casing then lower-casing gives the lower-cased string: the two cases compare equal. */
  lemma LowerOfUpper(s: string)
    ensures Lower(Upper(s)) == Lower(s)
  {
  }

  /** Lower-casing first does not change what upper-casing gives. */
  lemma UpperOfLower(s: string)
    ensures Upper(Lower(s)) == Upper(s)
  {
  }

  /** Upper-casing twice is upper-casing once. */
  lemma UpperOfUpper(s: string)
    ensures Upper(Upper(s)) == Upper(s)
  {
  }

  predicate StartsWith(s: string, prefix: string) {
    |prefix| <= |s| && s[..|prefix|] == prefix
  }

  predicate EndsWith(s: string, suffix: string) {
    |suffix| <= |s| && s[|s| - |suffix|..] == suffix
  }

  /** Python `s.endswith((a, b, ...))`. */
  predicate EndsWithAny(s: string, suffixes: seq<string>) {
    exists i :: 0 <= i < |suffixes| && EndsWith(s, suffixes[i])
  }

  /** A string ending with one of several suffixes has, `n` characters from its end, the character
      all those suffixes have there. */
  lemma EndsWithAnyCharAt(s: string, suffixes: seq<string>, n: nat, chars: set<char>)
    requires 0 < n
    requires forall i :: 0 <= i < |suffixes| ==> n <= |suffixes[i]| && suffixes[i][|suffixes[i]| - n] in chars
    ensures EndsWithAny(s, suffixes) ==> n <= |s| && s[|s| - n] in chars
  {
    if EndsWithAny(s, suffixes) {
      var i :| 0 <= i < |suffixes| && EndsWith(s, suffixes[i]);
      var x := suffixes[i];
      assert s[|s| - |x|..][|x| - n] == x[|x| - n];
    }
  }

  lemma EndsWithAppend(s: string, t: string)
    ensures EndsWith(s + t, t)
  {
    assert (s + t)[|s|..] == t;
  }

  lemma PrefixOf(p: string, s: string)
    ensures StartsWith(p + s, p)
  {
    assert (p + s)[..|p|] == p;
  }

  lemma EndsWithTrans(s: string, t: string, u: string)
    requires EndsWith(s, t) && EndsWith(t, u)
    ensures EndsWith(s, u)
  {
    assert s[|s| - |u|..] == s[|s| - |t|..][|t| - |u|..];
  }

  /** Python `c in s` for a single character. */
  predicate Contains(s: string, c: char) {
    c in s
  }

  /** Python `needle in s` for a substring. */
  predicate HasSubstring(s: string, needle: string) {
    StartsWith(s, needle) || (s != [] && HasSubstring(s[1..], needle))
  }

  /** Python `s.replace(c, "")` for one character. */
  function RemoveChar(s: string, c: char): (r: string)
    ensures c !in r
    ensures |r| <= |s|
    ensures forall x :: x in r ==> x in s
  {
    if s == [] then [] else (if s[0] == c then [] else [s[0]]) + RemoveChar(s[1..], c)
  }

  /** Python `s.replace(" ", "")`. */
  function RemoveSpaces(s: string): string {
    RemoveChar(s, ' ')
  }

  lemma {:induction false} RemoveCharAppend(a: string, b: string, c: char)
    ensures RemoveChar(a + b, c) == RemoveChar(a, c) + RemoveChar(b, c)
  {
    if a == [] {
      assert a + b == b;
    } else {
      var head := if a[0] == c then [] else [a[0]];
      var t := a + b;
      assert t[0] == a[0] && t[1..] == a[1..] + b;
      RemoveCharAppend(a[1..], b, c);
      var x, y := RemoveChar(a[1..], c), RemoveChar(b, c);
      assert RemoveChar(t, c) == head + (x + y);
      assert RemoveChar(a, c) == head + x;
      Seqs.AppendAssoc(head, x, y);
    }
  }

  /** A string without the character is left as it is. */
  lemma RemoveCharAbsent(s: string, c: char)
    requires c !in s
    ensures RemoveChar(s, c) == s
  {
    if s != [] {
      RemoveCharAbsent(s[1..], c);
    }
  }

  /** The characters Python's `str.isspace()` (and so `str.strip()` and the regex `\s`) treat as white space. */
  predicate IsSpace(c: char) {
    c == ' ' || '\t' <= c <= '\r' || '\U{1C}' <= c <= '\U{1F}' || c == '\U{85}' || c == '\U{A0}'
    || c == '\U{1680}' || '\U{2000}' <= c <= '\U{200A}' || c == '\U{2028}' || c == '\U{2029}'
    || c == '\U{202F}' || c == '\U{205F}' || c == '\U{3000}'
  }

  predicate AllSpace(s: string) {
    forall i :: 0 <= i < |s| ==> IsSpace(s[i])
  }

  /** Python `str.lstrip()`. */
  function LStrip(s: string): (r: string)
    ensures |r| <= |s| && r == s[|s| - |r|..]
    ensures r == [] || !IsSpace(r[0])
    ensures forall k :: 0 <= k < |s| - |r| ==> IsSpace(s[k])
  {
    if s != [] && IsSpace(s[0]) then LStrip(s[1..]) else s
  }

  /** Python `str.rstrip()`. */
  function RStrip(s: string): (r: string)
    ensures |r| <= |s| && r == s[..|r|]
    ensures r == [] || !IsSpace(r[|r| - 1])
    ensures forall k :: |r| <= k < |s| ==> IsSpace(s[k])
  {
    if s != [] && IsSpace(s[|s| - 1]) then RStrip(s[..|s| - 1]) else s
  }

  /** Python `str.strip()`. */
  function Strip(s: string): string {
    RStrip(LStrip(s))
  }

  /** Text that begins with a non-space character is kept whole behind the stripped head. */
  lemma {:induction false} LStripBeforeSolid(a: string, w: string)
    requires w != [] && !IsSpace(w[0])
    ensures LStrip(a + w) == LStrip(a) + w
  {
    if a == [] {
      assert a + w == w;
    } else if IsSpace(a[0]) {
      assert (a + w)[1..] == a[1..] + w;
      LStripBeforeSolid(a[1..], w);
    } else {
    }
  }

  /** Text that ends with a non-space character is kept whole before the stripped tail. */
  lemma {:induction false} RStripAfterSolid(w: string, a: string)
    requires w != [] && !IsSpace(w[|w| - 1])
    ensures RStrip(w + a) == w + RStrip(a)
  {
    if a == [] {
      assert w + a == w;
    } else if IsSpace(a[|a| - 1]) {
      assert (w + a)[..|w + a| - 1] == w + a[..|a| - 1];
      RStripAfterSolid(w, a[..|a| - 1]);
    } else {
    }
  }

  lemma StripOfLStrip(s: string)
    ensures Strip(LStrip(s)) == Strip(s)
  {
    assert LStrip(LStrip(s)) == LStrip(s);
  }

  /** A string that does not begin with white space is its own `lstrip`. */
  lemma LStripOfLStripped(s: string)
    requires s == [] || !IsSpace(s[0])
    ensures LStrip(s) == s
  {
  }

  /** Leading white space is dropped, whatever follows it. */
  lemma {:induction false} LStripAfterSpaces(sp: string, s: string)
    requires AllSpace(sp)
    ensures LStrip(sp + s) == LStrip(s)
  {
    if sp != [] {
      assert (sp + s)[1..] == sp[1..] + s;
      LStripAfterSpaces(sp[1..], s);
    } else {
      assert sp + s == s;
    }
  }

  /** Trailing white space is dropped, whatever precedes it. */
  lemma {:induction false} RStripBeforeSpaces(s: string, sp: string)
    requires AllSpace(sp)
    ensures RStrip(s + sp) == RStrip(s)
    decreases |sp|
  {
    if sp != [] {
      assert (s + sp)[..|s + sp| - 1] == s + sp[..|sp| - 1];
      RStripBeforeSpaces(s, sp[..|sp| - 1]);
    } else {
      assert s + sp == s;
    }
  }

  lemma RStripOfRStripped(s: string)
    requires s == [] || !IsSpace(s[|s| - 1])
    ensures RStrip(s) == s
  {
  }

  /** `lstrip` drops exactly a white-space head that is followed by a non-space character or the end. */
  lemma {:induction false} LStripIs(s: string, n: nat)
    requires n <= |s| && (forall k :: 0 <= k < n ==> IsSpace(s[k])) && (n == |s| || !IsSpace(s[n]))
    ensures LStrip(s) == s[n..]
  {
    if n > 0 {
      assert IsSpace(s[0]);
      LStripIs(s[1..], n - 1);
      assert s[1..][n - 1..] == s[n..];
    }
  }

  /** `rstrip` drops exactly a white-space tail that follows a non-space character or the start. */
  lemma {:induction false} RStripIs(s: string, m: nat)
    requires m <= |s| && (forall k :: m <= k < |s| ==> IsSpace(s[k])) && (m == 0 || !IsSpace(s[m - 1]))
    ensures RStrip(s) == s[..m]
    decreases |s| - m
  {
    if m < |s| {
      assert IsSpace(s[|s| - 1]);
      var t := s[..|s| - 1];
      assert forall k :: m <= k < |t| ==> t[k] == s[k];
      RStripIs(t, m);
      assert t[..m] == s[..m];
    } else {
      assert s[..m] == s;
    }
  }

  /** Stripping the two ends can be done in either order. */
  lemma StripCommutes(s: string)
    ensures LStrip(RStrip(s)) == RStrip(LStrip(s))
  {
    var l := LStrip(s);
    var n := |s| - |l|;
    if n == |s| {
      assert l == [];
      RStripIs(s, 0);
    } else {
      StripCommutesSolid(s);
    }
  }

  /** The same for a text with a character that is not white space. */
  lemma StripCommutesSolid(s: string)
    requires LStrip(s) != []
    ensures LStrip(RStrip(s)) == RStrip(LStrip(s))
  {
    var l := LStrip(s);
    var r := RStrip(s);
    var n := |s| - |l|;
    var m := |r|;
    assert !IsSpace(s[n]) by {
      assert l[0] == s[n];
    }
    assert 0 < m && !IsSpace(s[m - 1]) by {
      assert r != [] && r[|r| - 1] == s[|r| - 1];
    }
    StripBoth(s, n, m);
  }

  /** Both orders keep the text between the first and the last non-space characters. */
  lemma StripBoth(s: string, n: nat, m: nat)
    requires n < m <= |s|
    requires forall k :: 0 <= k < n ==> IsSpace(s[k])
    requires forall k :: m <= k < |s| ==> IsSpace(s[k])
    requires !IsSpace(s[n]) && !IsSpace(s[m - 1])
    ensures LStrip(s[..m]) == s[n..m] && RStrip(s[n..]) == s[n..m]
  {
    LStripHead(s, n, m);
    RStripTail(s, n, m);
  }

  /** Cutting the tail at `m` and then left-stripping keeps `s[n..m]`. */
  lemma LStripHead(s: string, n: nat, m: nat)
    requires n < m <= |s|
    requires forall k :: 0 <= k < n ==> IsSpace(s[k])
    requires !IsSpace(s[n])
    ensures LStrip(s[..m]) == s[n..m]
  {
    var h := s[..m];
    forall k | 0 <= k < n
      ensures IsSpace(h[k])
    {
      assert h[k] == s[k];
    }
    assert h[n] == s[n];
    LStripIs(h, n);
    assert h[n..] == s[n..m];
  }

  /** Cutting the head at `n` and then right-stripping keeps `s[n..m]`. */
  lemma RStripTail(s: string, n: nat, m: nat)
    requires n < m <= |s|
    requires forall k :: m <= k < |s| ==> IsSpace(s[k])
    requires !IsSpace(s[m - 1])
    ensures RStrip(s[n..]) == s[n..m]
  {
    var t := s[n..];
    forall k | m - n <= k < |t|
      ensures IsSpace(t[k])
    {
      assert t[k] == s[n + k];
    }
    assert t[m - n - 1] == s[m - 1];
    RStripIs(t, m - n);
    assert t[..m - n] == s[n..m];
  }

  /** A character that is not white space survives stripping. */
  lemma StripKeepsSolid(s: string, c: char)
    requires c in s && !IsSpace(c)
    ensures c in Strip(s)
  {
    var l := LStrip(s);
    var n := |s| - |l|;
    var i :| 0 <= i < |s| && s[i] == c;
    assert i >= n;
    var j := i - n;
    assert l[j] == s[i];
    var r := RStrip(l);
    assert j < |r|;
    assert r[j] == l[j];
  }

  /** Stripping only removes characters. */
  lemma StripInside(s: string, c: char)
    requires c in Strip(s)
    ensures c in s
  {
    var l := LStrip(s);
    var r := RStrip(l);
    var i :| 0 <= i < |r| && r[i] == c;
    assert r[i] == l[i];
    assert l[i] == s[|s| - |l| + i];
  }

  /** Position of the first occurrence of `c` in `s` (Python `str.find` when it succeeds). */
  function IndexOf(s: string, c: char): (i: nat)
    requires c in s
    ensures i < |s| && s[i] == c && c !in s[..i]
  {
    if s[0] == c then 0 else 1 + IndexOf(s[1..], c)
  }

  /** The first occurrence is where the character is and does not occur before. */
  lemma {:induction false} IndexOfIs(s: string, c: char, i: nat)
    requires i < |s| && s[i] == c && c !in s[..i]
    ensures IndexOf(s, c) == i
    decreases i
  {
    if i > 0 {
      assert s[0] == s[..i][0];
      assert s[1..][..i - 1] == s[..i][1..];
      IndexOfIs(s[1..], c, i - 1);
    }
  }

  /** Python `sep.join(parts)`. */
  function JoinWith(parts: seq<string>, sep: string): string {
    if parts == [] then "" else if |parts| == 1 then parts[0] else parts[0] + sep + JoinWith(parts[1..], sep)
  }

  /** Text joined around a separator that occurs in neither left part splits back into its parts. */
  lemma SplitAtSeparator(a1: string, b1: string, a2: string, b2: string, c: char)
    requires c !in a1 && c !in a2
    requires a1 + [c] + b1 == a2 + [c] + b2
    ensures a1 == a2 && b1 == b2
  {
    var s := a1 + [c] + b1;
    assert s[..|a1|] == a1 && s[|a1|] == c;
    IndexOfIs(s, c, |a1|);
    assert s[..|a2|] == a2 && s[|a2|] == c;
    IndexOfIs(s, c, |a2|);
    assert a1 == s[..|a1|] == a2;
    assert b1 == s[|a1| + 1..] == b2;
  }

  /** Python `s.split(c)` for one character. */
  function Split(s: string, c: char): (parts: seq<string>)
    ensures |parts| >= 1
    decreases |s|
  {
    if c !in s then [s] else [s[..IndexOf(s, c)]] + Split(s[IndexOf(s, c) + 1..], c)
  }

  /** Splitting at the first separator: a head without it comes off as the first part. */
  lemma SplitCons(a: string, rest: string, c: char)
    requires c !in a
    ensures Split(a + [c] + rest, c) == [a] + Split(rest, c)
  {
    var s := a + [c] + rest;
    assert s[..|a|] == a && s[|a|] == c;
    IndexOfIs(s, c, |a|);
    assert s[|a| + 1..] == rest;
  }

  /** Splitting parts joined by a character none of them holds gives the parts back. */
  lemma {:induction false} SplitJoin(parts: seq<string>, c: char)
    requires parts != []
    requires forall i :: 0 <= i < |parts| ==> c !in parts[i]
    ensures Split(JoinWith(parts, [c]), c) == parts
    decreases |parts|
  {
    if |parts| > 1 {
      var rest := JoinWith(parts[1..], [c]);
      assert JoinWith(parts, [c]) == parts[0] + [c] + rest;
      SplitCons(parts[0], rest, c);
      SplitJoin(parts[1..], c);
      assert parts == [parts[0]] + parts[1..];
    }
  }

  /** The text joined from parts ends with the last part. */
  lemma {:induction false} JoinWithEnds(parts: seq<string>, sep: string)
    requires parts != []
    ensures EndsWith(JoinWith(parts, sep), parts[|parts| - 1])
    decreases |parts|
  {
    if |parts| > 1 {
      JoinWithEnds(parts[1..], sep);
      var rest := JoinWith(parts[1..], sep);
      var s := JoinWith(parts, sep);
      assert s == (parts[0] + sep) + rest;
      assert s[|s| - |rest|..] == rest;
      var last := parts[|parts| - 1];
      assert rest[|rest| - |last|..] == last;
      assert s[|s| - |last|..] == rest[|rest| - |last|..];
    }
  }

  /** Python `s.rstrip(c)` for one character. */
  function RStripChar(s: string, c: char): (r: string)
    ensures |r| <= |s| && r == s[..|r|]
    ensures r == [] || r[|r| - 1] != c
  {
    if s != [] && s[|s| - 1] == c then RStripChar(s[..|s| - 1], c) else s
  }

  /** Stripping `c` from a text that does not end in `c`, with one `c` added, takes off just that one. */
  lemma RStripAdded(g: string, c: char)
    requires g != [] && g[|g| - 1] != c
    ensures RStripChar(g + [c], c) == g
  {
    var t := g + [c];
    assert t[..|t| - 1] == g;
  }

  /** A join ends with the last character of its last part. */
  lemma JoinWithLast(parts: seq<string>, sep: string)
    requires parts != [] && parts[|parts| - 1] != []
    ensures JoinWith(parts, sep) != []
    ensures JoinWith(parts, sep)[|JoinWith(parts, sep)| - 1] == parts[|parts| - 1][|parts[|parts| - 1]| - 1]
  {
    JoinWithEnds(parts, sep);
    var g := JoinWith(parts, sep);
    var last := parts[|parts| - 1];
    assert g[|g| - |last|..][|last| - 1] == last[|last| - 1];
  }

  /** Python `s.lstrip(c)` for one character. */
  function LStripChar(s: string, c: char): (r: string)
    ensures |r| <= |s| && r == s[|s| - |r|..]
    ensures r == [] || r[0] != c
  {
    if s != [] && s[0] == c then LStripChar(s[1..], c) else s
  }

  /** Python `s.replace(old, new)`: EVERY occurrence of `pattern`, scanning left to right. */
  function ReplaceAll(s: string, pattern: string, replacement: string): string
    requires pattern != []
    decreases |s|
  {
    if |s| < |pattern| then s
    else if s[..|pattern|] == pattern then replacement + ReplaceAll(s[|pattern|..], pattern, replacement)
    else [s[0]] + ReplaceAll(s[1..], pattern, replacement)
  }

  /** Deleting every occurrence never lengthens the text. */
  lemma {:induction false} ReplaceAllNoLonger(s: string, pattern: string)
    requires pattern != []
    ensures |ReplaceAll(s, pattern, "")| <= |s|
    decreases |s|
  {
    if |s| >= |pattern| {
      if s[..|pattern|] == pattern {
        ReplaceAllNoLonger(s[|pattern|..], pattern);
      } else {
        ReplaceAllNoLonger(s[1..], pattern);
      }
    }
  }

  /** Deleting every occurrence of a pattern that occurs removes at least its length. */
  lemma {:induction false} ReplaceAllShrinks(s: string, pattern: string, k: nat)
    requires pattern != [] && k + |pattern| <= |s| && s[k..k + |pattern|] == pattern
    ensures |ReplaceAll(s, pattern, "")| <= |s| - |pattern|
    decreases |s|
  {
    if s[..|pattern|] == pattern {
      ReplaceAllNoLonger(s[|pattern|..], pattern);
    } else {
      assert k > 0;
      assert s[1..][k - 1..k - 1 + |pattern|] == s[k..k + |pattern|];
      ReplaceAllShrinks(s[1..], pattern, k - 1);
    }
  }

  // ---- Python str(int) ----

  function DigitChar(d: nat): char
    requires d < 10
  {
    "0123456789"[d]
  }

  /** The character of a digit has that digit's value. */
  lemma DigitCharValue(d: nat)
    requires d < 10
    ensures IsDigit(DigitChar(d)) && DigitValue(DigitChar(d)) == d
  {
    assert DigitChar(d) as int == '0' as int + d;
  }

  predicate IsDigit(c: char) {
    '0' <= c <= '9'
  }

  /** The value of a decimal digit; callers only apply it to digits, and anything else counts as 0. */
  function DigitValue(c: char): nat {
    if IsDigit(c) then c as int - '0' as int else 0
  }

  /** Decimal digits of a natural number, without leading zeros. */
  function NatToString(n: nat): (r: string)
    ensures |r| >= 1
    ensures forall i :: 0 <= i < |r| ==> IsDigit(r[i])
    decreases n
  {
    if n < 10 then [DigitChar(n)] else NatToString(n / 10) + [DigitChar(n % 10)]
  }

  /** Python `str(n)` for an integer. */
  function IntToString(n: int): string {
    if n < 0 then "-" + NatToString(-n) else NatToString(n)
  }

  /** The value of a string of decimal digits, read most significant first. */
  function DigitsValue(s: string): nat {
    if s == [] then 0 else DigitsValue(s[..|s| - 1]) * 10 + DigitValue(s[|s| - 1])
  }

  /** Reading the decimal text back gives the number: the rendering is injective. */
  lemma {:induction false} NatToStringRoundTrip(n: nat)
    ensures DigitsValue(NatToString(n)) == n
    decreases n
  {
    var s := NatToString(n);
    if n >= 10 {
      NatToStringRoundTrip(n / 10);
      assert s[..|s| - 1] == NatToString(n / 10);
      DigitCharValue(n % 10);
      assert DigitsValue(s) == (n / 10) * 10 + n % 10;
    } else {
      DigitCharValue(n);
    }
  }

  lemma NatToStringInjective(m: nat, n: nat)
    requires NatToString(m) == NatToString(n)
    ensures m == n
  {
    NatToStringRoundTrip(m);
    NatToStringRoundTrip(n);
  }

  function Pow10(k: nat): (r: nat)
    ensures r >= 1
  {
    if k == 0 then 1 else 10 * Pow10(k - 1)
  }

  /** A number below `10^k` has at most `k` digits. */
  lemma {:induction false} NatToStringLength(n: nat, k: nat)
    requires k >= 1 && n < Pow10(k)
    ensures |NatToString(n)| <= k
    decreases n
  {
    if n >= 10 {
      assert Pow10(1) == 10;
      NatToStringLength(n / 10, k - 1);
    }
  }

  /** The value of concatenated digit strings. */
  lemma {:induction false} DigitsValueAppend(a: string, b: string)
    ensures DigitsValue(a + b) == DigitsValue(a) * Pow10(|b|) + DigitsValue(b)
    decreases |b|
  {
    if b == [] {
      assert a + b == a;
    } else {
      var b' := b[..|b| - 1];
      var d := DigitValue(b[|b| - 1]);
      DigitsValueAppend(a, b');
      DigitsValueStep(a, b);
      assert DigitsValue(b) == DigitsValue(b') * 10 + d;
      assert Pow10(|b|) == Pow10(|b'|) * 10;
      ShiftDigit(DigitsValue(a + b'), DigitsValue(a), Pow10(|b'|), DigitsValue(b'), d);
    }
  }

  /** The last digit of `b` is also the last digit of `a + b`. */
  lemma DigitsValueStep(a: string, b: string)
    requires b != []
    ensures DigitsValue(a + b) == DigitsValue(a + b[..|b| - 1]) * 10 + DigitValue(b[|b| - 1])
  {
    var ab := a + b;
    assert ab[..|ab| - 1] == a + b[..|b| - 1];
  }

  lemma ShiftDigit(x: int, va: int, p: int, vb: int, d: int)
    requires x == va * p + vb
    ensures x * 10 + d == va * (p * 10) + (vb * 10 + d)
  {
    assert (va * p + vb) * 10 == va * p * 10 + vb * 10;
    assert va * p * 10 == va * (p * 10);
  }


  /** `k` zero characters. */
  function Zeros(k: nat): (r: string)
    ensures |r| == k && forall i :: 0 <= i < k ==> r[i] == '0'
  {
    if k == 0 then [] else Zeros(k - 1) + ['0']
  }

  lemma {:induction false} ZerosValue(k: nat)
    ensures DigitsValue(Zeros(k)) == 0
  {
    if k > 0 {
      assert Zeros(k)[..k - 1] == Zeros(k - 1);
      ZerosValue(k - 1);
    }
  }

  /** Zero-padded decimal of at least `width` digits (Qt's `yyyy`, `MM`, ... fields). */
  function Pad(n: nat, width: nat): (r: string)
    ensures |r| >= width
    ensures forall i :: 0 <= i < |r| ==> IsDigit(r[i])
  {
    var digits := NatToString(n);
    if |digits| >= width then digits else Zeros(width - |digits|) + digits
  }

  /** A number below `10^width` is padded to exactly `width` digits. */
  lemma PadLength(n: nat, width: nat)
    requires width >= 1 && n < Pow10(width)
    ensures |Pad(n, width)| == width
  {
    NatToStringLength(n, width);
  }

  /** A number below `10^width` is padded to exactly `width` digits, which read back as the number. */
  lemma PadRoundTrip(n: nat, width: nat)
    requires width >= 1 && n < Pow10(width)
    ensures |Pad(n, width)| == width
    ensures DigitsValue(Pad(n, width)) == n
  {
    var digits := NatToString(n);
    PadLength(n, width);
    NatToStringRoundTrip(n);
    if |digits| < width {
      LeadingZerosValue(width - |digits|, digits);
    }
  }

  /** Leading zeros do not change the value. */
  lemma LeadingZerosValue(k: nat, digits: string)
    ensures DigitsValue(Zeros(k) + digits) == DigitsValue(digits)
  {
    DigitsValueAppend(Zeros(k), digits);
    ZerosValue(k);
    var z := DigitsValue(Zeros(k));
    assert z * Pow10(|digits|) == 0 by {
      assert z == 0;
    }
  }
}
