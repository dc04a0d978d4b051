/** The Python string builtins the resolver relies on: `str.isspace`, `strip`,
    `split` on one separator character and `replace` of one character. */
module PyText {

  /** Python's `str.isspace` for one character (Unicode whitespace: bidirectional
      class WS, B or S, or general category Zs). */
  predicate IsSpace(c: char) {
    || c == ' '
    || ('\U{9}' <= c <= '\U{D}')
    || ('\U{1C}' <= c <= '\U{1F}')
    || c == '\U{85}'
    || c == '\U{A0}'
    || c == '\U{1680}'
    || ('\U{2000}' <= c <= '\U{200A}')
    || c == '\U{2028}'
    || c == '\U{2029}'
    || c == '\U{202F}'
    || c == '\U{205F}'
    || c == '\U{3000}'
  }

  /** `s.lstrip()`: the longest suffix of `s` that does not start with whitespace. */
  function LStrip(s: string): (r: string)
    ensures |r| <= |s| && r == s[|s| - |r|..]
    ensures forall i :: 0 <= i < |s| - |r| ==> IsSpace(s[i])
    ensures r == [] || !IsSpace(r[0])
  {
    if s == [] || !IsSpace(s[0]) then s
    else
      var r := LStrip(s[1..]);
      assert forall i :: 1 <= i < |s| - |r| ==> s[i] == s[1..][i - 1];
      r
  }

  /** `s.rstrip()`: the longest prefix of `s` that does not end with whitespace. */
  function RStrip(s: string): (r: string)
    ensures |r| <= |s| && r == s[..|r|]
    ensures forall i :: |r| <= i < |s| ==> IsSpace(s[i])
    ensures r == [] || !IsSpace(r[|r| - 1])
  {
    if s == [] || !IsSpace(s[|s| - 1]) then s
    else
      var r := RStrip(s[..|s| - 1]);
      assert forall i :: |r| <= i < |s| - 1 ==> s[i] == s[..|s| - 1][i];
      r
  }

  /** `s.strip()`: whitespace removed from both ends. */
  function Strip(s: string): (r: string)
    ensures |r| <= |s|
    ensures r == [] || (!IsSpace(r[0]) && !IsSpace(r[|r| - 1]))
    ensures r == [] ==> forall i :: 0 <= i < |s| ==> IsSpace(s[i])
    ensures (exists k :: 0 <= k < |s| && !IsSpace(s[k])) ==> r != []
    ensures s == [] || (!IsSpace(s[0]) && !IsSpace(s[|s| - 1])) ==> r == s
  {
    NonSpaceSurvivesStrip(s);
    RStrip(LStrip(s))
  }

  /** A string holding a non-space character does not strip down to nothing. */
  lemma NonSpaceSurvivesStrip(s: string)
    ensures (exists k :: 0 <= k < |s| && !IsSpace(s[k])) ==> RStrip(LStrip(s)) != []
  {
    if k :| 0 <= k < |s| && !IsSpace(s[k]) {
      var l := LStrip(s);
      assert l[k - (|s| - |l|)] == s[k];
    }
  }

  /** `s.strip()` is the slice of `s` left after removing a whitespace-only prefix and a
      whitespace-only suffix. */
  lemma StripIsSlice(s: string)
    ensures exists i, j ::
              && 0 <= i <= j <= |s| && Strip(s) == s[i..j]
              && (forall k :: 0 <= k < i ==> IsSpace(s[k]))
              && (forall k :: j <= k < |s| ==> IsSpace(s[k]))
  {
    var l := LStrip(s);
    var r := RStrip(l);
    var i, j := |s| - |l|, |s| - |l| + |r|;
    SliceOfSlice(s, l, r, i, j);
    assert Strip(s) == r;
  }

  /** A prefix `r` of a suffix `l` of `s` is a slice of `s`; what `l` holds after `r`
      is what `s` holds there. */
  lemma SliceOfSlice(s: string, l: string, r: string, i: int, j: int)
    requires |l| <= |s| && l == s[|s| - |l|..]
    requires |r| <= |l| && r == l[..|r|]
    requires forall k :: |r| <= k < |l| ==> IsSpace(l[k])
    requires i == |s| - |l| && j == i + |r|
    ensures 0 <= i <= j <= |s| && r == s[i..j]
    ensures forall k :: j <= k < |s| ==> IsSpace(s[k])
  {
    assert s[i..][..|r|] == s[i..j];
    forall k | j <= k < |s|
      ensures IsSpace(s[k])
    {
      assert s[k] == l[k - i];
    }
  }

  /** Number of occurrences of `c` in `s`. */
  function Count(s: string, c: char): (n: nat)
    ensures n == 0 <==> c !in s
  {
    if s == [] then 0 else (if s[0] == c then 1 else 0) + Count(s[1..], c)
  }

  /** The pieces of `s` between occurrences of `c`, rejoined with `c`. */
  function Join(pieces: seq<string>, c: char): string
    requires |pieces| > 0
  {
    if |pieces| == 1 then pieces[0] else pieces[0] + [c] + Join(pieces[1..], c)
  }

  /** `s.split(c)` for a one-character separator: one piece more than there are
      separators, no piece holds the separator, and joining the pieces gives `s` back. */
  function Split(s: string, c: char): (r: seq<string>)
    ensures |r| == Count(s, c) + 1
    ensures forall i :: 0 <= i < |r| ==> c !in r[i]
    ensures Join(r, c) == s
  {
    if s == [] then [[]]
    else
      var rest := Split(s[1..], c);
      assert [s[0]] + s[1..] == s;
      if s[0] == c then
        JoinAfterSeparator(rest, c);
        [[]] + rest
      else
        JoinOntoFirst(s[0], rest, c);
        [[s[0]] + rest[0]] + rest[1..]
  }

  lemma JoinAfterSeparator(rest: seq<string>, c: char)
    requires |rest| > 0
    ensures Join([[]] + rest, c) == [c] + Join(rest, c)
  {
    assert ([[]] + rest)[1..] == rest;
  }

  lemma JoinOntoFirst(a: char, rest: seq<string>, c: char)
    requires |rest| > 0
    ensures Join([[a] + rest[0]] + rest[1..], c) == [a] + Join(rest, c)
  {
    var r := [[a] + rest[0]] + rest[1..];
    assert r[1..] == rest[1..];
  }

  /** Splitting a separator-free string yields that string alone. */
  lemma {:induction false} SplitWithout(s: string, c: char)
    requires c !in s
    ensures Split(s, c) == [s]
  {
    if s != [] {
      SplitWithout(s[1..], c);
      assert [s[0]] + s[1..] == s;
    }
  }

  /** Splitting at a separator preceded by a separator-free prefix peels that prefix off. */
  lemma {:induction false} SplitAround(a: string, b: string, c: char)
    requires c !in a
    ensures Split(a + [c] + b, c) == [a] + Split(b, c)
  {
    var s := a + [c] + b;
    if a == [] {
      assert s[1..] == b;
    } else {
      var t := a[1..] + [c] + b;
      assert s == [a[0]] + t;
      SplitAround(a[1..], b, c);
      SplitCons(a[0], t, c);
      assert [a[0]] + a[1..] == a;
    }
  }

  /** A non-separator in front joins the first piece. */
  lemma SplitCons(x: char, t: string, c: char)
    requires x != c
    ensures var r := Split(t, c); Split([x] + t, c) == [[x] + r[0]] + r[1..]
  {
    assert ([x] + t)[1..] == t;
  }

  /** A string with exactly one separator splits into the two sides of it. */
  lemma SplitOnce(a: string, b: string, c: char)
    requires c !in a && c !in b
    ensures Split(a + [c] + b, c) == [a, b]
    ensures c in a + [c] + b
  {
    SplitAround(a, b, c);
    SplitWithout(b, c);
    assert (a + [c] + b)[|a|] == c;
  }

  /** `s.replace(a, b)` for single characters: every `a` becomes `b`, nothing else moves. */
  function Replace(s: string, a: char, b: char): (r: string)
    ensures |r| == |s|
    ensures forall i :: 0 <= i < |s| ==> r[i] == (if s[i] == a then b else s[i])
    ensures a != b ==> a !in r
  {
    if s == [] then []
    else [if s[0] == a then b else s[0]] + Replace(s[1..], a, b)
  }
}
