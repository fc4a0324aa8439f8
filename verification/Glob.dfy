/** The meaning of a UMEX part: a `*` glob, and the laws that make a leftmost
    greedy search complete for it. */
module Globs {

  const STAR := 0x2a

  /** p matches the whole of s; `*` stands for any run of characters. */
  ghost predicate Glob(p: seq<int>, s: seq<int>)
    decreases |p| + |s|
  {
    if p == [] then s == []
    else if p[0] == STAR then Glob(p[1..], s) || (s != [] && Glob(p, s[1..]))
    else s != [] && s[0] == p[0] && Glob(p[1..], s[1..])
  }

  /** The same, for the pattern from i on and the text from a to b. */
  ghost predicate GlobAt(p: seq<int>, i: nat, t: seq<int>, a: nat, b: nat)
    requires i <= |p| && a <= b <= |t|
    decreases |p| - i + b - a
  {
    if i == |p| then a == b
    else if p[i] == STAR then GlobAt(p, i + 1, t, a, b) || (a < b && GlobAt(p, i, t, a + 1, b))
    else a < b && t[a] == p[i] && GlobAt(p, i + 1, t, a + 1, b)
  }

  lemma {:induction false} GlobAtIs(p: seq<int>, i: nat, t: seq<int>, a: nat, b: nat)
    requires i <= |p| && a <= b <= |t|
    ensures GlobAt(p, i, t, a, b) <==> Glob(p[i..], t[a..b])
    decreases |p| - i + b - a
  {
    if i < |p| {
      assert p[i..][1..] == p[i + 1..];
      if a < b {
        assert t[a..b][1..] == t[a + 1..b];
        if p[i] == STAR { GlobAtIs(p, i, t, a + 1, b); } else { GlobAtIs(p, i + 1, t, a + 1, b); }
      }
      if p[i] == STAR { GlobAtIs(p, i + 1, t, a, b); }
    }
  }

  /** No star from i up to k. */
  predicate NoStar(p: seq<int>, i: nat, k: nat)
    requires k <= |p|
  {
    forall x :: i <= x < k ==> p[x] != STAR
  }

  /** Index of the first `*` from i on, or |p|. */
  function FirstStar(p: seq<int>, i: nat): (k: nat)
    requires i <= |p|
    ensures i <= k <= |p| && NoStar(p, i, k)
    ensures k < |p| ==> p[k] == STAR
    decreases |p| - i
  {
    if i == |p| || p[i] == STAR then i else FirstStar(p, i + 1)
  }

  /** The literal p[i..k) stands in the text at c. */
  predicate LitAt(p: seq<int>, i: nat, k: nat, t: seq<int>, c: nat)
    requires i <= k <= |p| && c + (k - i) <= |t|
  {
    forall x :: i <= x < k ==> t[c + (x - i)] == p[x]
  }

  /** A literal in the pattern matches itself. */
  lemma {:induction false} GlobLiteral(p: seq<int>, i: nat, k: nat, t: seq<int>, a: nat, b: nat)
    requires i <= k <= |p| && a <= b <= |t| && NoStar(p, i, k)
    ensures GlobAt(p, i, t, a, b) <==>
      a + (k - i) <= b && LitAt(p, i, k, t, a) && GlobAt(p, k, t, a + (k - i), b)
    decreases k - i
  {
    if i < k && a < b {
      GlobLiteral(p, i + 1, k, t, a + 1, b);
      if a + (k - i) <= b && t[a] == p[i] {
        assert LitAt(p, i, k, t, a) <==> LitAt(p, i + 1, k, t, a + 1) by {
          if LitAt(p, i, k, t, a) {
            forall x | i + 1 <= x < k ensures t[a + 1 + (x - (i + 1))] == p[x] { assert t[a + (x - i)] == p[x]; }
          }
          if LitAt(p, i + 1, k, t, a + 1) {
            forall x | i <= x < k ensures t[a + (x - i)] == p[x] { if x > i { assert t[a + 1 + (x - (i + 1))] == p[x]; } }
          }
        }
      }
    }
  }

  /** What a starred pattern accepts, it accepts with more text in front. */
  lemma {:induction false} GlobStarMore(p: seq<int>, i: nat, t: seq<int>, a: nat, c: nat, b: nat)
    requires i < |p| && p[i] == STAR && a <= c <= b <= |t| && GlobAt(p, i, t, c, b)
    ensures GlobAt(p, i, t, a, b)
    decreases c - a
  {
    if a < c { GlobStarMore(p, i, t, a + 1, c, b); }
  }

  /** A star skips some prefix of the text. */
  lemma {:induction false} GlobStarSkips(p: seq<int>, i: nat, t: seq<int>, a: nat, b: nat) returns (c: nat)
    requires i < |p| && p[i] == STAR && a <= b <= |t| && GlobAt(p, i, t, a, b)
    ensures a <= c <= b && GlobAt(p, i + 1, t, c, b)
    decreases b - a
  {
    if GlobAt(p, i + 1, t, a, b) { c := a; } else { c := GlobStarSkips(p, i, t, a + 1, b); }
  }

  // ---- Leftmost occurrence ---------------------------------------------------

  predicate OccursAt(t: seq<int>, c: nat, b: nat, l: seq<int>) {
    c + |l| <= b <= |t| && forall x :: 0 <= x < |l| ==> t[c + x] == l[x]
  }

  /** strstr: the first place from a on where l stands before b, or -1. */
  function StrStr(t: seq<int>, a: nat, b: nat, l: seq<int>): (c: int)
    requires b <= |t|
    ensures c == -1 || (a <= c && OccursAt(t, c, b, l))
    ensures forall d :: a <= d && (c == -1 || d < c) ==> !OccursAt(t, d, b, l)
    decreases b - a
  {
    if a + |l| > b then -1
    else if OccursAt(t, a, b, l) then a
    else StrStr(t, a + 1, b, l)
  }

  /** Searching `*l*` leftmost loses nothing: if any occurrence of l leaves a
      text that the rest accepts, the first one does.  The stars are at i and k. */
  lemma GreedyFind(p: seq<int>, i: nat, k: nat, t: seq<int>, a: nat, b: nat)
    requires i < k < |p| && p[i] == STAR && p[k] == STAR && NoStar(p, i + 1, k) && a <= b <= |t|
    ensures GlobAt(p, i, t, a, b) <==>
      var c := StrStr(t, a, b, p[i + 1..k]); c != -1 && GlobAt(p, k, t, c + (k - i - 1), b)
  {
    var l, n := p[i + 1..k], k - i - 1;
    var c := StrStr(t, a, b, l);
    if GlobAt(p, i, t, a, b) {
      var d := GlobStarSkips(p, i, t, a, b);
      GlobLiteral(p, i + 1, k, t, d, b);
      LitOccurs(p, i + 1, k, t, d, b);
      GlobStarMore(p, k, t, c + n, d + n, b);
    }
    if c != -1 && GlobAt(p, k, t, c + n, b) {
      LitOccurs(p, i + 1, k, t, c, b);
      GlobLiteral(p, i + 1, k, t, c, b);
      GlobStarMore(p, i, t, a, c, b);
    }
  }

  lemma LitOccurs(p: seq<int>, i: nat, k: nat, t: seq<int>, c: nat, b: nat)
    requires i <= k <= |p| && c + (k - i) <= b <= |t|
    ensures LitAt(p, i, k, t, c) <==> OccursAt(t, c, b, p[i..k])
  {
    if OccursAt(t, c, b, p[i..k]) {
      forall x | i <= x < k ensures t[c + (x - i)] == p[x] { assert p[i..k][x - i] == p[x]; }
    }
    if LitAt(p, i, k, t, c) {
      forall x | 0 <= x < k - i ensures t[c + x] == p[i..k][x] { assert t[c + (i + x - i)] == p[i + x]; }
    }
  }

  /** `*l` at the end of a pattern: l stands at the end of the text. */
  lemma GlobSuffix(p: seq<int>, i: nat, t: seq<int>, a: nat, b: nat)
    requires i < |p| && p[i] == STAR && NoStar(p, i + 1, |p|) && a <= b <= |t|
    ensures GlobAt(p, i, t, a, b) <==> var n := |p| - i - 1; n <= b - a && LitAt(p, i + 1, |p|, t, b - n)
  {
    var n := |p| - i - 1;
    if GlobAt(p, i, t, a, b) {
      var c := GlobStarSkips(p, i, t, a, b);
      GlobLiteral(p, i + 1, |p|, t, c, b);
    }
    if n <= b - a && LitAt(p, i + 1, |p|, t, b - n) {
      GlobLiteral(p, i + 1, |p|, t, b - n, b);
      GlobStarMore(p, i, t, a, b - n, b);
    }
  }
}
