/** The set of keys behind the URL cache (mtrie.c): folded characters, the
    path-compressed tree a cache denotes, and what a change at one node of that
    tree does to the stored set.  The heap form is in TrieHeap and MTrie. */
module TrieTree {

  // ---- Folding -------------------------------------------------------------

  /** A character the cache accepts: URL-encoded text, 0x21..0x7f. */
  predicate Printable(x: int) { 0x21 <= x <= 0x7f }

  predicate AllPrintable(s: seq<int>) { forall i :: 0 <= i < |s| ==> Printable(s[i]) }

  /** MTRIE_OFFS: bit 6 of x-32 selects the second table half; '_' is moved to code 2. */
  function Fold(x: int): (c: int)
    requires Printable(x)
    ensures 1 <= c <= 63
  {
    if x == '_' as int then 2 else if ((x - 32) / 0x40) % 2 == 1 then x - 64 else x - 32
  }

  function FoldAll(s: seq<int>): (k: seq<int>)
    requires AllPrintable(s)
    ensures |k| == |s|
    ensures forall i :: 0 <= i < |k| ==> k[i] == Fold(s[i]) && 1 <= k[i] <= 63
  {
    seq(|s|, i requires 0 <= i < |s| => Fold(s[i]))
  }

  /** One letter in two cases; '@', '[', '\', ']' or '^' and the character 32 places
      above; or '_' and '"'. */
  predicate SameChar(x: int, y: int) {
    || x == y
    || (x + 32 == y && 0x40 <= x <= 0x5e)
    || (y + 32 == x && 0x40 <= y <= 0x5e)
    || {x, y} == {0x5f, 0x22}
  }

  /** Folding is case-insensitive on letters, and a few other pairs share a code. */
  lemma FoldCollisions(x: int, y: int)
    requires Printable(x) && Printable(y)
    ensures Fold(x) == Fold(y) <==> SameChar(x, y)
  {
    assert {x, y} == {0x5f, 0x22} <==> (x == 0x5f && y == 0x22) || (x == 0x22 && y == 0x5f) by {
      assert x in {x, y} && y in {x, y};
      assert 0x5f in {0x5f, 0x22} && 0x22 in {0x5f, 0x22};
    }
  }

  // ---- Packed characters ---------------------------------------------------

  /** Low six bits of a stored character or magic number. */
  function Low6(b: int): int { b % 0x40 }

  /** Bit 0x40: the match flag stolen from a stored character. */
  predicate Marked(b: int) { (b / 0x40) % 2 == 1 }

  predicate PackedChars(s: seq<int>) { forall i :: 0 <= i < |s| ==> 0 <= s[i] < 0x80 && Low6(s[i]) != 0 }

  function Codes(s: seq<int>): (k: seq<int>)
    ensures |k| == |s|
  {
    seq(|s|, i requires 0 <= i < |s| => Low6(s[i]))
  }

  predicate Agree(s: seq<int>, k: seq<int>)
    requires |k| <= |s|
  {
    forall i :: 0 <= i < |k| ==> Low6(s[i]) == k[i]
  }

  // ---- Trees ---------------------------------------------------------------

  datatype Kid = Kid(c: int, t: Tree)

  datatype Link = Direct | Via(addr: nat, s: seq<int>)

  /** What a node of the cache stands for.  `term` is the node's own match flag;
      the addresses name the heap blocks that hold the node's parts. */
  datatype Tree =
    | Empty(term: bool)
    | Leaf(term: bool, addr: nat, s: seq<int>)
    | Inner(term: bool, link: Link, b: nat, kids: seq<Kid>)

  function Label(l: Link): seq<int> { if l.Direct? then [] else l.s }

  predicate Sorted(kids: seq<Kid>) {
    forall i, j :: 0 <= i < j < |kids| ==> kids[i].c < kids[j].c
  }

  /** Leaves are non-empty; branches are strictly sorted with at least two
      children; sizes fit the 16-bit size fields. */
  ghost predicate WF(t: Tree) {
    match t
    case Empty(_) => true
    case Leaf(_, _, s) => 1 <= |s| <= 0xFFFF && PackedChars(s)
    case Inner(_, link, _, kids) =>
      && |Label(link)| <= 0xFFFF && PackedChars(Label(link))
      && 2 <= |kids| && Sorted(kids)
      && (forall i :: 0 <= i < |kids| ==> 1 <= kids[i].c <= 63 && WF(kids[i].t))
  }

  /** A sorted branch has at most 63 children, so the count fits the six low
      bits of the magic number and an insertion never carries into a flag. */
  lemma {:induction false} BranchCountFits(kids: seq<Kid>)
    requires Sorted(kids)
    requires forall i :: 0 <= i < |kids| ==> 1 <= kids[i].c <= 63
    ensures |kids| <= 63
    ensures kids != [] ==> kids[|kids| - 1].c >= |kids|
  {
    if |kids| > 0 {
      var r := kids[..|kids| - 1];
      BranchCountFits(r);
      if |r| > 0 { assert kids[|r| - 1].c < kids[|r|].c; }
    }
  }

  /** k is stored below t. */
  ghost predicate Has(t: Tree, k: seq<int>)
    decreases |k|, 1
  {
    if k == [] then t.term else
    match t
    case Empty(_) => false
    case Leaf(_, _, s) => |k| <= |s| && Agree(s, k) && (|k| == |s| || Marked(s[|k| - 1]))
    case Inner(_, link, _, kids) =>
      var s := Label(link);
      if |k| <= |s| then Agree(s, k) && Marked(s[|k| - 1])
      else Agree(s, k[..|s|]) && HasKid(kids, k[|s|..])
  }

  ghost predicate HasKid(kids: seq<Kid>, k: seq<int>)
    requires k != []
    decreases |k|, 0
  {
    exists i :: 0 <= i < |kids| && kids[i].c == k[0] && Has(kids[i].t, k[1..])
  }

  lemma HasKidAt(kids: seq<Kid>, i: nat, k: seq<int>)
    requires Sorted(kids) && i < |kids| && k != [] && kids[i].c == k[0]
    ensures HasKid(kids, k) <==> Has(kids[i].t, k[1..])
  {
    forall j | 0 <= j < |kids| && kids[j].c == k[0]
      ensures j == i
    {}
  }

  // ---- Paths ---------------------------------------------------------------

  ghost predicate ValidPath(t: Tree, p: seq<nat>)
    decreases |p|
  {
    p == [] || (t.Inner? && p[0] < |t.kids| && ValidPath(t.kids[p[0]].t, p[1..]))
  }

  ghost function Sub(t: Tree, p: seq<nat>): Tree
    requires ValidPath(t, p)
    decreases |p|
  {
    if p == [] then t else Sub(t.kids[p[0]].t, p[1..])
  }

  /** The codes consumed on the way from t down to the node at p. */
  ghost function PathKey(t: Tree, p: seq<nat>): seq<int>
    requires ValidPath(t, p)
    decreases |p|
  {
    if p == [] then [] else
    Codes(Label(t.link)) + [t.kids[p[0]].c] + PathKey(t.kids[p[0]].t, p[1..])
  }

  ghost function Update(t: Tree, p: seq<nat>, u: Tree): Tree
    requires ValidPath(t, p)
    decreases |p|
  {
    if p == [] then u else
    var k := t.kids[p[0]];
    t.(kids := t.kids[p[0] := Kid(k.c, Update(k.t, p[1..], u))])
  }

  lemma {:induction false} PathSnoc(t: Tree, p: seq<nat>, i: nat)
    requires ValidPath(t, p) && Sub(t, p).Inner? && i < |Sub(t, p).kids|
    ensures ValidPath(t, p + [i])
    ensures Sub(t, p + [i]) == Sub(t, p).kids[i].t
    ensures PathKey(t, p + [i]) == PathKey(t, p) + Codes(Label(Sub(t, p).link)) + [Sub(t, p).kids[i].c]
    decreases |p|
  {
    if p == [] {
      assert [i][1..] == [];
    } else {
      PathSnoc(t.kids[p[0]].t, p[1..], i);
      assert (p + [i])[1..] == p[1..] + [i];
    }
  }

  lemma {:induction false} UpdateSub(t: Tree, p: seq<nat>, u: Tree)
    requires ValidPath(t, p)
    ensures ValidPath(Update(t, p, u), p)
    ensures Sub(Update(t, p, u), p) == u
    ensures PathKey(Update(t, p, u), p) == PathKey(t, p)
    decreases |p|
  {
    if p != [] { UpdateSub(t.kids[p[0]].t, p[1..], u); }
  }

  lemma {:induction false} UpdateWF(t: Tree, p: seq<nat>, u: Tree)
    requires ValidPath(t, p) && WF(t) && WF(u)
    ensures WF(Sub(t, p)) && WF(Update(t, p, u))
    decreases |p|
  {
    if p != [] { UpdateWF(t.kids[p[0]].t, p[1..], u); }
  }

  /** Changing the subtree at p changes membership of the keys that pass
      through p, and of no other key. */
  lemma {:induction false} HasUpdate(t: Tree, p: seq<nat>, u: Tree, j: seq<int>)
    requires ValidPath(t, p) && WF(t)
    ensures Has(Update(t, p, u), j) <==>
      if PathKey(t, p) <= j then Has(u, j[|PathKey(t, p)|..]) else Has(t, j)
    decreases |p|
  {
    if p == [] {
      assert j[0..] == j;
    } else {
      var s, kid := Label(t.link), t.kids[p[0]];
      if |s| < |j| {
        var r := j[|s|..];
        if r[0] == kid.c {
          HasUpdate(kid.t, p[1..], u, r[1..]);
        }
        HasUpdateBelow(t, p, u, j, s, r, kid, PathKey(kid.t, p[1..]));
      }
    }
  }

  /** The same for a key that goes on below the node, given the child's case. */
  lemma HasUpdateBelow(t: Tree, p: seq<nat>, u: Tree, j: seq<int>, s: seq<int>, r: seq<int>, kid: Kid, pk: seq<int>)
    requires ValidPath(t, p) && WF(t) && p != [] && s == Label(t.link) && |s| < |j| && r == j[|s|..]
    requires kid == t.kids[p[0]] && pk == PathKey(kid.t, p[1..])
    requires r[0] == kid.c ==> (Has(Update(kid.t, p[1..], u), r[1..]) <==>
      if pk <= r[1..] then Has(u, r[1..][|pk|..]) else Has(kid.t, r[1..]))
    ensures Has(Update(t, p, u), j) <==>
      if PathKey(t, p) <= j then Has(u, j[|PathKey(t, p)|..]) else Has(t, j)
  {
    PrefixSplit(Codes(s), kid.c, pk, j);
    assert Codes(s) == j[..|s|] <==> Agree(s, j[..|s|]);
    HasKidUpdate(t.kids, p[0], Update(kid.t, p[1..], u), r);
    if PathKey(t, p) <= j {
      assert j[|PathKey(t, p)|..] == r[1..][|pk|..];
    }
  }

  lemma HasKidUpdate(kids: seq<Kid>, i: nat, u: Tree, r: seq<int>)
    requires Sorted(kids) && i < |kids| && r != []
    ensures HasKid(kids[i := Kid(kids[i].c, u)], r) <==>
      if r[0] == kids[i].c then Has(u, r[1..]) else HasKid(kids, r)
    ensures r[0] == kids[i].c ==> (HasKid(kids, r) <==> Has(kids[i].t, r[1..]))
  {
    var kids' := kids[i := Kid(kids[i].c, u)];
    if r[0] == kids[i].c {
      HasKidAt(kids, i, r);
      HasKidAt(kids', i, r);
    } else {
      forall x | 0 <= x < |kids| && x != i ensures kids'[x] == kids[x] {}
    }
  }

  lemma PrefixSplit(a: seq<int>, c: int, b: seq<int>, j: seq<int>)
    requires |a| < |j|
    ensures a + [c] + b <= j <==> a == j[..|a|] && j[|a|] == c && b <= j[|a|..][1..]
  {
    var w := a + [c] + b;
    if w <= j {
      assert w == j[..|w|];
      assert a == w[..|a|] == j[..|a|];
      assert w[|a|] == c;
      assert b == w[|a| + 1..];
      assert j[|a|..][1..] == j[|a| + 1..];
      assert b == j[|a| + 1..][..|b|];
    }
    if a == j[..|a|] && j[|a|] == c && b <= j[|a|..][1..] {
      assert j[|a|..][1..] == j[|a| + 1..];
      assert j[..|w|] == w;
    }
  }

  /** Membership of a key that passes through p is membership of its rest below p. */
  lemma HasThrough(t: Tree, p: seq<nat>, r: seq<int>)
    requires ValidPath(t, p) && WF(t)
    ensures Has(t, PathKey(t, p) + r) <==> Has(Sub(t, p), r)
  {
    var j := PathKey(t, p) + r;
    UpdateSelf(t, p);
    HasUpdate(t, p, Sub(t, p), j);
    assert j[|PathKey(t, p)|..] == r;
  }

  lemma {:induction false} UpdateSelf(t: Tree, p: seq<nat>)
    requires ValidPath(t, p)
    ensures Update(t, p, Sub(t, p)) == t
    decreases |p|
  {
    if p != [] { UpdateSelf(t.kids[p[0]].t, p[1..]); }
  }

  // ---- Local changes -------------------------------------------------------

  /** The link left above position x when a string is split there. */
  function Head(a: nat, s: seq<int>, x: nat): Link
    requires x < |s|
  {
    if x == 0 then Direct else Via(a, s[..x])
  }

  /** Two kids in code order. */
  function Pair(c1: int, t1: Tree, c2: int, t2: Tree): seq<Kid> {
    if c1 > c2 then [Kid(c2, t2), Kid(c1, t1)] else [Kid(c1, t1), Kid(c2, t2)]
  }

  /** The rest of a leaf or of a multi-character connection below position x,
      kept in the block a. */
  function Tail(t: Tree, x: nat, a: nat): Tree
    requires t.Leaf? || (t.Inner? && t.link.Via?)
    requires x < |TextOf(t)|
  {
    var s := TextOf(t);
    if t.Inner? then Inner(Marked(s[x]), Via(a, s[x + 1..]), t.b, t.kids)
    else if x + 1 == |s| then Empty(true)
    else Leaf(Marked(s[x]), a, s[x + 1..])
  }

  function TextOf(t: Tree): seq<int> {
    match t
    case Empty(_) => []
    case Leaf(_, _, s) => s
    case Inner(_, l, _, _) => Label(l)
  }

  /** The node that replaces t when t is split at x to make room for c1. */
  function SplitTree(t: Tree, x: nat, c1: int, conn: nat, br: nat, a: nat): Tree
    requires t.Leaf? || (t.Inner? && t.link.Via?)
    requires x < |TextOf(t)|
  {
    Inner(t.term, Head(conn, TextOf(t), x), br, Pair(c1, Empty(false), Low6(TextOf(t)[x]), Tail(t, x, a)))
  }

  lemma SplitWF(t: Tree, x: nat, c1: int, conn: nat, br: nat, a: nat)
    requires WF(t) && (t.Leaf? || (t.Inner? && t.link.Via?)) && x < |TextOf(t)|
    requires 1 <= c1 <= 63 && c1 != Low6(TextOf(t)[x])
    ensures WF(Tail(t, x, a)) && WF(SplitTree(t, x, c1, conn, br, a))
  {
    var u := SplitTree(t, x, c1, conn, br, a);
    assert forall i :: 0 <= i < |u.kids| ==> 1 <= u.kids[i].c <= 63 && WF(u.kids[i].t);
  }

  lemma TailHasEnd(t: Tree, x: nat, a: nat, r: seq<int>)
    requires WF(t) && (t.Leaf? || (t.Inner? && t.link.Via?)) && |r| == x + 1 <= |TextOf(t)|
    requires Agree(TextOf(t), r[..x + 1])
    ensures Has(t, r) <==> Has(Tail(t, x, a), r[x + 1..])
  {
    assert r == r[..x + 1] && r[x + 1..] == [];
    HasInText(t, r);
  }

  /** Below the split point a key keeps its membership. */
  lemma TailHas(t: Tree, x: nat, a: nat, r: seq<int>)
    requires WF(t) && (t.Leaf? || (t.Inner? && t.link.Via?)) && x < |TextOf(t)|
    requires |r| > x && Agree(TextOf(t), r[..x + 1])
    ensures Has(t, r) <==> Has(Tail(t, x, a), r[x + 1..])
  {
    if |r| == x + 1 {
      TailHasEnd(t, x, a, r);
    } else if |r| <= |TextOf(t)| {
      TailHasWithin(t, x, a, r);
    } else if t.Inner? {
      TailHasBeyond(t, x, a, r);
    }
  }

  lemma TailHasWithin(t: Tree, x: nat, a: nat, r: seq<int>)
    requires WF(t) && (t.Leaf? || (t.Inner? && t.link.Via?))
    requires x + 1 < |r| <= |TextOf(t)| && Agree(TextOf(t), r[..x + 1])
    ensures Has(t, r) <==> Has(Tail(t, x, a), r[x + 1..])
  {
    var s, v, w := TextOf(t), Tail(t, x, a), r[x + 1..];
    assert TextOf(v) == s[x + 1..] && s[x + 1..][|w| - 1] == s[|r| - 1];
    assert Has(t, r) <==> Agree(s[x + 1..], w) && ((t.Leaf? && |r| == |s|) || Marked(s[|r| - 1])) by {
      AgreeSplit(s, r, x + 1);
      HasInText(t, r);
    }
    HasInText(v, w);
  }

  /** Membership of a key that ends in the string on a node. */
  lemma HasInText(t: Tree, r: seq<int>)
    requires (t.Leaf? || t.Inner?) && 0 < |r| <= |TextOf(t)|
    ensures Has(t, r) <==> Agree(TextOf(t), r) && ((t.Leaf? && |r| == |t.s|) || Marked(TextOf(t)[|r| - 1]))
  {}

  /** A key that goes on after the text, split inside the text. */
  lemma BeyondAgrees(s: seq<int>, r: seq<int>, x: nat)
    requires x < |s| < |r| && Agree(s, r[..x + 1])
    ensures var w, k := r[x + 1..], |s| - x - 1;
      (Agree(s, r[..|s|]) <==> Agree(s[x + 1..], w[..k])) && r[|s|..] == w[k..]
  {
    AgreeSplit(s, r[..|s|], x + 1);
    assert r[..|s|][x + 1..] == r[x + 1..][..|s| - x - 1];
    assert r[..|s|][..x + 1] == r[..x + 1];
  }

  lemma TailHasBeyond(t: Tree, x: nat, a: nat, r: seq<int>)
    requires t.Inner? && t.link.Via? && x < |t.link.s| < |r|
    requires Agree(t.link.s, r[..x + 1])
    ensures Has(t, r) <==> Has(Tail(t, x, a), r[x + 1..])
  {
    var s := t.link.s;
    BeyondAgrees(s, r, x);
    assert Label(Tail(t, x, a).link) == s[x + 1..];
    assert Has(t, r) <==> Agree(s, r[..|s|]) && HasKid(t.kids, r[|s|..]);
  }

  lemma AgreeSplit(s: seq<int>, r: seq<int>, x: nat)
    requires x <= |r| <= |s|
    ensures Agree(s, r) <==> Agree(s, r[..x]) && Agree(s[x..], r[x..])
  {
    if Agree(s, r[..x]) && Agree(s[x..], r[x..]) {
      forall i | 0 <= i < |r| ensures Low6(s[i]) == r[i] {
        if i < x { assert r[..x][i] == r[i]; }
        else { assert s[x..][i - x] == s[i] && r[x..][i - x] == r[i]; }
      }
    }
  }

  /** A key against the text before, at and after the place of a split. */
  lemma SplitAgrees(s: seq<int>, r: seq<int>, x: nat)
    requires x < |s| && x < |r|
    ensures Agree(s[..x], r[..x]) <==> Agree(s, r[..x])
    ensures Agree(s, r[..x + 1]) <==> Agree(s, r[..x]) && r[x..][0] == Low6(s[x])
    ensures r[x..][1..] == r[x + 1..]
  {
    assert forall i :: 0 <= i < x ==> s[..x][i] == s[i];
    AgreeSplit(s, r[..x + 1], x);
    assert r[..x + 1][..x] == r[..x];
    assert r[..x + 1][x..] == [r[x..][0]];
    assert s[x..][0] == s[x];
  }

  /** A split stores the same keys. */
  lemma SplitHas(t: Tree, x: nat, c1: int, conn: nat, br: nat, a: nat, r: seq<int>)
    requires WF(t) && (t.Leaf? || (t.Inner? && t.link.Via?)) && x < |TextOf(t)|
    requires 1 <= c1 <= 63 && c1 != Low6(TextOf(t)[x])
    ensures Has(SplitTree(t, x, c1, conn, br, a), r) <==> Has(t, r)
  {
    SplitWF(t, x, c1, conn, br, a);
    var u, s := SplitTree(t, x, c1, conn, br, a), TextOf(t);
    var v := if c1 > Low6(s[x]) then 1 else 0;
    var head := Label(u.link);
    assert head == s[..x];
    if |r| <= x {
      if r != [] {
        assert forall i :: 0 <= i < |r| ==> head[i] == s[i];
      }
    } else {
      var w := r[x..];
      SplitAgrees(s, r, x);
      if w[0] == c1 {
        HasKidAt(u.kids, v, w);
        if w[1..] != [] { assert !Has(Empty(false), w[1..]); }
        NotAgree(t, x, r);
      } else if w[0] == Low6(s[x]) {
        HasKidAt(u.kids, 1 - v, w);
        if Agree(s, r[..x + 1]) { TailHas(t, x, a, r); } else { NotAgree(t, x, r); }
      } else {
        NotAgree(t, x, r);
      }
    }
  }

  lemma NotAgree(t: Tree, x: nat, r: seq<int>)
    requires (t.Leaf? || t.Inner?) && x < |TextOf(t)| && x < |r|
    ensures !Agree(TextOf(t), r[..x + 1]) ==> !Has(t, r)
  {
    var s := TextOf(t);
    if !Agree(s, r[..x + 1]) {
      var i :| 0 <= i <= x && Low6(s[i]) != r[..x + 1][i];
      assert r[i] == r[..x + 1][i];
      if |r| <= |s| {
        assert !Agree(s, r);
      } else {
        assert r[..|s|][i] == r[i];
        assert !Agree(s, r[..|s|]);
      }
    }
  }

  /** The branch t with an empty child for c put at position x. */
  function AddKid(t: Tree, x: nat, c: int, b: nat): Tree
    requires t.Inner? && x <= |t.kids|
  {
    Inner(t.term, t.link, b, t.kids[..x] + [Kid(c, Empty(false))] + t.kids[x..])
  }

  predicate InsertionPoint(kids: seq<Kid>, x: nat, c: int) {
    && x <= |kids|
    && (forall i :: 0 <= i < x ==> kids[i].c < c)
    && (forall i :: x <= i < |kids| ==> c < kids[i].c)
  }

  lemma AddKidSorted(kids: seq<Kid>, x: nat, kid: Kid, c: int)
    requires Sorted(kids) && InsertionPoint(kids, x, c) && kid.c == c
    ensures Sorted(kids[..x] + [kid] + kids[x..])
  {
    var more := kids[..x] + [kid] + kids[x..];
    forall i, j | 0 <= i < j < |more| ensures more[i].c < more[j].c {
      if i > x { assert more[i] == kids[i - 1]; } else if i < x { assert more[i] == kids[i]; }
      if j > x { assert more[j] == kids[j - 1]; } else if j < x { assert more[j] == kids[j]; }
    }
  }

  lemma AddKidWF(t: Tree, x: nat, c: int, b: nat)
    requires WF(t) && t.Inner? && InsertionPoint(t.kids, x, c) && 1 <= c <= 63
    ensures WF(AddKid(t, x, c, b))
  {
    var u := AddKid(t, x, c, b);
    AddKidSorted(t.kids, x, Kid(c, Empty(false)), c);
    forall i | 0 <= i < |u.kids| ensures 1 <= u.kids[i].c <= 63 && WF(u.kids[i].t) {
      if i > x { assert u.kids[i] == t.kids[i - 1]; }
    }
  }

  /** An empty child stores nothing. */
  lemma AddKidHas(t: Tree, x: nat, c: int, b: nat, r: seq<int>)
    requires WF(t) && t.Inner? && InsertionPoint(t.kids, x, c) && 1 <= c <= 63
    ensures Has(AddKid(t, x, c, b), r) <==> Has(t, r)
  {
    var s := Label(t.link);
    if |s| < |r| {
      AddKidHasKid(t, x, c, b, r[|s|..]);
    }
  }

  lemma KidKept(kids: seq<Kid>, x: nat, kid: Kid, w: seq<int>)
    requires x <= |kids| && w != []
    ensures HasKid(kids, w) ==> HasKid(kids[..x] + [kid] + kids[x..], w)
  {
    var more := kids[..x] + [kid] + kids[x..];
    if HasKid(kids, w) {
      var i :| 0 <= i < |kids| && kids[i].c == w[0] && Has(kids[i].t, w[1..]);
      assert more[if i < x then i else i + 1] == kids[i];
    }
  }

  lemma KidNotNew(kids: seq<Kid>, x: nat, kid: Kid, w: seq<int>)
    requires x <= |kids| && w != [] && kid.t == Empty(false)
    ensures HasKid(kids[..x] + [kid] + kids[x..], w) ==> HasKid(kids, w)
  {
    var more := kids[..x] + [kid] + kids[x..];
    if HasKid(more, w) {
      var i :| 0 <= i < |more| && more[i].c == w[0] && Has(more[i].t, w[1..]);
      assert more[x] == kid && i != x;
      assert more[i] == kids[if i < x then i else i - 1];
    }
  }

  lemma AddKidHasKid(t: Tree, x: nat, c: int, b: nat, w: seq<int>)
    requires t.Inner? && x <= |t.kids| && w != []
    ensures HasKid(AddKid(t, x, c, b).kids, w) <==> HasKid(t.kids, w)
  {
    KidKept(t.kids, x, Kid(c, Empty(false)), w);
    KidNotNew(t.kids, x, Kid(c, Empty(false)), w);
  }

  /** u stores what t stores, and r. */
  ghost predicate Adds(t: Tree, u: Tree, r: seq<int>) {
    forall q :: Has(u, q) <==> Has(t, q) || q == r
  }

  lemma SetTermAdds(t: Tree)
    requires WF(t)
    ensures WF(t.(term := true)) && Adds(t, t.(term := true), [])
  {}

  lemma NewLeafAdds(t: Tree, a: nat, r: seq<int>)
    requires t.Empty? && 1 <= |r| <= 0xFFFF
    requires forall i :: 0 <= i < |r| ==> 1 <= r[i] <= 63
    ensures WF(Leaf(t.term, a, r)) && Adds(t, Leaf(t.term, a, r), r)
  {
    forall q ensures Has(Leaf(t.term, a, r), q) <==> Has(t, q) || q == r {
      if q != [] && |q| == |r| {
        assert Agree(r, q) <==> q == r;
      }
    }
  }

  /** Flagging position i of the string on a node stores the key that ends there. */
  function MarkAt(t: Tree, i: nat): Tree
    requires (t.Leaf? || (t.Inner? && t.link.Via?)) && i < |TextOf(t)|
  {
    var s := TextOf(t);
    var s' := if Marked(s[i]) then s else s[i := s[i] + 0x40];
    if t.Leaf? then t.(s := s') else t.(link := Via(t.link.addr, s'))
  }

  lemma MarkedText(s: seq<int>, i: nat)
    requires PackedChars(s) && i < |s| && !Marked(s[i])
    ensures PackedChars(s[i := s[i] + 0x40]) && Marked(s[i] + 0x40)
    ensures forall k | 0 <= k < |s| :: Low6(s[i := s[i] + 0x40][k]) == Low6(s[k])
  {}

  lemma MarkAdds(t: Tree, r: seq<int>)
    requires WF(t) && (t.Leaf? || (t.Inner? && t.link.Via?))
    requires 0 < |r| <= |TextOf(t)| && Agree(TextOf(t), r)
    requires t.Leaf? ==> |r| < |TextOf(t)|
    requires !Marked(TextOf(t)[|r| - 1])
    ensures WF(MarkAt(t, |r| - 1)) && Adds(t, MarkAt(t, |r| - 1), r) && !Has(t, r)
  {
    var s, u := TextOf(t), MarkAt(t, |r| - 1);
    var s' := TextOf(u);
    MarkedText(s, |r| - 1);
    forall q ensures Has(u, q) <==> Has(t, q) || q == r {
      if q == [] {
      } else if |q| <= |s| {
        assert Agree(s', q) <==> Agree(s, q);
        if |q| == |r| && Agree(s, q) { assert q == r; }
        if |q| != |r| { assert s'[|q| - 1] == s[|q| - 1]; }
      } else if t.Inner? {
        assert Agree(s', q[..|s|]) <==> Agree(s, q[..|s|]);
      }
    }
  }

  /** A leaf grown to a longer key: its old end is flagged, the rest appended. */
  function Expanded(s: seq<int>, r: seq<int>): (s': seq<int>)
    requires 0 < |s| < |r|
    ensures |s'| == |r|
    ensures forall i :: 0 <= i < |s| - 1 ==> s'[i] == s[i]
    ensures s'[|s| - 1] == if Marked(s[|s| - 1]) then s[|s| - 1] else s[|s| - 1] + 0x40
    ensures forall i :: |s| <= i < |r| ==> s'[i] == r[i]
  {
    var last := s[|s| - 1];
    s[..|s| - 1] + [if Marked(last) then last else last + 0x40] + r[|s|..]
  }

  lemma ExpandAdds(t: Tree, a: nat, r: seq<int>)
    requires WF(t) && t.Leaf? && |t.s| < |r| <= 0xFFFF && Agree(t.s, r[..|t.s|])
    requires forall i :: 0 <= i < |r| ==> 1 <= r[i] <= 63
    ensures WF(Leaf(t.term, a, Expanded(t.s, r))) && Adds(t, Leaf(t.term, a, Expanded(t.s, r)), r) && !Has(t, r)
  {
    var s, s' := t.s, Expanded(t.s, r);
    var u := Leaf(t.term, a, s');
    ExpandedCodes(s, r);
    forall q ensures Has(u, q) <==> Has(t, q) || q == r {
      if q != [] && |q| <= |s'| {
        HasInText(u, q);
        if |q| <= |s| { HasInText(t, q); }
        if |q| == |r| && Agree(s', q) { assert q == r; }
      }
    }
  }

  lemma ExpandedCodes(s: seq<int>, r: seq<int>)
    requires PackedChars(s) && 0 < |s| < |r| && Agree(s, r[..|s|])
    requires forall i :: 0 <= i < |r| ==> 1 <= r[i] <= 63
    ensures var s' := Expanded(s, r);
      && PackedChars(s') && Agree(s', r)
      && Marked(s'[|s| - 1])
      && (forall i :: 0 <= i < |s| ==> Low6(s'[i]) == Low6(s[i]))
      && (forall i :: |s| <= i < |r| ==> !Marked(s'[i]))
  {
    var s' := Expanded(s, r);
    forall i | 0 <= i < |r| ensures Low6(s'[i]) == r[i] && (i < |s| ==> Low6(s'[i]) == Low6(s[i])) {
      if i < |s| { assert r[..|s|][i] == r[i]; }
    }
  }

  // ---- From a local change to the whole tree -------------------------------

  /** A change below path that stores the same keys there stores the same keys overall. */
  lemma SameKeys(t0: Tree, path: seq<nat>, u: Tree)
    requires WF(t0) && ValidPath(t0, path)
    requires forall q :: Has(u, q) <==> Has(Sub(t0, path), q)
    ensures forall j :: Has(Update(t0, path, u), j) <==> Has(t0, j)
  {
    forall j ensures Has(Update(t0, path, u), j) <==> Has(t0, j) {
      HasUpdate(t0, path, u, j);
      HasUpdate(t0, path, Sub(t0, path), j);
      UpdateSelf(t0, path);
    }
  }

  /** A change below path that adds the rest of a key there adds the key overall. */
  lemma OneMoreKey(t0: Tree, path: seq<nat>, u: Tree, key: seq<int>, r: seq<int>)
    requires WF(t0) && ValidPath(t0, path)
    requires Adds(Sub(t0, path), u, r) && key == PathKey(t0, path) + r
    ensures Adds(t0, Update(t0, path, u), key)
    ensures Has(t0, key) <==> Has(Sub(t0, path), r)
  {
    HasThrough(t0, path, r);
    var pk := PathKey(t0, path);
    forall j ensures Has(Update(t0, path, u), j) <==> Has(t0, j) || j == key {
      HasUpdate(t0, path, u, j);
      HasUpdate(t0, path, Sub(t0, path), j);
      UpdateSelf(t0, path);
      if pk <= j { assert j == pk + j[|pk|..]; }
    }
  }

  lemma AddKidSame(t0: Tree, path: seq<nat>, x: nat, c: int, b: nat)
    requires WF(t0) && ValidPath(t0, path) && Sub(t0, path).Inner?
    requires InsertionPoint(Sub(t0, path).kids, x, c) && 1 <= c <= 63
    ensures WF(AddKid(Sub(t0, path), x, c, b))
    ensures forall j :: Has(Update(t0, path, AddKid(Sub(t0, path), x, c, b)), j) <==> Has(t0, j)
  {
    var t := Sub(t0, path);
    UpdateWF(t0, path, Empty(false));
    AddKidWF(t, x, c, b);
    forall q ensures Has(AddKid(t, x, c, b), q) <==> Has(t, q) { AddKidHas(t, x, c, b, q); }
    SameKeys(t0, path, AddKid(t, x, c, b));
  }

  lemma SplitSame(t0: Tree, path: seq<nat>, x: nat, c1: int, cn: nat, br: nat, a: nat)
    requires WF(t0) && ValidPath(t0, path)
    requires var t := Sub(t0, path); (t.Leaf? || (t.Inner? && t.link.Via?)) && x < |TextOf(t)|
    requires 1 <= c1 <= 63 && c1 != Low6(TextOf(Sub(t0, path))[x])
    ensures WF(SplitTree(Sub(t0, path), x, c1, cn, br, a))
    ensures forall j :: Has(Update(t0, path, SplitTree(Sub(t0, path), x, c1, cn, br, a)), j) <==> Has(t0, j)
  {
    var t := Sub(t0, path);
    UpdateWF(t0, path, Empty(false));
    SplitWF(t, x, c1, cn, br, a);
    var u := SplitTree(t, x, c1, cn, br, a);
    forall q ensures Has(u, q) <==> Has(t, q) { SplitHas(t, x, c1, cn, br, a, q); }
    SameKeys(t0, path, u);
  }
}
