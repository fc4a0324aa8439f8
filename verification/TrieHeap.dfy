/** The blocks the URL cache allocates, when they represent a tree, and what
    rewriting one node in place does to the represented tree. */
module TrieHeap {
  import opened TrieTree

  /** struct mtrie_node: flags and count in one byte, and a pointer (0 is null). */
  datatype Node = Node(magic: int, next: nat)

  /** struct mtrie_br_pos. */
  datatype BrPos = BrPos(c: int, node: Node)

  datatype Block =
    | LeafB(s: seq<int>)
    | ConnB(s: seq<int>, node: Node)
    | BranchB(pos: seq<BrPos>)

  type Mem = map<nat, Block>

  /** Where a node lives: in the trie object, in a connection, or in a branch array. */
  datatype Loc = Entry | InConn(a: nat) | Slot(b: nat, i: nat)

  function TermBit(term: bool): int { if term then 0x40 else 0 }

  function LinkAddrs(l: Link): set<nat> { if l.Direct? then {} else {l.addr} }

  ghost function Footprint(t: Tree): set<nat> {
    match t
    case Empty(_) => {}
    case Leaf(_, a, _) => {a}
    case Inner(_, link, b, kids) =>
      LinkAddrs(link) + {b} + (set i, a | 0 <= i < |kids| && a in Footprint(kids[i].t) :: a)
  }

  /** No block is shared between two places of the tree. */
  ghost predicate Sep(t: Tree) {
    t.Inner? ==>
      && t.b !in LinkAddrs(t.link)
      && (forall i :: 0 <= i < |t.kids| ==>
            Sep(t.kids[i].t) && t.b !in Footprint(t.kids[i].t) && LinkAddrs(t.link) !! Footprint(t.kids[i].t))
      && (forall i, j :: 0 <= i < j < |t.kids| ==> Footprint(t.kids[i].t) !! Footprint(t.kids[j].t))
  }

  ghost predicate BranchAt(mem: Mem, b: nat, kids: seq<Kid>) {
    && b != 0 && b in mem && mem[b].BranchB? && |mem[b].pos| == |kids|
    && forall i :: 0 <= i < |kids| ==> mem[b].pos[i].c == kids[i].c
  }

  /** The node value nd represents t in mem. */
  ghost predicate Denotes(mem: Mem, nd: Node, t: Tree)
    decreases t
  {
    match t
    case Empty(term) => nd == Node(TermBit(term), 0)
    case Leaf(term, a, s) =>
      nd == Node(0x81 + TermBit(term), a) && a != 0 && a in mem && mem[a] == LeafB(s)
    case Inner(term, link, b, kids) =>
      && BranchAt(mem, b, kids)
      && (match link
          case Direct => nd == Node(TermBit(term) + |kids|, b)
          case Via(a, s) =>
            nd == Node(0x80 + TermBit(term), a) && a != 0 && a in mem && mem[a] == ConnB(s, Node(|kids|, b)))
      && forall i :: 0 <= i < |kids| ==> Denotes(mem, mem[b].pos[i].node, kids[i].t)
  }

  lemma {:induction false} DenotesFrame(mem: Mem, mem': Mem, nd: Node, t: Tree)
    requires Denotes(mem, nd, t)
    requires forall a :: a in Footprint(t) && a in mem ==> a in mem' && mem'[a] == mem[a]
    ensures Denotes(mem', nd, t)
    decreases t
  {
    if t.Inner? {
      assert t.b in Footprint(t);
      forall i | 0 <= i < |t.kids| ensures Denotes(mem', mem'[t.b].pos[i].node, t.kids[i].t) {
        assert Footprint(t.kids[i].t) <= Footprint(t);
        DenotesFrame(mem, mem', mem[t.b].pos[i].node, t.kids[i].t);
      }
    }
  }

  lemma {:induction false} DenotesAllocated(mem: Mem, nd: Node, t: Tree)
    requires Denotes(mem, nd, t)
    ensures Footprint(t) <= mem.Keys
    decreases t
  {
    if t.Inner? {
      forall i | 0 <= i < |t.kids| ensures Footprint(t.kids[i].t) <= mem.Keys {
        DenotesAllocated(mem, mem[t.b].pos[i].node, t.kids[i].t);
      }
    }
  }

  lemma KidFootprint(t: Tree, i: nat)
    requires t.Inner? && i < |t.kids|
    ensures Footprint(t.kids[i].t) <= Footprint(t)
  {}

  ghost function LocOf(t: Tree, p: seq<nat>): Loc
    requires ValidPath(t, p)
    decreases |p|
  {
    if p == [] then Entry
    else if |p| == 1 then Slot(t.b, p[0])
    else LocOf(t.kids[p[0]].t, p[1..])
  }

  ghost function NodeAt(mem: Mem, nd: Node, n: Loc): Node
    requires n.Slot? ==> n.b in mem && mem[n.b].BranchB? && n.i < |mem[n.b].pos|
    requires !n.InConn?
  {
    match n
    case Entry => nd
    case Slot(b, i) => mem[b].pos[i].node
  }

  lemma {:induction false} LocSnoc(t: Tree, p: seq<nat>, i: nat)
    requires ValidPath(t, p) && Sub(t, p).Inner? && i < |Sub(t, p).kids|
    ensures ValidPath(t, p + [i]) && LocOf(t, p + [i]) == Slot(Sub(t, p).b, i)
    decreases |p|
  {
    PathSnoc(t, p, i);
    if p != [] {
      LocSnoc(t.kids[p[0]].t, p[1..], i);
      assert (p + [i])[1..] == p[1..] + [i];
    }
  }

  /** The node found at a path represents the subtree there, and lives in a
      block of the tree outside that subtree. */
  lemma {:induction false} SubDenotes(mem: Mem, nd: Node, t: Tree, p: seq<nat>)
    requires Denotes(mem, nd, t) && ValidPath(t, p) && Sep(t)
    ensures !LocOf(t, p).InConn?
    ensures LocOf(t, p).Entry? <==> p == []
    ensures LocOf(t, p).Slot? ==>
      var Slot(b, i) := LocOf(t, p);
      && b in mem && mem[b].BranchB? && i < |mem[b].pos|
      && b in Footprint(t) && b !in Footprint(Sub(t, p))
    ensures Denotes(mem, NodeAt(mem, nd, LocOf(t, p)), Sub(t, p))
    ensures Footprint(Sub(t, p)) <= Footprint(t) && Sep(Sub(t, p))
    decreases |p|
  {
    if p != [] {
      var i := p[0];
      KidFootprint(t, i);
      if |p| == 1 {
        assert p[1..] == [];
      } else {
        SubDenotes(mem, mem[t.b].pos[i].node, t.kids[i].t, p[1..]);
      }
    }
  }

  /** mem' and nd' are mem and nd with the node at n replaced by w, apart from
      the blocks named in scratch. */
  ghost predicate Stored(mem: Mem, nd: Node, mem': Mem, nd': Node, n: Loc, w: Node, keep: set<nat>)
  {
    match n
    case InConn(_) => false
    case Entry => nd' == w && (forall a :: a in keep ==> a in mem && a in mem' && mem'[a] == mem[a])
    case Slot(b, i) =>
      && nd' == nd && b in mem && mem[b].BranchB? && i < |mem[b].pos|
      && b in mem' && mem'[b] == BranchB(mem[b].pos[i := mem[b].pos[i].(node := w)])
      && (forall a :: a in keep && a != b ==> a in mem && a in mem' && mem'[a] == mem[a])
  }

  /** t with its i-th child replaced. */
  function WithKid(t: Tree, i: nat, k: Tree): Tree
    requires t.Inner? && i < |t.kids|
  {
    t.(kids := t.kids[i := Kid(t.kids[i].c, k)])
  }

  lemma KidDenotes(mem: Mem, nd: Node, t: Tree, i: nat, mem': Mem, k: Tree)
    requires t.Inner? && i < |t.kids| && Denotes(mem, nd, t) && Sep(t)
    requires forall a :: a in Footprint(t) && a != t.b && a !in Footprint(t.kids[i].t) ==> a in mem && a in mem' && mem'[a] == mem[a]
    requires t.b in mem' && mem'[t.b].BranchB? && |mem'[t.b].pos| == |t.kids|
    requires forall j :: 0 <= j < |t.kids| ==> mem'[t.b].pos[j].c == mem[t.b].pos[j].c
    requires forall j :: 0 <= j < |t.kids| && j != i ==> mem'[t.b].pos[j] == mem[t.b].pos[j]
    requires Denotes(mem', mem'[t.b].pos[i].node, k)
    ensures Denotes(mem', nd, WithKid(t, i, k))
  {
    var t' := WithKid(t, i, k);
    forall j | 0 <= j < |t'.kids|
      ensures Denotes(mem', mem'[t.b].pos[j].node, t'.kids[j].t)
    {
      if j != i {
        KidFootprint(t, j);
        KidsApart(t, i, j);
        DenotesFrame(mem, mem', mem[t.b].pos[j].node, t.kids[j].t);
      }
    }
    assert LinkAddrs(t.link) <= Footprint(t);
  }

  lemma KidsApart(t: Tree, i: nat, j: nat)
    requires t.Inner? && Sep(t) && i < |t.kids| && j < |t.kids| && i != j
    ensures Footprint(t.kids[i].t) !! Footprint(t.kids[j].t)
  {
    if j < i { assert Footprint(t.kids[j].t) !! Footprint(t.kids[i].t); }
  }

  lemma StoreKidDenotes(mem: Mem, nd: Node, t: Tree, p: seq<nat>, mem': Mem, nd': Node, u: Tree, w: Node)
    requires Denotes(mem, nd, t) && Sep(t) && ValidPath(t, p) && |p| == 1
    requires Denotes(mem', w, u)
    requires LocOf(t, p) == Slot(t.b, p[0])
    requires Stored(mem, nd, mem', nd', LocOf(t, p), w, Footprint(t) - Footprint(Sub(t, p)))
    ensures Denotes(mem', nd', Update(t, p, u))
  {
    var k := t.kids[p[0]].t;
    assert p[1..] == [] && Sub(t, p) == Sub(k, []) == k && Update(k, p[1..], u) == u;
    assert LocOf(t, p) == Slot(t.b, p[0]);
    KidFootprint(t, p[0]);
    KidDenotes(mem, nd, t, p[0], mem', u);
    assert Update(t, p, u) == WithKid(t, p[0], u);
  }

  /** Rewriting the node at a path represents the tree updated at that path. */
  lemma {:induction false} StoreDenotes(mem: Mem, nd: Node, t: Tree, p: seq<nat>,
                                        mem': Mem, nd': Node, u: Tree, w: Node)
    requires Denotes(mem, nd, t) && Sep(t) && ValidPath(t, p)
    requires Denotes(mem', w, u)
    requires Stored(mem, nd, mem', nd', LocOf(t, p), w, Footprint(t) - Footprint(Sub(t, p)))
    ensures Denotes(mem', nd', Update(t, p, u))
    decreases |p|
  {
    if |p| == 1 {
      StoreKidDenotes(mem, nd, t, p, mem', nd', u, w);
    } else if |p| > 1 {
      var i, k, q := p[0], t.kids[p[0]].t, p[1..];
      var kn := mem[t.b].pos[i].node;
      StoredBelow(mem, nd, t, p, mem', nd', w);
      StoreDenotes(mem, kn, k, q, mem', kn, u, w);
      KidDenotes(mem, nd, t, i, mem', Update(k, q, u));
    }
  }

  lemma StoredBelow(mem: Mem, nd: Node, t: Tree, p: seq<nat>, mem': Mem, nd': Node, w: Node)
    requires Denotes(mem, nd, t) && Sep(t) && ValidPath(t, p) && |p| > 1
    requires Stored(mem, nd, mem', nd', LocOf(t, p), w, Footprint(t) - Footprint(Sub(t, p)))
    ensures var i, k, q := p[0], t.kids[p[0]].t, p[1..];
      var kn := mem[t.b].pos[i].node;
      && Stored(mem, kn, mem', kn, LocOf(k, q), w, Footprint(k) - Footprint(Sub(k, q)))
      && t.b in mem' && mem'[t.b] == mem[t.b]
      && Footprint(Sub(t, p)) <= Footprint(k)
      && LocOf(k, q).Slot? && LocOf(k, q).b in Footprint(k)
  {
    var k, q := t.kids[p[0]].t, p[1..];
    KidFootprint(t, p[0]);
    SubDenotes(mem, mem[t.b].pos[p[0]].node, k, q);
    assert t.b in Footprint(t);
  }

  lemma KidReplaceFootprint(t: Tree, i: nat, k: Tree, gone: set<nat>, fresh_: set<nat>)
    requires t.Inner? && i < |t.kids| && Sep(t) && Sep(k)
    requires gone <= Footprint(t.kids[i].t)
    requires Footprint(k) == Footprint(t.kids[i].t) - gone + fresh_
    requires fresh_ !! (Footprint(t) - gone)
    ensures Sep(WithKid(t, i, k))
    ensures Footprint(WithKid(t, i, k)) == Footprint(t) - gone + fresh_
  {
    var t' := WithKid(t, i, k);
    assert t.b in Footprint(t) && LinkAddrs(t.link) <= Footprint(t);
    forall j | 0 <= j < |t.kids| && j != i
      ensures Footprint(t.kids[j].t) !! Footprint(k) && Footprint(t.kids[j].t) !! gone && t'.kids[j] == t.kids[j]
    {
      KidFootprint(t, j);
      KidsApart(t, i, j);
    }
    forall a ensures a in Footprint(t') <==> a in Footprint(t) - gone + fresh_ {
      KidsUnion(t, a);
      KidsUnion(t', a);
      assert t'.kids[i].t == k;
      if a in Footprint(t) && a !in gone {
        if j :| 0 <= j < |t.kids| && a in Footprint(t.kids[j].t) {
          assert a in Footprint(t'.kids[j].t);
        }
      }
      if a in Footprint(t') {
        if j :| 0 <= j < |t'.kids| && a in Footprint(t'.kids[j].t) {
          if j != i { assert a in Footprint(t.kids[j].t); }
        }
      }
    }
  }

  lemma {:induction false} UpdateFootprint(t: Tree, p: seq<nat>, u: Tree)
    requires Sep(t) && Sep(u) && ValidPath(t, p)
    requires Footprint(u) !! (Footprint(t) - Footprint(Sub(t, p)))
    ensures Sep(Update(t, p, u))
    ensures Footprint(Sub(t, p)) <= Footprint(t)
    ensures Footprint(Update(t, p, u)) == Footprint(t) - Footprint(Sub(t, p)) + Footprint(u)
    decreases |p|
  {
    if p != [] {
      var k := t.kids[p[0]].t;
      KidFootprint(t, p[0]);
      UpdateFootprint(k, p[1..], u);
      KidReplaceFootprint(t, p[0], Update(k, p[1..], u), Footprint(Sub(t, p)), Footprint(u));
    }
  }

  lemma KidsUnion(t: Tree, a: nat)
    requires t.Inner?
    ensures a in Footprint(t) <==>
      a in LinkAddrs(t.link) || a == t.b || exists i :: 0 <= i < |t.kids| && a in Footprint(t.kids[i].t)
  {}

  /** Everything one step of mtrie_tryadd needs: replace the subtree at p by u
      on the heap, and in the tree. */
  lemma Replace(mem: Mem, nd: Node, t: Tree, p: seq<nat>, mem': Mem, nd': Node, u: Tree, w: Node)
    requires Denotes(mem, nd, t) && WF(t) && Sep(t) && ValidPath(t, p)
    requires WF(u) && Sep(u) && Denotes(mem', w, u)
    requires Stored(mem, nd, mem', nd', LocOf(t, p), w, Footprint(t) - Footprint(Sub(t, p)))
    requires Footprint(u) !! (Footprint(t) - Footprint(Sub(t, p)))
    requires mem'.Keys == Footprint(t) - Footprint(Sub(t, p)) + Footprint(u)
    ensures var t' := Update(t, p, u);
      && Denotes(mem', nd', t') && WF(t') && Sep(t') && mem'.Keys == Footprint(t')
      && ValidPath(t', p) && Sub(t', p) == u && PathKey(t', p) == PathKey(t, p)
      && LocOf(t', p) == LocOf(t, p)
  {
    StoreDenotes(mem, nd, t, p, mem', nd', u, w);
    UpdateFootprint(t, p, u);
    UpdateWF(t, p, u);
    UpdateSub(t, p, u);
    LocUpdate(t, p, u);
  }

  lemma {:induction false} LocUpdate(t: Tree, p: seq<nat>, u: Tree)
    requires ValidPath(t, p)
    ensures ValidPath(Update(t, p, u), p)
    ensures LocOf(Update(t, p, u), p) == LocOf(t, p)
    decreases |p|
  {
    UpdateSub(t, p, u);
    if |p| > 1 { LocUpdate(t.kids[p[0]].t, p[1..], u); }
  }

  // ---- Local heap changes ---------------------------------------------------

  /** A branch array with an empty position for c put at x. */
  function WithPos(pos: seq<BrPos>, x: nat, c: int): seq<BrPos>
    requires x <= |pos|
  {
    pos[..x] + [BrPos(c, Node(0, 0))] + pos[x..]
  }

  ghost function KidsFootprint(kids: seq<Kid>): set<nat> {
    set i, a | 0 <= i < |kids| && a in Footprint(kids[i].t) :: a
  }

  lemma AddKidFootprint(t: Tree, x: nat, c: int, p': nat)
    requires t.Inner? && x <= |t.kids|
    ensures KidsFootprint(AddKid(t, x, c, p').kids) == KidsFootprint(t.kids)
  {
    var u := AddKid(t, x, c, p');
    forall a | a in KidsFootprint(u.kids) ensures a in KidsFootprint(t.kids) {
      var i :| 0 <= i < |u.kids| && a in Footprint(u.kids[i].t);
      assert i != x;
      assert u.kids[i] == t.kids[if i < x then i else i - 1];
    }
    forall a | a in KidsFootprint(t.kids) ensures a in KidsFootprint(u.kids) {
      var i :| 0 <= i < |t.kids| && a in Footprint(t.kids[i].t);
      assert u.kids[if i < x then i else i + 1] == t.kids[i];
    }
  }

  lemma AddKidSep(t: Tree, x: nat, c: int, p': nat)
    requires t.Inner? && Sep(t) && x <= |t.kids|
    requires p' == t.b || p' !in Footprint(t)
    ensures Sep(AddKid(t, x, c, p'))
    ensures Footprint(AddKid(t, x, c, p')) == Footprint(t) - {t.b} + {p'}
  {
    var u := AddKid(t, x, c, p');
    forall i | 0 <= i < |t.kids| ensures Footprint(t.kids[i].t) <= Footprint(t) {
      KidFootprint(t, i);
    }
    forall i | 0 <= i < |u.kids|
      ensures Sep(u.kids[i].t) && p' !in Footprint(u.kids[i].t) && LinkAddrs(t.link) !! Footprint(u.kids[i].t)
    {
      if i != x { assert u.kids[i] == t.kids[if i < x then i else i - 1]; }
    }
    forall i, j | 0 <= i < j < |u.kids| ensures Footprint(u.kids[i].t) !! Footprint(u.kids[j].t) {
      if i != x && j != x { KidsApart(t, if i < x then i else i - 1, if j < x then j else j - 1); }
    }
    AddKidUnion(t, x, c, p');
  }

  lemma AddKidUnion(t: Tree, x: nat, c: int, p': nat)
    requires t.Inner? && Sep(t) && x <= |t.kids|
    ensures Footprint(AddKid(t, x, c, p')) == Footprint(t) - {t.b} + {p'}
  {
    AddKidFootprint(t, x, c, p');
    assert Footprint(t) == LinkAddrs(t.link) + {t.b} + KidsFootprint(t.kids);
    assert t.b !in KidsFootprint(t.kids);
    var u := AddKid(t, x, c, p');
    assert Footprint(u) == LinkAddrs(t.link) + {p'} + KidsFootprint(u.kids);
  }

  lemma KidsFrame(mem: Mem, nd: Node, t: Tree, mem': Mem)
    requires t.Inner? && Denotes(mem, nd, t) && Sep(t)
    requires forall a :: a in Footprint(t) && a != t.b && a !in LinkAddrs(t.link) && a in mem ==> a in mem' && mem'[a] == mem[a]
    ensures forall i :: 0 <= i < |t.kids| ==> Denotes(mem', mem[t.b].pos[i].node, t.kids[i].t)
  {
    forall i | 0 <= i < |t.kids| ensures Denotes(mem', mem[t.b].pos[i].node, t.kids[i].t) {
      KidFootprint(t, i);
      DenotesFrame(mem, mem', mem[t.b].pos[i].node, t.kids[i].t);
    }
  }

  lemma WithPosDenotes(pos: seq<BrPos>, kids: seq<Kid>, x: nat, c: int, mem': Mem)
    requires x <= |kids| == |pos|
    requires forall i :: 0 <= i < |kids| ==> pos[i].c == kids[i].c && Denotes(mem', pos[i].node, kids[i].t)
    ensures var more, wider := kids[..x] + [Kid(c, Empty(false))] + kids[x..], WithPos(pos, x, c);
      && |wider| == |more|
      && forall i :: 0 <= i < |more| ==> wider[i].c == more[i].c && Denotes(mem', wider[i].node, more[i].t)
  {
    var more, wider := kids[..x] + [Kid(c, Empty(false))] + kids[x..], WithPos(pos, x, c);
    forall i | 0 <= i < |more| ensures wider[i].c == more[i].c && Denotes(mem', wider[i].node, more[i].t) {
      if i != x {
        var k := if i < x then i else i - 1;
        assert wider[i] == pos[k] && more[i] == kids[k];
      }
    }
  }

  lemma AddKidDenotes(mem: Mem, nd: Node, t: Tree, x: nat, c: int, p': nat, mem': Mem, w: Node)
    requires t.Inner? && Denotes(mem, nd, t) && Sep(t) && x <= |t.kids| && p' != 0
    requires p' == t.b || p' !in mem
    requires p' in mem' && mem'[p'] == BranchB(WithPos(mem[t.b].pos, x, c))
    requires t.link.Direct? ==> w == Node(nd.magic + 1, p')
    requires t.link.Via? ==> w == nd && t.link.addr in mem' && mem'[t.link.addr] == ConnB(t.link.s, Node(|t.kids| + 1, p'))
    requires forall a :: a in Footprint(t) && a != t.b && a !in LinkAddrs(t.link) && a in mem ==> a in mem' && mem'[a] == mem[a]
    ensures Denotes(mem', w, AddKid(t, x, c, p'))
  {
    KidsFrame(mem, nd, t, mem');
    WithPosDenotes(mem[t.b].pos, t.kids, x, c, mem');
  }
}
