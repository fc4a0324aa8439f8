/** mtrie.c: the URL cache as the heap structure the code rewrites in place. */
module MTries {
  import opened TrieTree
  import opened TrieHeap
  import opened Urls
  import opened Helpers

  /** The allocated blocks are exactly those of one unshared, well-formed tree. */
  ghost predicate Rep(mem: Mem, entry: Node, t: Tree) {
    forall z {:trigger Unfold(z)} :: Unfold(z) ==>
      Denotes(mem, entry, t) && WF(t) && Sep(t) && mem.Keys == Footprint(t)
  }

  /** keys are the keys stored in t; a mention of UnfoldKeys unfolds it. */
  ghost predicate Holds(t: Tree, keys: set<seq<int>>) {
    forall z {:trigger UnfoldKeys(z)} :: UnfoldKeys(z) ==> forall k :: k in keys <==> Has(t, k)
  }

  predicate UnfoldKeys(z: int) { true }

  lemma HoldsSame(t: Tree, t': Tree, keys: set<seq<int>>)
    requires Holds(t, keys) && forall k :: Has(t', k) <==> Has(t, k)
    ensures Holds(t', keys)
  {
    assert UnfoldKeys(0);
  }

  /** What the representation says of the node at n. */
  lemma NodeFacts(mem: Mem, entry: Node, t: Tree, n: Loc, path: seq<nat>)
    requires Rep(mem, entry, t) && ValidPath(t, path) && LocOf(t, path) == n
    ensures !n.InConn?
    ensures n.Slot? ==> n.b in mem && mem[n.b].BranchB? && n.i < |mem[n.b].pos| && n.b !in Footprint(Sub(t, path))
    ensures Denotes(mem, NodeAt(mem, entry, n), Sub(t, path)) && WF(Sub(t, path)) && Sep(Sub(t, path))
    ensures Footprint(Sub(t, path)) <= mem.Keys
  {
    assert Unfold(0);
    SubDenotes(mem, entry, t, path);
    UpdateWF(t, path, Empty(false));
  }

  /** The decoded flags and count of the node at n. */
  lemma NodeMagic(mem: Mem, entry: Node, t: Tree, n: Loc, path: seq<nat>)
    requires Rep(mem, entry, t) && ValidPath(t, path) && LocOf(t, path) == n
    ensures !n.InConn? && (n.Slot? ==> n.b in mem && mem[n.b].BranchB? && n.i < |mem[n.b].pos|)
    ensures var nd, u := NodeAt(mem, entry, n), Sub(t, path);
      && (Marked(nd.magic) <==> u.term)
      && (nd.magic >= 0x80 <==> u.Leaf? || (u.Inner? && u.link.Via?))
      && (u.Leaf? ==> Low6(nd.magic) == 1)
      && (u.Inner? && u.link.Via? ==> Low6(nd.magic) == 0)
      && (u.Inner? && u.link.Direct? ==> Low6(nd.magic) == |u.kids| && nd.next == u.b)
      && (u.Empty? ==> Low6(nd.magic) == 0)
      && (u.Inner? ==> 2 <= |u.kids| <= 63)
      && (u.Leaf? ==> nd.next in mem && mem[nd.next] == LeafB(u.s) && |u.s| >= 1)
      && (u.Inner? && u.link.Via? ==> nd.next == u.link.addr && nd.next in mem && mem[nd.next] == ConnB(u.link.s, Node(|u.kids|, u.b)))
  {
    NodeFacts(mem, entry, t, n, path);
    DecodeMagic(mem, NodeAt(mem, entry, n), Sub(t, path));
  }

  /** Membership below the node at path. */
  lemma RepHas(mem: Mem, entry: Node, t: Tree, keys: set<seq<int>>, path: seq<nat>, r: seq<int>)
    requires Rep(mem, entry, t) && ValidPath(t, path) && Holds(t, keys)
    ensures PathKey(t, path) + r in keys <==> Has(Sub(t, path), r)
  {
    assert Unfold(0) && UnfoldKeys(0);
    HasThrough(t, path, r);
  }

  /** A step to the child i of the node at path. */
  lemma StepDown(t: Tree, path: seq<nat>, i: nat)
    requires ValidPath(t, path) && Sub(t, path).Inner? && i < |Sub(t, path).kids|
    ensures ValidPath(t, path + [i]) && LocOf(t, path + [i]) == Slot(Sub(t, path).b, i)
    ensures Sub(t, path + [i]) == Sub(t, path).kids[i].t
    ensures PathKey(t, path + [i]) == PathKey(t, path) + Codes(Label(Sub(t, path).link)) + [Sub(t, path).kids[i].c]
  {
    PathSnoc(t, path, i);
    LocSnoc(t, path, i);
  }

  predicate ShowStep(path: seq<nat>, z: int) { true }

  /** One step on the heap: the subtree at path becomes u, its node w; folded until ShowStep
      is mentioned for path. */
  ghost predicate HeapStep(mem: Mem, entry: Node, t: Tree, n: Loc, path: seq<nat>, u: Tree, w: Node, mem': Mem, entry': Node)
    requires ValidPath(t, path)
  {
    forall z {:trigger ShowStep(path, z)} :: ShowStep(path, z) ==>
      var old_ := Footprint(Sub(t, path));
      && WF(u) && Sep(u) && Denotes(mem', w, u)
      && Stored(mem, entry, mem', entry', n, w, mem.Keys - old_)
      && Footprint(u) !! (mem.Keys - old_)
      && mem'.Keys == mem.Keys - old_ + Footprint(u)
  }

  lemma StepRep(mem: Mem, entry: Node, t: Tree, n: Loc, path: seq<nat>, u: Tree, w: Node, mem': Mem, entry': Node)
    requires Rep(mem, entry, t) && ValidPath(t, path) && LocOf(t, path) == n
    requires HeapStep(mem, entry, t, n, path, u, w, mem', entry')
    ensures var t' := Update(t, path, u);
      && Rep(mem', entry', t')
      && ValidPath(t', path) && LocOf(t', path) == n
      && Sub(t', path) == u && PathKey(t', path) == PathKey(t, path)
  {
    assert Unfold(0) && ShowStep(path, 0);
    Replace(mem, entry, t, path, mem', entry', u, w);
  }

  /** Where the branch array of the node at n is found. */
  ghost predicate BranchHolder(m: Loc, n: Loc, t: Tree) {
    t.Inner? && m == (if t.link.Direct? then n else InConn(t.link.addr))
  }

  class MTrie {
    var entry: Node        // struct mtrie
    var mem: Mem           // every allocated block
    var brk: nat           // addresses at or above brk have never been handed out
    ghost var tree: Tree   // what the blocks represent
    ghost var keys: set<seq<int>>

    ghost predicate Valid()
      reads this
    {
      && Rep(mem, entry, tree)
      && (forall a :: a in mem ==> 0 < a < brk) && 0 < brk
      && Holds(tree, keys)
    }

    /** mtrie_create. */
    constructor ()
      ensures Valid() && keys == {}
    {
      entry, mem, brk := Node(0, 0), map[], 1;
      tree, keys := Empty(false), {};
    }

    // ---- Memory ------------------------------------------------------------

    ghost predicate Here(n: Loc, path: seq<nat>)
      reads this
    {
      ValidPath(tree, path) && LocOf(tree, path) == n
    }

    method Alloc(blk: Block) returns (a: nat)
      requires forall x :: x in mem ==> 0 < x < brk
      requires 0 < brk
      modifies this`mem, this`brk
      ensures a == old(brk) && a !in old(mem) && brk == a + 1 && mem == old(mem)[a := blk]
    {
      a := brk;
      mem, brk := mem[a := blk], brk + 1;
    }

    /** realloc: the block stays or moves, its old address is gone if it moved. */
    method Realloc(p: nat, blk: Block) returns (a: nat)
      requires forall x :: x in mem ==> 0 < x < brk
      requires p in mem && 0 < brk
      modifies this`mem, this`brk
      ensures a == p || (a == old(brk) && a !in old(mem))
      ensures mem == (old(mem) - {p})[a := blk] && old(brk) <= brk && a < brk && 0 < a
      ensures brk <= old(brk) + 1
    {
      if * {
        a := p;
      } else {
        a := brk;
        brk := brk + 1;
      }
      mem := (mem - {p})[a := blk];
    }

    method Free(p: nat)
      modifies this`mem
      ensures mem == old(mem) - {p}
    {
      mem := mem - {p};
    }

    method Load(n: Loc) returns (nd: Node)
      requires !n.InConn?
      requires n.Slot? ==> n.b in mem && mem[n.b].BranchB? && n.i < |mem[n.b].pos|
      ensures nd == NodeAt(mem, entry, n)
    {
      nd := match n
        case Entry => entry
        case Slot(b, i) => mem[b].pos[i].node;
    }

    method Store(n: Loc, w: Node)
      requires !n.InConn?
      requires n.Slot? ==> n.b in mem && mem[n.b].BranchB? && n.i < |mem[n.b].pos|
      modifies this`mem, this`entry
      ensures n.Entry? ==> entry == w && mem == old(mem)
      ensures n.Slot? ==> entry == old(entry)
      ensures n.Slot? ==> mem == old(mem)[n.b := BranchB(old(mem)[n.b].pos[n.i := old(mem)[n.b].pos[n.i].(node := w)])]
    {
      match n
      case Entry => entry := w;
      case Slot(b, i) => mem := mem[b := BranchB(mem[b].pos[i := mem[b].pos[i].(node := w)])];
    }

    // ---- Ghost bookkeeping ---------------------------------------------------

    /** The heap now represents the tree with the subtree at path replaced by u. */
    ghost method Commit(mem0: Mem, entry0: Node, n: Loc, path: seq<nat>, u: Tree, w: Node, keys': set<seq<int>>)
      requires ValidPath(tree, path) && LocOf(tree, path) == n
      requires Rep(mem0, entry0, tree)
      requires HeapStep(mem0, entry0, tree, n, path, u, w, mem, entry)
      requires (forall a :: a in mem ==> 0 < a < brk) && 0 < brk
      requires Holds(Update(tree, path, u), keys')
      modifies this`tree, this`keys
      ensures Valid() && keys == keys'
      ensures Here(n, path) && Sub(tree, path) == u && PathKey(tree, path) == PathKey(old(tree), path)
    {
      StepRep(mem0, entry0, tree, n, path, u, w, mem, entry);
      tree, keys := Update(tree, path, u), keys';
    }

    // ---- mtrie_next ------------------------------------------------------------

    /** The position of c in a sorted branch array, or where it belongs. */
    method Search(pos: seq<BrPos>, count: int, c: int, ghost kids: seq<Kid>) returns (x: nat, found: bool)
      requires count == |pos| == |kids| && 0 < count && Sorted(kids)
      requires forall i :: 0 <= i < count ==> pos[i].c == kids[i].c
      ensures found ==> x < count && kids[x].c == c
      ensures !found ==> InsertionPoint(kids, x, c)
    {
      if c < pos[0].c {
        return 0, false;
      }
      if c > pos[count - 1].c {
        return count, false;
      }
      x := 0;
      while x < count
        invariant 0 <= x <= count
        invariant forall i :: 0 <= i < x ==> pos[i].c < c
      {
        if pos[x].c == c {
          return x, true;
        } else if pos[x].c > c {
          return x, false;
        }
        x := x + 1;
      }
      assert false;
    }

    /** mtrie_next: the child for c of the branch node m, added if it is missing. */
    method Next(m: Loc, p: nat, count: int, c: int, ghost n: Loc, ghost path: seq<nat>) returns (r: Loc, ghost path': seq<nat>)
      requires Valid() && Here(n, path) && BranchHolder(m, n, Sub(tree, path))
      requires p == Sub(tree, path).b && count == |Sub(tree, path).kids| && 1 <= c <= 63
      modifies this
      ensures Valid() && Here(r, path') && keys == old(keys)
      ensures PathKey(tree, path') == PathKey(old(tree), path) + Codes(Label(old(Sub(tree, path)).link)) + [c]
    {
      ghost var t := Sub(tree, path);
      NodeFacts(mem, entry, tree, n, path);
      assert BranchAt(mem, p, t.kids);
      var x, found := Search(mem[p].pos, count, c, t.kids);
      if found {
        r, path' := Slot(p, x), path + [x];
        StepDown(tree, path, x);
        return;
      }
      var p' := Insert(m, p, x, c, n, path);
      r, path' := Slot(p', x), path + [x];
      StepDown(tree, path, x);
    }

    /** The memory operations of the `add:` part of mtrie_next. */
    method Grow(m: Loc, p: nat, x: nat, c: int) returns (p': nat)
      requires p in mem && mem[p].BranchB? && x <= |mem[p].pos|
      requires m.Slot? ==> m.b != p && m.b in mem && mem[m.b].BranchB? && m.i < |mem[m.b].pos|
      requires m.InConn? ==> m.a != p && m.a in mem && mem[m.a].ConnB?
      requires (forall a :: a in mem ==> 0 < a < brk) && 0 < brk
      modifies this`mem, this`entry, this`brk
      ensures Grown(old(mem), old(entry), m, p, x, c, p', mem, entry)
      ensures (forall a :: a in mem ==> 0 < a < brk) && 0 < brk
    {
      p' := Realloc(p, BranchB(WithPos(mem[p].pos, x, c)));
      match m {
        case InConn(a) =>
          mem := mem[a := ConnB(mem[a].s, Node(mem[a].node.magic + 1, p'))];
        case _ =>
          var here := Load(m);
          Store(m, Node(here.magic + 1, p'));
      }
    }

    /** The `add:` part of mtrie_next: grow the array and put c at x. */
    method Insert(m: Loc, p: nat, x: nat, c: int, ghost n: Loc, ghost path: seq<nat>) returns (p': nat)
      requires Valid() && Here(n, path) && BranchHolder(m, n, Sub(tree, path))
      requires p == Sub(tree, path).b && 1 <= c <= 63 && InsertionPoint(Sub(tree, path).kids, x, c)
      modifies this
      ensures Valid() && Here(n, path) && keys == old(keys)
      ensures PathKey(tree, path) == PathKey(old(tree), path)
      ensures Sub(tree, path) == AddKid(old(Sub(tree, path)), x, c, p')
    {
      NodeFacts(mem, entry, tree, n, path);
      ghost var t, mem0, entry0 := Sub(tree, path), mem, entry;
      assert p in Footprint(t);
      p' := Grow(m, p, x, c);
      GrownStep(mem0, entry0, tree, n, path, m, x, c, p', mem, entry);
      RepAddKidSame(mem0, entry0, tree, path, x, c, p', keys);
      Commit(mem0, entry0, n, path, AddKid(t, x, c, p'), NodeAt(mem, entry, n), keys);
    }

    // ---- Splitting a leaf or a connection ----------------------------------------

    /** The old block of a split leaf or connection: what is left of it below x,
        as magic number and pointer of the node that will hold it. */
    method Shrink(p: nat, leaf: bool, x: nat) returns (magic: int, next: nat, ghost a: nat)
      requires p in mem && (if leaf then mem[p].LeafB? else mem[p].ConnB?) && x < |mem[p].s|
      requires (forall k :: k in mem ==> 0 < k < brk) && 0 < brk
      modifies this`mem, this`brk
      ensures (forall k :: k in mem ==> 0 < k < brk) && old(brk) <= brk
      ensures a == p || a == old(brk)
      ensures Node(magic, next) == TailNode(leaf, old(mem[p].s), x, a)
      ensures ShrinkDone(old(mem), p, leaf, x, a, mem)
    {
      var s2 := mem[p].s;
      a := p;
      if leaf {
        if |s2| == x + 1 {
          Free(p);
          magic, next := 0x40, 0;
        } else {
          magic := 0x81 + TermBit(Marked(s2[x]));
          next := Realloc(p, LeafB(s2[x + 1..]));
          a := next;
        }
      } else {
        magic := 0x80 + TermBit(Marked(s2[x]));
        next := Realloc(p, ConnB(s2[x + 1..], mem[p].node));
        a := next;
      }
    }

    /** The node above a split: the new branch itself, or a connection to it. */
    method Above(n: Loc, nd: Node, head: seq<int>, br: nat) returns (ghost cn: nat)
      requires !n.InConn? && (n.Slot? ==> n.b in mem && mem[n.b].BranchB? && n.i < |mem[n.b].pos|)
      requires (forall k :: k in mem ==> 0 < k < brk) && 0 < brk
      modifies this`mem, this`entry, this`brk
      ensures (forall k :: k in mem ==> 0 < k < brk) && old(brk) <= brk
      ensures cn == old(brk) && (head != [] ==> cn < brk)
      ensures AboveDone(old(mem), old(entry), n, nd, head, br, cn, mem, entry)
    {
      cn := brk;
      if |head| == 0 {
        Store(n, Node(TermBit(Marked(nd.magic)) + 2, br));
      } else {
        var conn := Alloc(ConnB(head, Node(2, br)));
        Store(n, Node(TermBit(Marked(nd.magic)) + 0x80, conn));
      }
    }

    /** The memory operations of a split at x: a new branch, a new connection
        for the part above x, and the old block shrunk, moved or freed. */
    method SplitMem(n: Loc, leaf: bool, x: nat, c1: int) returns (r: Loc, ghost cn: nat, br: nat, ghost a: nat)
      requires !n.InConn? && (n.Slot? ==> n.b in mem && mem[n.b].BranchB? && n.i < |mem[n.b].pos|)
      requires var next := NodeAt(mem, entry, n).next;
        && next in mem && (if leaf then mem[next].LeafB? else mem[next].ConnB?) && x < |mem[next].s|
        && (n.Slot? ==> n.b != next)
      requires (forall k :: k in mem ==> 0 < k < brk) && 0 < brk
      modifies this`mem, this`entry, this`brk
      ensures SplitDone(old(mem), old(entry), n, leaf, x, c1, cn, br, a, mem, entry)
      ensures r == Slot(br, if c1 > Low6(old(mem[NodeAt(mem, entry, n).next].s[x])) then 1 else 0)
      ensures (forall k :: k in mem ==> 0 < k < brk) && 0 < brk
    {
      var nd := Load(n);
      var next, magic := nd.next, 0;
      var s2 := mem[next].s;
      var c2 := Low6(s2[x]);
      br := Alloc(BranchB([]));
      ghost var m1 := mem;
      cn := Above(n, nd, s2[..x], br);
      ghost var m2 := mem;
      magic, next, a := Shrink(next, leaf, x);
      SplitCompose(old(mem), old(entry), n, leaf, x, c1, cn, br, a, m1, m2, entry, mem);
      mem := mem[br := BranchB(PairPos(c1, Node(0, 0), c2, Node(magic, next)))];
      r := Slot(br, if c1 > c2 then 1 else 0);
    }

    /** Split the leaf or connection at n and go to the new, empty child for c1. */
    method Split(n: Loc, leaf: bool, x: nat, c1: int, ghost path: seq<nat>) returns (r: Loc, ghost path': seq<nat>)
      requires Valid() && Here(n, path)
      requires var t := Sub(tree, path);
        && (if leaf then t.Leaf? else t.Inner? && t.link.Via?)
        && x < |TextOf(t)| && c1 != Low6(TextOf(t)[x]) && 1 <= c1 <= 63
      modifies this
      ensures Valid() && Here(r, path') && keys == old(keys)
      ensures PathKey(tree, path') == PathKey(old(tree), path) + Codes(old(TextOf(Sub(tree, path)))[..x]) + [c1]
      ensures Sub(tree, path') == Empty(false)
    {
      NodeFacts(mem, entry, tree, n, path);
      ghost var t, mem0, entry0, cn, a := Sub(tree, path), mem, entry, 0, 0;
      var br;
      r, cn, br, a := SplitMem(n, leaf, x, c1);
      ghost var u := SplitTree(t, x, c1, cn, br, a);
      SplitStep(mem0, entry0, tree, n, path, leaf, x, c1, cn, br, a, mem, entry);
      RepSplitSame(mem0, entry0, tree, path, x, c1, cn, br, a, keys);
      Commit(mem0, entry0, n, path, u, NodeAt(mem, entry, n), keys);
      path' := path + [r.i];
      StepDown(tree, path, r.i);
      assert Label(u.link) == TextOf(t)[..x];
    }

    // ---- Last steps: the key ends up stored --------------------------------------

    ghost method Finish(n: Loc, path: seq<nat>, mem0: Mem, entry0: Node, u: Tree, w: Node, r: seq<int>)
      requires ValidPath(tree, path) && LocOf(tree, path) == n
      requires Rep(mem0, entry0, tree)
      requires Holds(tree, keys)
      requires HeapStep(mem0, entry0, tree, n, path, u, w, mem, entry)
      requires (forall a :: a in mem ==> 0 < a < brk) && 0 < brk
      requires Adds(Sub(tree, path), u, r) && !Has(Sub(tree, path), r)
      modifies this`tree, this`keys
      ensures Valid() && Settled(old(keys), true, keys, PathKey(old(tree), path) + r)
    {
      var key := PathKey(tree, path) + r;
      RepOneMore(mem0, entry0, tree, path, u, keys, r);
      Commit(mem0, entry0, n, path, u, w, keys + {key});
    }

    /** The key ends at n: set the node's match flag unless it is set. */
    method KeyEnds(n: Loc, ghost path: seq<nat>) returns (added: bool)
      requires Valid() && Here(n, path)
      modifies this
      ensures Valid() && Settled(old(keys), added, keys, PathKey(old(tree), path))
    {
      NodeMagic(mem, entry, tree, n, path);
      assert PathKey(tree, path) + [] == PathKey(tree, path);
      var nd := Load(n);
      if Marked(nd.magic) {
        RepHas(mem, entry, tree, keys, path, []);
        return false;
      }
      NodeFacts(mem, entry, tree, n, path);
      ghost var t, mem0, entry0 := Sub(tree, path), mem, entry;
      Store(n, Node(nd.magic + 0x40, nd.next));
      TermStep(mem0, entry0, tree, n, path, nd, Node(nd.magic + 0x40, nd.next), mem, entry);
      SetTermAdds(t);
      Finish(n, path, mem0, entry0, t.(term := true), Node(nd.magic + 0x40, nd.next), []);
      return true;
    }

    /** An empty node becomes a leaf with the rest of the key. */
    method NewLeaf(n: Loc, r: seq<int>, ghost path: seq<nat>)
      requires Valid() && Here(n, path) && Sub(tree, path).Empty?
      requires 1 <= |r| <= 0xFFFF && forall i :: 0 <= i < |r| ==> 1 <= r[i] <= 63
      modifies this
      ensures Valid() && Settled(old(keys), true, keys, PathKey(old(tree), path) + r)
    {
      NodeFacts(mem, entry, tree, n, path);
      ghost var t, mem0, entry0 := Sub(tree, path), mem, entry;
      var nd := Load(n);
      DecodeMagic(mem, nd, t);
      var leaf := Alloc(LeafB(r));
      Store(n, Node(nd.magic + 0x81, leaf));
      NewLeafStep(mem0, entry0, tree, n, path, leaf, r, Node(nd.magic + 0x81, leaf), mem, entry);
      NewLeafAdds(t, leaf, r);
      Finish(n, path, mem0, entry0, Leaf(t.term, leaf, r), Node(nd.magic + 0x81, leaf), r);
    }

    /** The whole leaf matched and the key goes on: flag its end and append the rest. */
    method ExpandLeaf(n: Loc, r: seq<int>, ghost path: seq<nat>)
      requires Valid() && Here(n, path) && Sub(tree, path).Leaf?
      requires |Sub(tree, path).s| < |r| <= 0xFFFF && Agree(Sub(tree, path).s, r[..|Sub(tree, path).s|])
      requires forall i :: 0 <= i < |r| ==> 1 <= r[i] <= 63
      modifies this
      ensures Valid() && Settled(old(keys), true, keys, PathKey(old(tree), path) + r)
    {
      NodeFacts(mem, entry, tree, n, path);
      ghost var t, mem0, entry0 := Sub(tree, path), mem, entry;
      assert Footprint(t) == {t.addr};
      var nd := Load(n);
      var s' := Expanded(mem[nd.next].s, r);
      var leaf := Realloc(nd.next, LeafB(s'));
      Store(n, Node(nd.magic, leaf));
      ExpandAdds(t, leaf, r);
      LeafStep(mem0, entry0, tree, n, path, leaf, s', Node(nd.magic, leaf), mem, entry);
      Finish(n, path, mem0, entry0, Leaf(t.term, leaf, s'), Node(nd.magic, leaf), r);
    }

    /** The key ends inside a leaf or connection: flag its last character there. */
    method MarkInside(n: Loc, leaf: bool, r: seq<int>, ghost path: seq<nat>)
      requires Valid() && Here(n, path)
      requires var t := Sub(tree, path);
        && (if leaf then t.Leaf? && |r| < |t.s| else t.Inner? && t.link.Via?)
        && 0 < |r| <= |TextOf(t)| && Agree(TextOf(t), r) && !Marked(TextOf(t)[|r| - 1])
      modifies this
      ensures Valid() && Settled(old(keys), true, keys, PathKey(old(tree), path) + r)
    {
      NodeFacts(mem, entry, tree, n, path);
      ghost var t, mem0, entry0 := Sub(tree, path), mem, entry;
      var nd := Load(n);
      assert nd.next in Footprint(t);
      var x, s := |r|, mem[nd.next].s;
      var s' := s[x - 1 := s[x - 1] + 0x40];
      mem := mem[nd.next := if leaf then LeafB(s') else ConnB(s', mem[nd.next].node)];
      MarkAdds(t, r);
      MarkStep(mem0, entry0, tree, n, path, nd, x - 1, mem);
      Finish(n, path, mem0, entry0, MarkAt(t, x - 1), nd, r);
    }

    // ---- mtrie_tryadd --------------------------------------------------------------

    /** The characters of a leaf or connection that agree with the rest of the key. */
    method Compare(s2: seq<int>, r: seq<int>) returns (x: nat)
      ensures x <= |s2| && x <= |r| && Agree(s2, r[..x])
      ensures x < |s2| && x < |r| ==> r[x] != Low6(s2[x])
    {
      var y := if |s2| > |r| then |r| else |s2|;
      x := 0;
      while x < y && r[x] == Low6(s2[x])
        invariant 0 <= x <= y && Agree(s2, r[..x])
      {
        x := x + 1;
      }
    }

    /** The key agrees with a whole leaf, or ends in it. */
    method LeafAgrees(n: Loc, x: nat, r: seq<int>, ghost path: seq<nat>) returns (added: bool)
      requires Valid() && Here(n, path) && Sub(tree, path).Leaf?
      requires 1 <= |r| <= 0xFFFF && forall i :: 0 <= i < |r| ==> 1 <= r[i] <= 63
      requires var s := Sub(tree, path).s; x == (if |s| < |r| then |s| else |r|) && Agree(s, r[..x])
      modifies this
      ensures Valid() && Settled(old(keys), added, keys, PathKey(old(tree), path) + r)
    {
      NodeMagic(mem, entry, tree, n, path);
      var nd := Load(n);
      var s2 := mem[nd.next].s;
      if |r| > |s2| {
        ExpandLeaf(n, r, path);
        return true;
      }
      assert r[..x] == r;
      RepHas(mem, entry, tree, keys, path, r);
      if x < |s2| && !Marked(s2[x - 1]) {
        MarkInside(n, true, r, path);
        return true;
      }
      return false;
    }

    /** The key ends in a connection. */
    method ConnEnds(n: Loc, r: seq<int>, ghost path: seq<nat>) returns (added: bool)
      requires Valid() && Here(n, path) && Sub(tree, path).Inner? && Sub(tree, path).link.Via?
      requires 1 <= |r| <= |Sub(tree, path).link.s| && Agree(Sub(tree, path).link.s, r)
      modifies this
      ensures Valid() && Settled(old(keys), added, keys, PathKey(old(tree), path) + r)
    {
      NodeMagic(mem, entry, tree, n, path);
      var nd := Load(n);
      var s2 := mem[nd.next].s;
      if Marked(s2[|r| - 1]) {
        RepHas(mem, entry, tree, keys, path, r);
        return false;
      }
      MarkInside(n, false, r, path);
      return true;
    }

    /** A step at a leaf or connection: r is the rest of the key, folded.
        Either the key is settled, or `used` characters lead to the node n'. */
    method InText(n: Loc, leaf: bool, r: seq<int>, ghost path: seq<nat>)
      returns (done: bool, added: bool, n': Loc, used: nat, ghost path': seq<nat>)
      requires Valid() && Here(n, path)
      requires if leaf then Sub(tree, path).Leaf? else Sub(tree, path).Inner? && Sub(tree, path).link.Via?
      requires 1 <= |r| <= 0xFFFF && forall i :: 0 <= i < |r| ==> 1 <= r[i] <= 63
      modifies this
      ensures Valid()
      ensures done ==> Settled(old(keys), added, keys, PathKey(old(tree), path) + r)
      ensures !done ==> keys == old(keys) && Here(n', path') && 0 < used <= |r|
      ensures !done ==> PathKey(tree, path') == PathKey(old(tree), path) + r[..used]
    {
      NodeMagic(mem, entry, tree, n, path);
      ghost var pk := PathKey(tree, path);
      n', used, path', added := n, 0, path, false;
      var nd := Load(n);
      var s2 := if leaf then mem[nd.next].s else mem[nd.next].s;
      assert s2 == TextOf(Sub(tree, path));
      var x := Compare(s2, r);
      if x < |s2| && x < |r| {
        n', path' := Split(n, leaf, x, r[x], path);
        StepKey(pk + r, |pk|, r, s2, x);
        return false, false, n', x + 1, path';
      }
      if leaf {
        added := LeafAgrees(n, x, r, path);
        return true, added, n, 0, path;
      }
      if x == |r| {
        assert r[..x] == r;
        added := ConnEnds(n, r, path);
        return true, added, n, 0, path;
      }
      n', path' := PastConn(n, r, x, path);
      return false, false, n', x + 1, path';
    }

    /** The key agrees with a whole connection and goes on. */
    method PastConn(n: Loc, r: seq<int>, x: nat, ghost path: seq<nat>) returns (n': Loc, ghost path': seq<nat>)
      requires Valid() && Here(n, path) && Sub(tree, path).Inner? && Sub(tree, path).link.Via?
      requires x == |Sub(tree, path).link.s| < |r| && Agree(Sub(tree, path).link.s, r[..x])
      requires forall i :: 0 <= i < |r| ==> 1 <= r[i] <= 63
      modifies this
      ensures Valid() && keys == old(keys) && Here(n', path')
      ensures PathKey(tree, path') == PathKey(old(tree), path) + r[..x + 1]
    {
      NodeMagic(mem, entry, tree, n, path);
      ghost var pk := PathKey(tree, path);
      var nd := Load(n);
      var s2 := mem[nd.next].s;
      StepKey(pk + r, |pk|, r, s2, x);
      assert s2[..x] == s2;
      var inner := mem[nd.next].node;
      n', path' := Next(InConn(nd.next), inner.next, Low6(inner.magic), r[x], n, path);
    }

    /** The body of the loop of mtrie_tryadd: r is the rest of the key. */
    method Visit(n: Loc, r: seq<int>, ghost path: seq<nat>)
      returns (done: bool, added: bool, n': Loc, used: nat, ghost path': seq<nat>)
      requires Valid() && Here(n, path)
      requires |r| <= 0xFFFF && forall i :: 0 <= i < |r| ==> 1 <= r[i] <= 63
      modifies this
      ensures Valid()
      ensures done ==> Settled(old(keys), added, keys, PathKey(old(tree), path) + r)
      ensures !done ==> keys == old(keys) && Here(n', path') && 0 < used <= |r|
      ensures !done ==> PathKey(tree, path') == PathKey(old(tree), path) + r[..used]
    {
      n', used, path', added := n, 0, path, false;
      if |r| == 0 {
        assert PathKey(tree, path) + r == PathKey(tree, path);
        added := KeyEnds(n, path);
        return true, added, n, 0, path;
      }
      NodeMagic(mem, entry, tree, n, path);
      var nd := Load(n);
      var v := Low6(nd.magic);
      if nd.magic >= 0x80 {
        done, added, n', used, path' := InText(n, v != 0, r, path);
      } else if v == 0 {
        NewLeaf(n, r, path);
        return true, true, n, 0, path;
      } else {
        n', path' := Next(n, nd.next, v, r[0], n, path);
        assert Codes([]) == [] && r[..1] == [r[0]];
        return false, false, n', 1, path';
      }
    }

    /** mtrie_tryadd: 1 exactly when the folded key was not stored; afterwards
        the old keys and this one are stored, and nothing else. */
    method TryAdd(url: Url) returns (added: bool)
      requires Valid() && Accepted(url)
      modifies this
      ensures Valid()
      ensures added <==> Key(url) !in old(keys)
      ensures keys == old(keys) + {Key(url)}
    {
      var s, e, n, done := url.hostO, |url.str|, Entry, false;
      ghost var path, key := [], Key(url);
      added := false;
      assert PathKey(tree, path) == [] && key == [] + key[0..];
      while !done
        invariant Valid() && url.hostO <= s <= e
        invariant done ==> Settled(old(keys), added, keys, key)
        invariant !done ==> keys == old(keys) && Here(n, path) && Splits(key, PathKey(tree, path), s - url.hostO)
        decreases !done, e - s
      {
        var used;
        ghost var pk := PathKey(tree, path);
        var rest := Rest(url, s, key);
        done, added, n, used, path := Visit(n, rest, path);
        if !done {
          SplitsMore(key, pk, s - url.hostO, used);
          s := s + used;
        }
      }
    }
  }

  /** What the cache is given: URL-encoded text of 16-bit size. */
  predicate Accepted(url: Url) {
    url.hostO <= |url.str| <= 0xFFFF && AllPrintable(url.str[url.hostO..])
  }

  /** The characters from s on, folded. */
  method Rest(url: Url, s: nat, ghost key: seq<int>) returns (rest: seq<int>)
    requires Accepted(url) && url.hostO <= s <= |url.str| && key == Key(url)
    ensures rest == key[s - url.hostO..] && |rest| <= 0xFFFF
    ensures forall i :: 0 <= i < |rest| ==> 1 <= rest[i] <= 63
  {
    rest := FoldAll(url.str[s..]);
  }

  /** pk is the part of the key already consumed, s its length. */
  ghost predicate Splits(key: seq<int>, pk: seq<int>, s: nat) {
    s <= |key| && key == pk + key[s..]
  }

  lemma SplitsMore(key: seq<int>, pk: seq<int>, s: nat, x: nat)
    requires Splits(key, pk, s) && s + x <= |key|
    ensures Splits(key, pk + key[s..][..x], s + x)
  {
    assert key[s..] == key[s..][..x] + key[s + x..];
  }

  /** What mtrie_tryadd promises of the stored keys when it returns. */
  ghost predicate Settled(keys: set<seq<int>>, added: bool, keys': set<seq<int>>, key: seq<int>) {
    (added <==> key !in keys) && keys' == keys + {key}
  }

  /** The key of a URL: its characters from the host on, folded. */
  function Key(url: Url): seq<int>
    requires url.hostO <= |url.str| && AllPrintable(url.str[url.hostO..])
  {
    FoldAll(url.str[url.hostO..])
  }

  /** From the host on the URLs have the same characters, up to those that fold to one. */
  predicate SameUrl(u: Url, v: Url)
    requires Accepted(u) && Accepted(v)
  {
    && |u.str| - u.hostO == |v.str| - v.hostO
    && forall i, j :: u.hostO <= i < |u.str| && v.hostO <= j < |v.str| && i - u.hostO == j - v.hostO ==>
         SameChar(u.str[i], v.str[j])
  }

  predicate SameText(s: seq<int>, t: seq<int>) {
    |s| == |t| && forall i :: 0 <= i < |s| ==> SameChar(s[i], t[i])
  }

  lemma FoldTells(s: seq<int>, t: seq<int>)
    requires AllPrintable(s) && AllPrintable(t)
    ensures FoldAll(s) == FoldAll(t) <==> SameText(s, t)
  {
    forall i | 0 <= i < |s| && i < |t|
      ensures FoldAll(s)[i] == FoldAll(t)[i] <==> SameChar(s[i], t[i])
    {
      FoldCollisions(s[i], t[i]);
    }
  }

  lemma SameParts(u: Url, v: Url)
    requires Accepted(u) && Accepted(v)
    ensures SameUrl(u, v) <==> SameText(u.str[u.hostO..], v.str[v.hostO..])
  {
    var s, t := u.str[u.hostO..], v.str[v.hostO..];
    if SameText(s, t) {
      forall i, j | u.hostO <= i < |u.str| && v.hostO <= j < |v.str| && i - u.hostO == j - v.hostO
        ensures SameChar(u.str[i], v.str[j])
      {
        assert u.str[i] == s[i - u.hostO] && v.str[j] == t[i - u.hostO];
      }
    }
  }

  /** The cache tells two URLs apart exactly when they differ from the host on. */
  lemma KeyTells(u: Url, v: Url)
    requires Accepted(u) && Accepted(v)
    ensures Key(u) == Key(v) <==> SameUrl(u, v)
  {
    FoldTells(u.str[u.hostO..], v.str[v.hostO..]);
    SameParts(u, v);
  }

  /** Some URL of the list is the same as u for the cache. */
  predicate SeenIn(u: Url, urls: seq<Url>)
    requires Accepted(u) && forall j :: 0 <= j < |urls| ==> Accepted(urls[j])
  {
    exists j :: 0 <= j < |urls| && SameUrl(urls[j], u)
  }

  /** Any number of calls on a new cache: a URL is answered 1 exactly when none
      before it was the same. */
  method TryAddAll(urls: seq<Url>) returns (answers: seq<bool>)
    requires forall i :: 0 <= i < |urls| ==> Accepted(urls[i])
    ensures |answers| == |urls|
    ensures forall k :: 0 <= k < |urls| ==> (answers[k] <==> !SeenIn(urls[k], urls[..k]))
  {
    var cache := new MTrie();
    answers := [];
    for k := 0 to |urls|
      invariant cache.Valid() && fresh(cache) && |answers| == k
      invariant cache.keys == set j | 0 <= j < k :: Key(urls[j])
      invariant forall i :: 0 <= i < k ==> (answers[i] <==> !SeenIn(urls[i], urls[..i]))
    {
      assert Key(urls[k]) in cache.keys <==> SeenIn(urls[k], urls[..k]) by {
        forall j | 0 <= j < k ensures Key(urls[j]) == Key(urls[k]) <==> SameUrl(urls[j], urls[k]) {
          KeyTells(urls[j], urls[k]);
        }
        assert forall j :: 0 <= j < k ==> urls[..k][j] == urls[j];
      }
      var added := cache.TryAdd(urls[k]);
      answers := answers + [added];
    }
  }

  /** The flags and the count packed in a magic number. */
  lemma DecodeMagic(mem: Mem, nd: Node, t: Tree)
    requires Denotes(mem, nd, t) && WF(t)
    ensures Marked(nd.magic) <==> t.term
    ensures nd.magic >= 0x80 <==> t.Leaf? || (t.Inner? && t.link.Via?)
    ensures t.Leaf? ==> Low6(nd.magic) == 1
    ensures t.Inner? && t.link.Via? ==> Low6(nd.magic) == 0
    ensures t.Inner? && t.link.Direct? ==> Low6(nd.magic) == |t.kids|
    ensures t.Inner? ==> 2 <= |t.kids| <= 63
    ensures t.Empty? ==> Low6(nd.magic) == 0
  {
    if t.Inner? { BranchCountFits(t.kids); }
  }

  lemma TermDenotes(mem: Mem, nd: Node, t: Tree, mem': Mem)
    requires Denotes(mem, nd, t) && !t.term
    requires forall a :: a in Footprint(t) && a in mem ==> a in mem' && mem'[a] == mem[a]
    ensures Denotes(mem', Node(nd.magic + 0x40, nd.next), t.(term := true))
    ensures Footprint(t.(term := true)) == Footprint(t) && (Sep(t) ==> Sep(t.(term := true)))
  {
    DenotesFrame(mem, mem', nd, t);
  }

  lemma MarkDenotes(mem: Mem, nd: Node, t: Tree, i: nat, mem': Mem)
    requires Denotes(mem, nd, t) && Sep(t) && (t.Leaf? || (t.Inner? && t.link.Via?)) && i < |TextOf(t)|
    requires !Marked(TextOf(t)[i])
    requires var s' := TextOf(t)[i := TextOf(t)[i] + 0x40];
      mem' == mem[nd.next := if t.Leaf? then LeafB(s') else ConnB(s', mem[nd.next].node)]
    ensures Denotes(mem', nd, MarkAt(t, i)) && Sep(MarkAt(t, i)) && Footprint(MarkAt(t, i)) == Footprint(t)
  {
    if t.Inner? {
      forall j | 0 <= j < |t.kids| ensures Denotes(mem', mem'[t.b].pos[j].node, t.kids[j].t) {
        DenotesFrame(mem, mem', mem[t.b].pos[j].node, t.kids[j].t);
      }
    }
  }

  lemma StoredSame(mem: Mem, entry: Node, mem': Mem, n: Loc, p: nat, keep: set<nat>)
    requires !n.InConn? && (n.Slot? ==> n.b in mem && mem[n.b].BranchB? && n.i < |mem[n.b].pos| && n.b != p)
    requires p in mem && mem'.Keys == mem.Keys && p !in keep && keep <= mem.Keys
    requires forall k :: k in mem && k != p ==> mem'[k] == mem[k]
    ensures Stored(mem, entry, mem', entry, n, NodeAt(mem, entry, n), keep)
  {
    if n.Slot? {
      var pos := mem[n.b].pos;
      assert pos[n.i := pos[n.i].(node := pos[n.i].node)] == pos;
    }
  }

  /** One step down consumes the characters of the string passed and one more. */
  lemma StepKey(key: seq<int>, o: nat, r: seq<int>, s: seq<int>, x: nat)
    requires o <= |key| && r == key[o..] && x < |r| && x <= |s| && Agree(s, r[..x])
    ensures key[..o + x + 1] == key[..o] + Codes(s[..x]) + [r[x]]
  {
    assert Codes(s[..x]) == r[..x];
  }

  function AboveNode(nd: Node, head: seq<int>, br: nat, cn: nat): Node {
    if head == [] then Node(TermBit(Marked(nd.magic)) + 2, br) else Node(TermBit(Marked(nd.magic)) + 0x80, cn)
  }

  ghost predicate AboveDone(mem: Mem, entry: Node, n: Loc, nd: Node, head: seq<int>, br: nat, cn: nat, mem': Mem, entry': Node) {
    && !n.InConn? && (n.Slot? ==> n.b in mem && mem[n.b].BranchB? && n.i < |mem[n.b].pos|)
    && mem'.Keys == mem.Keys + (if head == [] then {} else {cn})
    && (head != [] ==> mem'[cn] == ConnB(head, Node(2, br)))
    && (forall k :: k in mem && (n.Slot? ==> k != n.b) ==> mem'[k] == mem[k])
    && (n.Entry? ==> entry' == AboveNode(nd, head, br, cn))
    && (n.Slot? ==> entry' == entry)
    && (n.Slot? ==> mem'[n.b] == BranchB(mem[n.b].pos[n.i := mem[n.b].pos[n.i].(node := AboveNode(nd, head, br, cn))]))
  }

  ghost predicate ShrinkDone(mem: Mem, p: nat, leaf: bool, x: nat, a: nat, mem': Mem)
    requires p in mem && (if leaf then mem[p].LeafB? else mem[p].ConnB?) && x < |mem[p].s|
  {
    var s := mem[p].s;
    var gone := leaf && x + 1 == |s|;
    && mem'.Keys == mem.Keys - {p} + (if gone then {} else {a})
    && (!gone ==> mem'[a] == if leaf then LeafB(s[x + 1..]) else ConnB(s[x + 1..], mem[p].node))
    && (forall k :: k in mem && k != p && (gone || k != a) ==> k in mem' && mem'[k] == mem[k])
  }

  lemma SplitCompose(mem: Mem, entry: Node, n: Loc, leaf: bool, x: nat, c1: int, cn: nat, br: nat, a: nat,
                     m1: Mem, m2: Mem, entry': Node, m3: Mem)
    requires !n.InConn? && (n.Slot? ==> n.b in mem && mem[n.b].BranchB? && n.i < |mem[n.b].pos|)
    requires var next := NodeAt(mem, entry, n).next;
      && next in mem && (if leaf then mem[next].LeafB? else mem[next].ConnB?) && x < |mem[next].s|
      && (n.Slot? ==> n.b != next)
    requires br !in mem && br != 0 && m1 == mem[br := BranchB([])]
    requires cn !in m1 && cn != 0
    requires AboveDone(m1, entry, n, NodeAt(mem, entry, n), mem[NodeAt(mem, entry, n).next].s[..x], br, cn, m2, entry')
    requires NodeAt(mem, entry, n).next in m2 && m2[NodeAt(mem, entry, n).next] == mem[NodeAt(mem, entry, n).next]
    requires ShrinkDone(m2, NodeAt(mem, entry, n).next, leaf, x, a, m3)
    requires a == NodeAt(mem, entry, n).next || a !in m2
    requires 0 < a && 0 < NodeAt(mem, entry, n).next
    ensures SplitDone(mem, entry, n, leaf, x, c1, cn, br, a,
              m3[br := BranchB(PairPos(c1, Node(0, 0), Low6(mem[NodeAt(mem, entry, n).next].s[x]), TailNode(leaf, mem[NodeAt(mem, entry, n).next].s, x, a)))], entry')
  {}

  function PairPos(c1: int, n1: Node, c2: int, n2: Node): seq<BrPos> {
    if c1 > c2 then [BrPos(c2, n2), BrPos(c1, n1)] else [BrPos(c1, n1), BrPos(c2, n2)]
  }

  function TailNode(leaf: bool, s: seq<int>, x: nat, a: nat): Node
    requires x < |s|
  {
    if leaf && x + 1 == |s| then Node(0x40, 0)
    else Node((if leaf then 0x81 else 0x80) + TermBit(Marked(s[x])), a)
  }

  /** The heap after SplitMem. */
  ghost predicate SplitDone(mem: Mem, entry: Node, n: Loc, leaf: bool, x: nat, c1: int,
                            cn: nat, br: nat, a: nat, mem': Mem, entry': Node)
    requires !n.InConn? && (n.Slot? ==> n.b in mem && mem[n.b].BranchB? && n.i < |mem[n.b].pos|)
    requires var next := NodeAt(mem, entry, n).next;
      && next in mem && (if leaf then mem[next].LeafB? else mem[next].ConnB?) && x < |mem[next].s|
      && (n.Slot? ==> n.b != next)
  {
    var nd := NodeAt(mem, entry, n);
    var s := mem[nd.next].s;
    var gone := leaf && x + 1 == |s|;
    var w := AboveNode(nd, s[..x], br, cn);
    && br !in mem && br != 0 && cn !in mem && (x > 0 ==> cn != 0 && cn != br)
    && (a == nd.next || (a !in mem && a != br && (x > 0 ==> a != cn))) && 0 < a
    && mem'.Keys == mem.Keys - {nd.next} + ({br} + (if x > 0 then {cn} else {}) + (if gone then {} else {a}))
    && mem'[br] == BranchB(PairPos(c1, Node(0, 0), Low6(s[x]), TailNode(leaf, s, x, a)))
    && (x > 0 ==> mem'[cn] == ConnB(s[..x], Node(2, br)))
    && (!gone ==> mem'[a] == if leaf then LeafB(s[x + 1..]) else ConnB(s[x + 1..], mem[nd.next].node))
    && (n.Entry? ==> entry' == w)
    && (n.Slot? ==> entry' == entry && mem'[n.b] == BranchB(mem[n.b].pos[n.i := mem[n.b].pos[n.i].(node := w)]))
    && (forall k :: k in mem && k != nd.next && (n.Slot? ==> k != n.b) ==> k in mem' && mem'[k] == mem[k])
  }

  ghost predicate SplitCase(mem: Mem, entry: Node, u: Tree, n: Loc, leaf: bool, x: nat, c1: int,
                            cn: nat, br: nat, a: nat, mem': Mem, entry': Node) {
    && !n.InConn? && (n.Slot? ==> n.b in mem && mem[n.b].BranchB? && n.i < |mem[n.b].pos| && n.b !in Footprint(u))
    && Denotes(mem, NodeAt(mem, entry, n), u) && WF(u) && Sep(u)
    && (if leaf then u.Leaf? else u.Inner? && u.link.Via?)
    && x < |TextOf(u)| && c1 != Low6(TextOf(u)[x])
    && SplitDone(mem, entry, n, leaf, x, c1, cn, br, a, mem', entry')
  }

  lemma SplitFrame(mem: Mem, entry: Node, u: Tree, n: Loc, leaf: bool, x: nat, c1: int,
                   cn: nat, br: nat, a: nat, mem': Mem, entry': Node)
    requires SplitCase(mem, entry, u, n, leaf, x, c1, cn, br, a, mem', entry')
    ensures n.Slot? ==> n.b in mem' && mem'[n.b].BranchB? && n.i < |mem'[n.b].pos|
    ensures Stored(mem, entry, mem', entry', n, NodeAt(mem', entry', n), mem.Keys - Footprint(u))
    ensures var added := SplitNew(u, x, cn, br, a);
      && mem'.Keys == mem.Keys - {NodeAt(mem, entry, n).next} + added
      && NodeAt(mem, entry, n).next in Footprint(u)
      && forall k :: k in added && k != NodeAt(mem, entry, n).next ==> k !in mem.Keys
  {
    assert NodeAt(mem, entry, n).next in Footprint(u);
  }

  lemma SplitDenotes(mem: Mem, entry: Node, u: Tree, n: Loc, leaf: bool, x: nat, c1: int,
                     cn: nat, br: nat, a: nat, mem': Mem, entry': Node)
    requires SplitCase(mem, entry, u, n, leaf, x, c1, cn, br, a, mem', entry')
    requires n.Slot? ==> n.b in mem' && mem'[n.b].BranchB? && n.i < |mem'[n.b].pos|
    ensures var v := SplitTree(u, x, c1, cn, br, a);
      && Sep(v) && Denotes(mem', NodeAt(mem', entry', n), v)
      && Footprint(v) == Footprint(u) - {NodeAt(mem, entry, n).next} + SplitNew(u, x, cn, br, a)
  {
    SplitLocal(mem, NodeAt(mem, entry, n), u, x, c1, cn, br, a, mem', NodeAt(mem', entry', n));
  }

  /** The blocks a split leaves in place of the old one. */
  function SplitNew(u: Tree, x: nat, cn: nat, br: nat, a: nat): set<nat> {
    {br} + (if x > 0 then {cn} else {}) + (if u.Leaf? && x + 1 == |TextOf(u)| then {} else {a})
  }

  /** Exchanging one block of a subtree for new ones. */
  lemma Exchange(whole: set<nat>, part: set<nat>, next: nat, added: set<nat>)
    requires next in part && part <= whole
    requires forall k :: k in added && k != next ==> k !in whole
    ensures (part - {next} + added) !! (whole - part)
    ensures whole - {next} + added == whole - part + (part - {next} + added)
  {}

  /** The split of one node, apart from the rest of the tree. */
  lemma SplitLocal(mem: Mem, nd: Node, u: Tree, x: nat, c1: int, cn: nat, br: nat, a: nat, mem': Mem, w: Node)
    requires Denotes(mem, nd, u) && Sep(u) && WF(u) && (u.Leaf? || (u.Inner? && u.link.Via?)) && x < |TextOf(u)|
    requires br !in mem && br != 0 && br in mem'
    requires mem'[br] == BranchB(PairPos(c1, Node(0, 0), Low6(TextOf(u)[x]), TailNode(u.Leaf?, TextOf(u), x, a)))
    requires x > 0 ==> cn !in mem && cn != 0 && cn != br && cn in mem' && mem'[cn] == ConnB(TextOf(u)[..x], Node(2, br))
    requires 0 < a && (a == nd.next || (a !in mem && a != br && (x > 0 ==> a != cn)))
    requires u.Inner? || x + 1 < |TextOf(u)| ==> a in mem'
    requires u.Inner? || x + 1 < |TextOf(u)| ==>
      mem'[a] == if u.Leaf? then LeafB(u.s[x + 1..]) else ConnB(u.link.s[x + 1..], Node(|u.kids|, u.b))
    requires w == if x == 0 then Node(TermBit(u.term) + 2, br) else Node(TermBit(u.term) + 0x80, cn)
    requires forall k :: k in Footprint(u) && k in mem && k != nd.next ==> k in mem' && mem'[k] == mem[k]
    ensures var v := SplitTree(u, x, c1, cn, br, a);
      && Sep(v) && Denotes(mem', w, v)
      && Footprint(v) == Footprint(u) - {nd.next} + SplitNew(u, x, cn, br, a)
  {
    TailDenotes(mem, nd, u, x, a, mem');
    DenotesAllocated(mem, nd, u);
    SplitBlocks(mem, nd, u, x, c1, cn, br, a);
    SplitNode(u, x, c1, cn, br, a, mem', w);
  }

  lemma SplitBlocks(mem: Mem, nd: Node, u: Tree, x: nat, c1: int, cn: nat, br: nat, a: nat)
    requires (u.Leaf? || (u.Inner? && u.link.Via?)) && x < |TextOf(u)| && Footprint(u) <= mem.Keys
    requires br !in mem && (x > 0 ==> cn !in mem && cn != br)
    requires a == nd.next || (a !in mem && a != br && (x > 0 ==> a != cn))
    requires Sep(Tail(u, x, a)) && nd.next in mem
    requires Footprint(Tail(u, x, a)) == Footprint(u) - {nd.next} + (if u.Leaf? && x + 1 == |TextOf(u)| then {} else {a})
    ensures var v := SplitTree(u, x, c1, cn, br, a);
      Sep(v) && Footprint(v) == Footprint(u) - {nd.next} + SplitNew(u, x, cn, br, a)
  {
    SplitSep(u, x, c1, cn, br, a);
  }

  lemma SplitSep(u: Tree, x: nat, c1: int, cn: nat, br: nat, a: nat)
    requires (u.Leaf? || (u.Inner? && u.link.Via?)) && x < |TextOf(u)|
    requires Sep(Tail(u, x, a)) && br !in Footprint(Tail(u, x, a))
    requires x > 0 ==> cn !in Footprint(Tail(u, x, a)) && cn != br
    ensures var v := SplitTree(u, x, c1, cn, br, a);
      Sep(v) && Footprint(v) == {br} + (if x > 0 then {cn} else {}) + Footprint(Tail(u, x, a))
  {
    var v := SplitTree(u, x, c1, cn, br, a);
    var e := if c1 > Low6(TextOf(u)[x]) then 1 else 0;
    assert v.kids[e].t == Empty(false) && v.kids[1 - e].t == Tail(u, x, a);
    PairFootprint(v, e);
    assert LinkAddrs(v.link) == if x > 0 then {cn} else {};
  }

  lemma SplitNode(u: Tree, x: nat, c1: int, cn: nat, br: nat, a: nat, mem: Mem, w: Node)
    requires (u.Leaf? || (u.Inner? && u.link.Via?)) && x < |TextOf(u)|
    requires Denotes(mem, TailNode(u.Leaf?, TextOf(u), x, a), Tail(u, x, a))
    requires br != 0 && br in mem
    requires mem[br] == BranchB(PairPos(c1, Node(0, 0), Low6(TextOf(u)[x]), TailNode(u.Leaf?, TextOf(u), x, a)))
    requires x > 0 ==> cn != 0 && cn in mem && mem[cn] == ConnB(TextOf(u)[..x], Node(2, br))
    requires w == if x == 0 then Node(TermBit(u.term) + 2, br) else Node(TermBit(u.term) + 0x80, cn)
    ensures Denotes(mem, w, SplitTree(u, x, c1, cn, br, a))
  {
    var v := SplitTree(u, x, c1, cn, br, a);
    assert Denotes(mem, Node(0, 0), Empty(false));
    forall i | 0 <= i < |v.kids| ensures Denotes(mem, mem[br].pos[i].node, v.kids[i].t) {}
  }

  /** The footprint of a branch with an empty child at e and one other. */
  lemma PairFootprint(v: Tree, e: nat)
    requires v.Inner? && |v.kids| == 2 && e < 2 && v.kids[e].t == Empty(false)
    ensures Footprint(v) == LinkAddrs(v.link) + {v.b} + Footprint(v.kids[1 - e].t)
  {}

  lemma TailKids(mem: Mem, nd: Node, u: Tree, a: nat, mem': Mem)
    requires Denotes(mem, nd, u) && Sep(u) && u.Inner? && u.link.Via? && (a == nd.next || a !in mem)
    requires forall k :: k in Footprint(u) && k in mem && k != nd.next ==> k in mem' && mem'[k] == mem[k]
    ensures u.b in mem && u.b in mem' && mem'[u.b] == mem[u.b] && a != u.b
    ensures forall i :: 0 <= i < |u.kids| ==>
      Denotes(mem', mem[u.b].pos[i].node, u.kids[i].t) && a !in Footprint(u.kids[i].t)
  {
    assert u.b in Footprint(u);
    forall i | 0 <= i < |u.kids|
      ensures Denotes(mem', mem[u.b].pos[i].node, u.kids[i].t) && a !in Footprint(u.kids[i].t)
    {
      KidFootprint(u, i);
      DenotesFrame(mem, mem', mem[u.b].pos[i].node, u.kids[i].t);
      DenotesAllocated(mem, mem[u.b].pos[i].node, u.kids[i].t);
    }
  }

  lemma TailDenotes(mem: Mem, nd: Node, u: Tree, x: nat, a: nat, mem': Mem)
    requires Denotes(mem, nd, u) && Sep(u) && WF(u)
    requires (u.Leaf? || (u.Inner? && u.link.Via?)) && x < |TextOf(u)|
    requires 0 < a && (a == nd.next || a !in mem)
    requires u.Inner? || x + 1 < |TextOf(u)| ==> a in mem'
    requires u.Inner? || x + 1 < |TextOf(u)| ==>
      mem'[a] == if u.Leaf? then LeafB(u.s[x + 1..]) else ConnB(u.link.s[x + 1..], Node(|u.kids|, u.b))
    requires forall k :: k in Footprint(u) && k in mem && k != nd.next ==> k in mem' && mem'[k] == mem[k]
    ensures var v := Tail(u, x, a);
      && Sep(v) && Denotes(mem', TailNode(u.Leaf?, TextOf(u), x, a), v)
      && Footprint(v) == Footprint(u) - {nd.next} + (if u.Leaf? && x + 1 == |TextOf(u)| then {} else {a})
  {
    var v := Tail(u, x, a);
    if u.Inner? {
      TailKids(mem, nd, u, a, mem');
      assert Footprint(u) == {nd.next} + {u.b} + KidsFootprint(u.kids);
      assert Footprint(v) == {a} + {u.b} + KidsFootprint(u.kids);
    }
  }

  /** The heap after the array p of the node at m has grown by a position for c at x. */
  ghost predicate Grown(mem: Mem, entry: Node, m: Loc, p: nat, x: nat, c: int, p': nat, mem': Mem, entry': Node)
    requires p in mem && mem[p].BranchB? && x <= |mem[p].pos|
    requires m.Slot? ==> m.b != p && m.b in mem && mem[m.b].BranchB? && m.i < |mem[m.b].pos|
    requires m.InConn? ==> m.a != p && m.a in mem && mem[m.a].ConnB?
  {
    var mid := (mem - {p})[p' := BranchB(WithPos(mem[p].pos, x, c))];
    && (p' == p || p' !in mem) && 0 < p'
    && match m
      case Entry => entry' == Node(entry.magic + 1, p') && mem' == mid
      case InConn(a) =>
        entry' == entry && mem' == mid[a := ConnB(mem[a].s, Node(mem[a].node.magic + 1, p'))]
      case Slot(b, i) =>
        entry' == entry && mem' == mid[b := BranchB(mem[b].pos[i := mem[b].pos[i].(node := Node(mem[b].pos[i].node.magic + 1, p'))])]
  }

  lemma GrownStored(mem: Mem, entry: Node, n: Loc, m: Loc, p: nat, x: nat, c: int, p': nat, mem': Mem, entry': Node, keep: set<nat>)
    requires p in mem && mem[p].BranchB? && x <= |mem[p].pos|
    requires m == n || m.InConn?
    requires !n.InConn? && (n.Slot? ==> n.b in mem && mem[n.b].BranchB? && n.i < |mem[n.b].pos| && n.b != p)
    requires m.InConn? ==> m.a != p && m.a in mem && mem[m.a].ConnB?
    requires n.Slot? && m.InConn? ==> n.b != m.a
    requires Grown(mem, entry, m, p, x, c, p', mem', entry')
    requires keep <= mem.Keys && p !in keep && (m.InConn? ==> m.a !in keep)
    ensures n.Slot? ==> n.b in mem' && mem'[n.b].BranchB? && n.i < |mem'[n.b].pos|
    ensures Stored(mem, entry, mem', entry', n, NodeAt(mem', entry', n), keep)
  {}

  /** The situation of Insert, around the call of Grow. */
  ghost predicate Growth(mem: Mem, entry: Node, u: Tree, n: Loc, m: Loc, x: nat, c: int, p': nat, mem': Mem, entry': Node) {
    && !n.InConn? && (n.Slot? ==> n.b in mem && mem[n.b].BranchB? && n.i < |mem[n.b].pos| && n.b !in Footprint(u))
    && Denotes(mem, NodeAt(mem, entry, n), u) && Sep(u) && Footprint(u) <= mem.Keys
    && BranchHolder(m, n, u)
    && x <= |u.kids| && u.b in mem && mem[u.b].BranchB? && x <= |mem[u.b].pos|
    && (m.Slot? ==> m.b != u.b && m.b in mem && mem[m.b].BranchB? && m.i < |mem[m.b].pos|)
    && (m.InConn? ==> m.a != u.b && m.a in mem && mem[m.a].ConnB?)
    && Grown(mem, entry, m, u.b, x, c, p', mem', entry')
  }

  lemma GrownFrame(mem: Mem, entry: Node, u: Tree, n: Loc, m: Loc, x: nat, c: int, p': nat, mem': Mem, entry': Node)
    requires Growth(mem, entry, u, n, m, x, c, p', mem', entry')
    ensures n.Slot? ==> n.b in mem' && mem'[n.b].BranchB? && n.i < |mem'[n.b].pos|
    ensures Stored(mem, entry, mem', entry', n, NodeAt(mem', entry', n), mem.Keys - Footprint(u))
    ensures mem'.Keys == mem.Keys - {u.b} + {p'} && u.b in Footprint(u)
  {
    assert u.b in Footprint(u) && LinkAddrs(u.link) <= Footprint(u);
    GrownStored(mem, entry, n, m, u.b, x, c, p', mem', entry', mem.Keys - Footprint(u));
  }

  lemma GrownDenotes(mem: Mem, entry: Node, u: Tree, n: Loc, m: Loc, x: nat, c: int, p': nat, mem': Mem, entry': Node)
    requires Growth(mem, entry, u, n, m, x, c, p', mem', entry')
    requires n.Slot? ==> n.b in mem' && mem'[n.b].BranchB? && n.i < |mem'[n.b].pos|
    ensures var v := AddKid(u, x, c, p');
      && Sep(v) && Denotes(mem', NodeAt(mem', entry', n), v)
      && Footprint(v) == Footprint(u) - {u.b} + {p'}
  {
    assert u.b in Footprint(u) && LinkAddrs(u.link) <= Footprint(u);
    AddKidSep(u, x, c, p');
    AddKidDenotes(mem, NodeAt(mem, entry, n), u, x, c, p', mem', NodeAt(mem', entry', n));
  }

  lemma GrownStep(mem: Mem, entry: Node, t: Tree, n: Loc, path: seq<nat>, m: Loc, x: nat, c: int, p': nat, mem': Mem, entry': Node)
    requires ValidPath(t, path) && Sub(t, path).Inner? && WF(Sub(t, path))
    requires InsertionPoint(Sub(t, path).kids, x, c) && 1 <= c <= 63
    requires Growth(mem, entry, Sub(t, path), n, m, x, c, p', mem', entry')
    ensures n.Slot? ==> n.b in mem' && mem'[n.b].BranchB? && n.i < |mem'[n.b].pos|
    ensures HeapStep(mem, entry, t, n, path, AddKid(Sub(t, path), x, c, p'), NodeAt(mem', entry', n), mem', entry')
  {
    var u := Sub(t, path);
    GrownFrame(mem, entry, u, n, m, x, c, p', mem', entry');
    GrownDenotes(mem, entry, u, n, m, x, c, p', mem', entry');
    AddKidWF(u, x, c, p');
    Exchange(mem.Keys, Footprint(u), u.b, {p'});
  }

  lemma RepAddKidSame(mem: Mem, entry: Node, t: Tree, path: seq<nat>, x: nat, c: int, b: nat, keys: set<seq<int>>)
    requires Rep(mem, entry, t) && ValidPath(t, path) && Sub(t, path).Inner?
    requires InsertionPoint(Sub(t, path).kids, x, c) && 1 <= c <= 63
    requires Holds(t, keys)
    ensures Holds(Update(t, path, AddKid(Sub(t, path), x, c, b)), keys)
  {
    assert Unfold(0);
    AddKidSame(t, path, x, c, b);
    HoldsSame(t, Update(t, path, AddKid(Sub(t, path), x, c, b)), keys);
  }

  lemma SplitStep(mem: Mem, entry: Node, t: Tree, n: Loc, path: seq<nat>, leaf: bool, x: nat, c1: int,
                  cn: nat, br: nat, a: nat, mem': Mem, entry': Node)
    requires ValidPath(t, path) && Footprint(Sub(t, path)) <= mem.Keys && 1 <= c1 <= 63
    requires SplitCase(mem, entry, Sub(t, path), n, leaf, x, c1, cn, br, a, mem', entry')
    ensures n.Slot? ==> n.b in mem' && mem'[n.b].BranchB? && n.i < |mem'[n.b].pos|
    ensures HeapStep(mem, entry, t, n, path, SplitTree(Sub(t, path), x, c1, cn, br, a), NodeAt(mem', entry', n), mem', entry')
  {
    var u := Sub(t, path);
    SplitFrame(mem, entry, u, n, leaf, x, c1, cn, br, a, mem', entry');
    SplitDenotes(mem, entry, u, n, leaf, x, c1, cn, br, a, mem', entry');
    SplitWF(u, x, c1, cn, br, a);
    Exchange(mem.Keys, Footprint(u), NodeAt(mem, entry, n).next, SplitNew(u, x, cn, br, a));
  }

  lemma RepSplitSame(mem: Mem, entry: Node, t: Tree, path: seq<nat>, x: nat, c1: int, cn: nat, br: nat, a: nat, keys: set<seq<int>>)
    requires Rep(mem, entry, t) && ValidPath(t, path)
    requires var u := Sub(t, path); (u.Leaf? || (u.Inner? && u.link.Via?)) && x < |TextOf(u)|
    requires 1 <= c1 <= 63 && c1 != Low6(TextOf(Sub(t, path))[x])
    requires Holds(t, keys)
    ensures Holds(Update(t, path, SplitTree(Sub(t, path), x, c1, cn, br, a)), keys)
  {
    assert Unfold(0);
    SplitSame(t, path, x, c1, cn, br, a);
    HoldsSame(t, Update(t, path, SplitTree(Sub(t, path), x, c1, cn, br, a)), keys);
  }

  /** The node at n is in the structure or in a branch array. */
  predicate Placed(mem: Mem, n: Loc) {
    !n.InConn? && (n.Slot? ==> n.b in mem && mem[n.b].BranchB? && n.i < |mem[n.b].pos|)
  }

  /** What Store leaves. */
  ghost predicate Written(mem: Mem, entry: Node, n: Loc, w: Node, mem': Mem, entry': Node)
    requires Placed(mem, n)
  {
    match n
    case Entry => entry' == w && mem' == mem
    case Slot(b, i) => entry' == entry && mem' == mem[b := BranchB(mem[b].pos[i := mem[b].pos[i].(node := w)])]
  }

  lemma WrittenStored(mem: Mem, entry: Node, n: Loc, w: Node, mem': Mem, entry': Node, keep: set<nat>)
    requires Placed(mem, n) && Written(mem, entry, n, w, mem', entry') && keep <= mem.Keys
    ensures Stored(mem, entry, mem', entry', n, w, keep) && mem'.Keys == mem.Keys
  {
  }

  lemma WrittenApart(mem: Mem, entry: Node, n: Loc, w: Node, mem': Mem, entry': Node, part: set<nat>)
    requires Placed(mem, n) && Written(mem, entry, n, w, mem', entry') && (n.Slot? ==> n.b !in part)
    ensures forall a :: a in part && a in mem ==> a in mem' && mem'[a] == mem[a]
  {
  }

  /** The match flag of the node at n is set. */
  lemma TermStep(mem: Mem, entry: Node, t: Tree, n: Loc, path: seq<nat>, nd: Node, w: Node, mem': Mem, entry': Node)
    requires Rep(mem, entry, t) && ValidPath(t, path) && LocOf(t, path) == n && !Sub(t, path).term
    requires Placed(mem, n) && nd == NodeAt(mem, entry, n) && w == Node(nd.magic + 0x40, nd.next)
    requires Written(mem, entry, n, w, mem', entry')
    ensures HeapStep(mem, entry, t, n, path, Sub(t, path).(term := true), w, mem', entry')
  {
    var u := Sub(t, path);
    NodeFacts(mem, entry, t, n, path);
    WrittenStored(mem, entry, n, w, mem', entry', mem.Keys - Footprint(u));
    WrittenApart(mem, entry, n, w, mem', entry', Footprint(u));
    TermDenotes(mem, nd, u, mem');
    SetTermAdds(u);
  }

  /** An empty node gets a leaf. */
  lemma NewLeafStep(mem: Mem, entry: Node, t: Tree, n: Loc, path: seq<nat>, leaf: nat, r: seq<int>, w: Node, mem': Mem, entry': Node)
    requires Rep(mem, entry, t) && ValidPath(t, path) && LocOf(t, path) == n && Sub(t, path).Empty?
    requires leaf != 0 && leaf !in mem && 1 <= |r| <= 0xFFFF && forall i :: 0 <= i < |r| ==> 1 <= r[i] <= 63
    requires Placed(mem, n) && w == Node(0x81 + TermBit(Sub(t, path).term), leaf)
    requires Written(mem[leaf := LeafB(r)], entry, n, w, mem', entry')
    ensures HeapStep(mem, entry, t, n, path, Leaf(Sub(t, path).term, leaf, r), w, mem', entry')
  {
    NodeFacts(mem, entry, t, n, path);
    NewLeafAdds(Sub(t, path), leaf, r);
  }

  /** A character of the text at n is flagged. */
  lemma MarkStep(mem: Mem, entry: Node, t: Tree, n: Loc, path: seq<nat>, nd: Node, i: nat, mem': Mem)
    requires Rep(mem, entry, t) && ValidPath(t, path) && LocOf(t, path) == n
    requires Placed(mem, n) && nd == NodeAt(mem, entry, n) && nd.next in mem
    requires var u := Sub(t, path);
      && (if u.Leaf? then true else u.Inner? && u.link.Via? && mem[nd.next].ConnB?)
      && i < |TextOf(u)| && !Marked(TextOf(u)[i]) && WF(MarkAt(u, i))
      && var s' := TextOf(u)[i := TextOf(u)[i] + 0x40];
         mem' == mem[nd.next := if u.Leaf? then LeafB(s') else ConnB(s', mem[nd.next].node)]
    ensures HeapStep(mem, entry, t, n, path, MarkAt(Sub(t, path), i), nd, mem', entry)
  {
    var u := Sub(t, path);
    NodeFacts(mem, entry, t, n, path);
    assert nd.next in Footprint(u);
    MarkDenotes(mem, nd, u, i, mem');
    StoredSame(mem, entry, mem', n, nd.next, mem.Keys - Footprint(u));
  }

  /** A leaf whose block was rewritten, and perhaps moved. */
  lemma LeafStep(mem: Mem, entry: Node, t: Tree, n: Loc, path: seq<nat>, leaf: nat, s: seq<int>, w: Node, mem': Mem, entry': Node)
    requires ValidPath(t, path) && Sub(t, path).Leaf? && WF(Leaf(Sub(t, path).term, leaf, s)) && leaf != 0
    requires !n.InConn? && (n.Slot? ==> n.b in mem && mem[n.b].BranchB? && n.i < |mem[n.b].pos| && n.b != Sub(t, path).addr)
    requires w == Node(0x81 + TermBit(Sub(t, path).term), leaf)
    requires Sub(t, path).addr in mem && (leaf == Sub(t, path).addr || leaf !in mem)
    requires var mid := (mem - {Sub(t, path).addr})[leaf := LeafB(s)];
      match n
      case Entry => entry' == w && mem' == mid
      case Slot(b, i) => entry' == entry && mem' == mid[b := BranchB(mem[b].pos[i := mem[b].pos[i].(node := w)])]
      case InConn(_) => false
    ensures HeapStep(mem, entry, t, n, path, Leaf(Sub(t, path).term, leaf, s), w, mem', entry')
  {}

  lemma RepOneMore(mem: Mem, entry: Node, t: Tree, path: seq<nat>, u: Tree, keys: set<seq<int>>, r: seq<int>)
    requires Rep(mem, entry, t) && ValidPath(t, path) && Holds(t, keys)
    requires Adds(Sub(t, path), u, r) && !Has(Sub(t, path), r)
    ensures Holds(Update(t, path, u), keys + {PathKey(t, path) + r})
    ensures PathKey(t, path) + r !in keys
  {
    assert Unfold(0) && UnfoldKeys(0);
    OneMoreKey(t, path, u, PathKey(t, path) + r, r);
  }
}
