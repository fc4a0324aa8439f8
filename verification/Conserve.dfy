/** The handoff of worker.c moves URLs and neither loses nor copies one: every
    entry that is not nullified is in some frontier as often as before, and each
    waiting worker gets the next ones from the end of the giver's list. */
module Conserves {
  import opened Frontiers
  import opened Handoffs
  import opened Helpers

  function RowsLinks(rows: seq<seq<Entry>>): multiset<Entry> {
    if rows == [] then multiset{} else RowsLinks(rows[..|rows| - 1]) + Entries(rows[|rows| - 1])
  }

  /** The URLs of all frontiers. */
  function CrewLinks(ws: seq<Worker>): multiset<Entry> {
    if ws == [] then multiset{} else CrewLinks(ws[..|ws| - 1]) + RowsLinks(ws[|ws| - 1].h.rows)
  }

  function Popped(e: Option<Entry>): multiset<Entry> {
    if e.Some? then LinkOf(e.value) else multiset{}
  }

  lemma LinksSnoc(l: seq<Entry>, e: Entry)
    ensures Entries(l + [e]) == Entries(l) + LinkOf(e)
  {
    assert (l + [e])[..|l|] == l;
  }

  lemma {:induction false} PopLinks(l: seq<Entry>)
    ensures Entries(l) == Entries(Pop(l).0) + Popped(Pop(l).1)
    decreases |l|
  {
    if l != [] && l[|l| - 1].Null? {
      PopLinks(l[..|l| - 1]);
    }
  }

  lemma {:induction false} MoveLinks(src: seq<Entry>, dst: seq<Entry>, k: int)
    ensures Entries(Move(src, dst, k).0) + Entries(Move(src, dst, k).1) == Entries(src) + Entries(dst)
    decreases k
  {
    if k > 0 {
      var p := Pop(src);
      var dst' := if p.1.Some? then dst + [p.1.value] else dst;
      PopLinks(src);
      if p.1.Some? {
        LinksSnoc(dst, p.1.value);
        Rotate(Entries(p.0), Entries(dst), Popped(p.1));
      }
      MoveLinks(p.0, dst', k - 1);
    }
  }

  lemma SetTopLinks(rows: seq<seq<Entry>>, l: seq<Entry>)
    requires rows != []
    ensures RowsLinks(SetTop(rows, l)) == RowsLinks(Dec(rows)) + Entries(l)
    ensures RowsLinks(rows) == RowsLinks(Dec(rows)) + Entries(Top(rows))
  {
  }

  lemma {:induction false} CrewUpdate(ws: seq<Worker>, i: nat, x: Worker)
    requires i < |ws|
    ensures CrewLinks(ws[i := x]) + RowsLinks(ws[i].h.rows) == CrewLinks(ws) + RowsLinks(x.h.rows)
    decreases |ws|
  {
    var init, last := ws[..|ws| - 1], RowsLinks(ws[|ws| - 1].h.rows);
    if i == |ws| - 1 {
      assert ws[i := x][..i] == init;
    } else {
      CrewUpdate(init, i, x);
      assert ws[i := x][..|ws| - 1] == init[i := x];
      Swap(CrewLinks(init[i := x]), RowsLinks(ws[i].h.rows), last);
      Swap(CrewLinks(init), RowsLinks(x.h.rows), last);
    }
  }

  lemma GiveLinks(ws: seq<Worker>, g: nat, t: nat, count: int)
    requires g < |ws| && t < |ws| && g != t && ws[g].h.rows != []
    ensures CrewLinks(Give(ws, g, t, count)) == CrewLinks(ws)
  {
    var gh, th := ws[g].h, ws[t].h;
    var rows := if th.rows == [] then [[]] else th.rows;
    var (src, dst) := Move(Top(gh.rows), Top(rows), count);
    MoveLinks(Top(gh.rows), Top(rows), count);
    var giver := ws[g].(h := gh.(rows := SetTop(gh.rows, src)));
    var taker := ws[t].(message := CONTINUE, h := Handle(SetTop(rows, dst), gh.depth));
    CrewUpdate(ws, g, giver);
    CrewUpdate(ws[g := giver], t, taker);
    SetTopLinks(gh.rows, src);
    SetTopLinks(rows, dst);
    assert RowsLinks(rows) == RowsLinks(th.rows);
    Balance(CrewLinks(Give(ws, g, t, count)), CrewLinks(ws[g := giver]), CrewLinks(ws),
            RowsLinks(Dec(gh.rows)), Entries(Top(gh.rows)), Entries(src), RowsLinks(Dec(rows)), Entries(Top(rows)), Entries(dst));
  }

  /** One turn of the share loop. */
  lemma ShareTurn(ws: seq<Worker>, wq: seq<nat>, num: int, g: nat, x: nat, n: nat) returns (next: seq<Worker>, left: int)
    requires x < n <= |wq| && g < |ws| && ws[g].h.rows != []
    requires forall i :: x <= i < n ==> wq[i] < |ws| && wq[i] != g
    ensures |next| == |ws| && next[g].h.rows != [] && CrewLinks(next) == CrewLinks(ws)
    ensures ShareFrom(ws, wq, num, g, x, n) == ShareFrom(next, wq, left, g, x + 1, n)
  {
    if ws[wq[x]].state == WAITING {
      GiveLinks(ws, g, wq[x], x);
      next, left := Give(ws, g, wq[x], x), num - 1;
    } else {
      next, left := ws, num;
    }
  }

  lemma {:induction false} ShareLinks(ws: seq<Worker>, wq: seq<nat>, num: int, g: nat, x: nat, n: nat)
    requires x <= n <= |wq| && g < |ws| && ws[g].h.rows != []
    requires forall i :: x <= i < n ==> wq[i] < |ws| && wq[i] != g
    ensures CrewLinks(ShareFrom(ws, wq, num, g, x, n).0) == CrewLinks(ws)
    decreases n - x
  {
    if x < n {
      var next, left := ShareTurn(ws, wq, num, g, x, n);
      ShareLinks(next, wq, left, g, x + 1, n);
    }
  }

  /** Whatever the queue holds and whatever the lists hold, sharing keeps every URL. */
  lemma HandoffConserves(c: Crew, g: nat, c': Crew)
    requires Share(c, g, c')
    ensures CrewLinks(c'.ws) == CrewLinks(c.ws)
  {
    var n := |Top(c.ws[g].h.rows)|;
    var ws := if c.num < n then ShareFrom(c.ws, c.wq, c.num, g, 0, c.num).0 else c.ws;
    ShareLinks(c.ws, c.wq, c.num, g, 0, c.num);
    CrewUpdate(ws, g, ws[g].(pc := AtNext));
    Cancel(CrewLinks(c'.ws), CrewLinks(ws), RowsLinks(ws[g].h.rows));
  }

  // ---- Who gets which URL --------------------------------------------------------------

  /** The entries of a list that are not nullified, in order. */
  function Live(l: seq<Entry>): (r: seq<Entry>)
    ensures (forall i :: 0 <= i < |l| ==> l[i].Link?) ==> r == l
  {
    if l == [] then [] else
      var r := Live(l[..|l| - 1]);
      if l[|l| - 1].Link? then r + [l[|l| - 1]] else r
  }

  lemma {:induction false} PopLive(l: seq<Entry>)
    ensures Pop(l).1.None? ==> Live(l) == []
    ensures Pop(l).1.Some? ==> Live(l) == Live(Pop(l).0) + [Pop(l).1.value]
    decreases |l|
  {
    if l != [] && l[|l| - 1].Null? {
      PopLive(l[..|l| - 1]);
    }
  }

  function Min(a: nat, b: nat): nat { if a < b then a else b }

  /** d is dst with the last m of the URLs behind it, the last one first. */
  predicate Dealt(live: seq<Entry>, m: nat, dst: seq<Entry>, d: seq<Entry>) {
    && m <= |live| && |d| == |dst| + m && dst == d[..|dst|]
    && forall i, j :: |dst| <= i < |d| && j == |live| - 1 - (i - |dst|) ==> d[i] == live[j]
  }

  /** Moving takes k URLs, or all there are, off the end of the source, and puts them
      behind what the target holds in the order they come off. */
  lemma {:induction false} MoveTakes(src: seq<Entry>, dst: seq<Entry>, k: nat)
    ensures var ((s, d), live) := (Move(src, dst, k), Live(src));
      && s <= src && Live(s) == live[..|live| - Min(k, |live|)]
      && Dealt(live, Min(k, |live|), dst, d)
    decreases k
  {
    var p := Pop(src);
    PopLive(src);
    if k > 0 {
      if p.1.Some? {
        MoveTakes(p.0, dst + [p.1.value], k - 1);
        DealtMore(Live(p.0), Min(k - 1, |Live(p.0)|), dst, p.1.value, Move(src, dst, k).1);
      } else {
        MoveTakes(p.0, dst, k - 1);
      }
    }
  }

  lemma DealtMore(live: seq<Entry>, m: nat, dst: seq<Entry>, e: Entry, d: seq<Entry>)
    requires Dealt(live, m, dst + [e], d)
    ensures Dealt(live + [e], m + 1, dst, d)
  {
    assert (dst + [e])[..|dst|] == dst;
    assert d[|dst|] == (dst + [e])[|dst|];
  }

  /** The URLs left of n when x workers have been offered 0, 1, ... x - 1 of them. */
  function Left(n: nat, x: nat): (l: nat)
    ensures l <= n
  {
    if x == 0 then n else Left(n, x - 1) - Min(x - 1, Left(n, x - 1))
  }

  /** The first x of them are offered x * (x - 1) / 2 together. */
  lemma {:induction false} LeftIs(n: nat, x: nat)
    ensures Left(n, x) == (if n <= x * (x - 1) / 2 then 0 else n - x * (x - 1) / 2)
  {
    if x > 0 {
      LeftIs(n, x - 1);
      assert x * (x - 1) / 2 == (x - 1) * (x - 2) / 2 + (x - 1);
    }
  }

  /** A woken worker has the giver's depth and one list: the x URLs, or all there are,
      before those the workers ahead of it in the queue got. */
  predicate Served(w: Worker, depth: nat, live: seq<Entry>, x: nat) {
    && w.pc == Asleep && w.message == CONTINUE && w.h.depth == depth && |w.h.rows| == 1
    && Dealt(live[..Left(|live|, x)], Min(x, Left(|live|, x)), [], w.h.rows[0])
  }

  /** The giver keeps the front of its list; nothing else of it changes. */
  predicate Keeping(w: Worker, w': Worker, live: seq<Entry>, n: nat) {
    && w.h.rows != [] && w'.h.rows != [] && Dec(w'.h.rows) == Dec(w.h.rows)
    && w' == w.(h := w.h.(rows := w'.h.rows))
    && Top(w'.h.rows) <= Top(w.h.rows) && Live(Top(w'.h.rows)) == live[..Left(|live|, n)]
  }

  lemma GiveServes(ws: seq<Worker>, g: nat, t: nat, x: nat, live: seq<Entry>)
    requires g < |ws| && t < |ws| && g != t && ws[g].h.rows != [] && Dormant(ws[t])
    requires Live(Top(ws[g].h.rows)) == live[..Left(|live|, x)]
    ensures var r := Give(ws, g, t, x);
      && Served(r[t], ws[g].h.depth, live, x) && Keeping(ws[g], r[g], live, x + 1)
      && forall v :: 0 <= v < |ws| && v != g && v != t ==> r[v] == ws[v]
  {
    var (src, dst) := Move(Top(ws[g].h.rows), [], x);
    MoveTakes(Top(ws[g].h.rows), [], x);
    OneList(ws[t], ws[g].h.depth, dst, live, x);
    Shorter(ws[g], src, live, x);
  }

  lemma OneList(w: Worker, depth: nat, dst: seq<Entry>, live: seq<Entry>, x: nat)
    requires w.pc == Asleep && Dealt(live[..Left(|live|, x)], Min(x, Left(|live|, x)), [], dst)
    ensures Served(w.(message := CONTINUE, h := Handle(SetTop([[]], dst), depth)), depth, live, x)
  {
    assert SetTop([[]], dst) == [dst];
  }

  lemma Shorter(w: Worker, src: seq<Entry>, live: seq<Entry>, x: nat)
    requires w.h.rows != [] && src <= Top(w.h.rows)
    requires var l := live[..Left(|live|, x)]; Live(src) == l[..|l| - Min(x, |l|)]
    ensures Keeping(w, w.(h := w.h.(rows := SetTop(w.h.rows, src))), live, x + 1)
  {
  }

  /** The workers wq[x..n) were served in turn. */
  ghost predicate ServedAll(ws: seq<Worker>, wq: seq<nat>, num: int, g: nat, x: nat, n: nat, live: seq<Entry>,
                            res: (seq<Worker>, int)) {
    forall z {:trigger Unfold(z)} :: Unfold(z) ==> ServedAllBy(ws, wq, num, g, x, n, live, res)
  }

  ghost predicate ServedAllBy(ws: seq<Worker>, wq: seq<nat>, num: int, g: nat, x: nat, n: nat, live: seq<Entry>,
                              res: (seq<Worker>, int)) {
    && x <= n <= |wq| && g < |ws| == |res.0| && res.1 == num - (n - x)
    && Keeping(ws[g], res.0[g], live, n)
    && (forall i :: x <= i < n ==> wq[i] < |ws| && Served(res.0[wq[i]], ws[g].h.depth, live, i))
    && forall v :: 0 <= v < |ws| && v != g && !Among(wq, x, n, v) ==> res.0[v] == ws[v]
  }

  lemma ServedStep(ws: seq<Worker>, wq: seq<nat>, num: int, g: nat, x: nat, n: nat, live: seq<Entry>,
                   ws1: seq<Worker>, res: (seq<Worker>, int))
    requires x < n <= |wq| && g < |ws| == |ws1| && wq[x] < |ws| && wq[x] != g && !Among(wq, x + 1, n, wq[x])
    requires Served(ws1[wq[x]], ws[g].h.depth, live, x) && Keeping(ws[g], ws1[g], live, x + 1)
    requires forall v :: 0 <= v < |ws| && v != g && v != wq[x] ==> ws1[v] == ws[v]
    requires ServedAll(ws1, wq, num - 1, g, x + 1, n, live, res)
    ensures ServedAll(ws, wq, num, g, x, n, live, res)
  {
    assert Unfold(0);
    forall v | 0 <= v < |ws| && v != g && !Among(wq, x, n, v) ensures res.0[v] == ws[v] {
      NotAmong(wq, x, n, v);
    }
    assert res.0[wq[x]] == ws1[wq[x]];
  }

  lemma {:induction false} ShareServes(ws: seq<Worker>, wq: seq<nat>, num: int, g: nat, x: nat, n: nat, live: seq<Entry>)
      returns (res: (seq<Worker>, int))
    requires Offering(ws, wq, g, x, n) && Live(Top(ws[g].h.rows)) == live[..Left(|live|, x)]
    ensures res == ShareFrom(ws, wq, num, g, x, n) && |res.0| == |ws| && ServedAll(ws, wq, num, g, x, n, live, res)
    decreases n - x
  {
    if x < n {
      var ws1 := Give(ws, g, wq[x], x);
      ShareUnroll(ws, wq, num, g, x, n);
      OfferNext(ws, wq, g, x, n, x);
      GiveServes(ws, g, wq[x], x, live);
      res := ShareServes(ws1, wq, num - 1, g, x + 1, n, live);
      ServedStep(ws, wq, num, g, x, n, live, ws1, res);
    } else {
      res := (ws, num);
    }
  }

  /** The queued workers were served and are the ones that were not left alone. */
  ghost predicate AllServed(c: Crew, g: nat, ws: seq<Worker>) {
    && g < |c.ws| == |ws| && c.ws[g].h.rows != [] && c.num <= |c.wq|
    && var live := Live(Top(c.ws[g].h.rows));
    && Keeping(c.ws[g].(pc := AtNext), ws[g], live, c.num)
    && (forall x :: 0 <= x < c.num ==> c.wq[x] < |ws| && Served(ws[c.wq[x]], c.ws[g].h.depth, live, x))
    && forall v :: 0 <= v < |c.ws| && v != g && !InQueue(c, v) ==> ws[v] == c.ws[v]
  }

  lemma ServedIs(c: Crew, g: nat, res: (seq<Worker>, int))
    requires QueueOk(c) && g < |c.ws| == |res.0| && c.ws[g].h.rows != [] && QueueApart(c, g)
    requires ServedAll(c.ws, c.wq, c.num, g, 0, c.num, Live(Top(c.ws[g].h.rows)), res)
    ensures AllServed(c, g, res.0[g := res.0[g].(pc := AtNext)]) && res.1 == 0
  {
    assert Unfold(0);
    forall v | 0 <= v < |c.ws| ensures InQueue(c, v) <==> Among(c.wq, 0, c.num, v) {}
  }

  lemma ShareDone(c: Crew, g: nat, c': Crew, res: (seq<Worker>, int))
    requires Share(c, g, c') && c.num < |Top(c.ws[g].h.rows)| && res == ShareFrom(c.ws, c.wq, c.num, g, 0, c.num)
    ensures c' == c.(ws := res.0[g := res.0[g].(pc := AtNext)], num := res.1)
  {}

  /** What the handoff does with n waiting workers and more than n places in the giver's list: the
      x-th of them is woken with the next x URLs from its end, and the giver goes on with the
      rest.  Otherwise only the giver goes on. */
  lemma ShareDeals(c: Crew, g: nat, c': Crew)
    requires QueueOk(c) && Share(c, g, c') && Leveled(c.ws[g].h)
    ensures if c.num < |Top(c.ws[g].h.rows)| then c' == c.(ws := c'.ws, num := 0) && AllServed(c, g, c'.ws)
      else c' == c.(ws := c.ws[g := c.ws[g].(pc := AtNext)])
  {
    if c.num < |Top(c.ws[g].h.rows)| {
      var live := Live(Top(c.ws[g].h.rows));
      assert live[..Left(|live|, 0)] == live;
      var res := ShareServes(c.ws, c.wq, c.num, g, 0, c.num, live);
      ShareDone(c, g, c', res);
      ServedIs(c, g, res);
    }
  }

  lemma Cancel<T>(a: multiset<T>, b: multiset<T>, x: multiset<T>)
    requires a + x == b + x
    ensures a == b
  {
    forall e ensures a[e] == b[e] {
      assert (a + x)[e] == (b + x)[e];
    }
  }
}
