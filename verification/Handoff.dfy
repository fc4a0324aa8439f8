/** worker.c: the protocol by which workers crawl, hand URLs to sleeping
    workers, and find out that the crawl is over.  Each lock-protected region is
    one step; what pages link to and what the sort keeps are arbitrary.

    A visit is one step too, though it takes the cache's lock once for each link.
    Between those a worker changes nothing but its own frontier, and no key is
    added to the cache twice; so whatever the interleaving, each visit does what
    a single step at its end does with just the links whose adding succeeded, and
    the links of a step are arbitrary. */
module Handoffs {
  import opened MTries
  import opened Frontiers
  import opened Helpers

  /** Where a worker thread is: not yet initialised, about to call ue_next, past a
      visit and about to look for waiting workers, or asleep in lm_worker_wait. */
  datatype Pc = Starting | AtNext | AtShare | Asleep

  datatype State = WAITING | RUNNING
  datatype Message = NONE | CONTINUE

  datatype Worker = Worker(pc: Pc, state: State, message: Message, h: Handle)

  /** The shared state: the workers, metha_t's waiting queue, the host's cache,
      the keys handed out so far by ue_next, and whether IDLE was notified. */
  datatype Crew = Crew(ws: seq<Worker>, wq: seq<nat>, num: nat, cache: set<seq<int>>,
                       crawled: multiset<seq<int>>, idle: bool, limit: nat)

  /** What a visit found: links, or a redirect inside the host. */
  datatype Outcome = Links(links: seq<CUrl>) | Redirect(url: CUrl)

  function SetTop(rows: seq<seq<Entry>>, l: seq<Entry>): (r: seq<seq<Entry>>)
    requires rows != []
    ensures r != [] && Top(r) == l && Dec(r) == Dec(rows)
  {
    rows[|rows| - 1 := l]
  }

  /** Before the threads run; a calloc'ed worker's state is WAITING. */
  function Begin(n: nat, limit: nat): Crew {
    Crew(seq(n, _ => Worker(Starting, WAITING, NONE, Handle([[]], 0))), seq(n, _ => 0), 0, {}, multiset{}, false, limit)
  }

  // ---- A visit ------------------------------------------------------------------

  /** The handle and the cache after ue_next and the transfer: links go to the
      new top list, a redirect (ue_revert) to the list the URL came from. */
  function Fetched(h: Handle, cache: set<seq<int>>, e: Entry, o: Outcome): (r: (Handle, set<seq<int>>))
    requires e.Link? && 2 <= |h.rows| && h.depth > 0
    ensures r.0.rows != []
  {
    match o
    case Links(ls) =>
      var (t, c) := AddLinks(Top(h.rows), cache, ls, e.hops + 1);
      (Handle(SetTop(h.rows, t), h.depth), c)
    case Redirect(u) =>
      var (t, c) := AddLinks(Top(Dec(h.rows)), cache, [u], e.hops);
      (Handle(SetTop(Dec(h.rows), t), h.depth - 1), c)
  }

  /** lm_worker_sort keeps some of the entries of the top list, in any order. */
  ghost predicate Sorted(l: seq<Entry>, kept: seq<Entry>) { multiset(kept) <= multiset(l) }

  function Put(c: Crew, w: nat, x: Worker): Crew
    requires w < |c.ws|
  {
    c.(ws := c.ws[w := x])
  }

  /** A thread adds its arguments (ue_add_initial) and sorts them. */
  ghost predicate Boot(c: Crew, w: nat, args: seq<CUrl>, kept: seq<Entry>, c': Crew) {
    && w < |c.ws| && c.ws[w].pc == Starting && c.ws[w].h.rows != []
    && var h := c.ws[w].h;
    && var (t, cache') := AddLinks(Top(h.rows), c.cache, args, h.depth);
    && Sorted(t, kept)
    && c' == Put(c, w, c.ws[w].(pc := AtNext, h := h.(rows := SetTop(h.rows, kept)))).(cache := cache')
  }

  ghost predicate Visit(c: Crew, w: nat, o: Outcome, kept: seq<Entry>, c': Crew) {
    && w < |c.ws| && c.ws[w].pc == AtNext
    && var (h, e) := NextUrl(c.ws[w].h, c.limit);
    && e.Some?
    && var (h', cache') := Fetched(h, c.cache, e.value, o);
    && Sorted(Top(h'.rows), kept)
    && c' == Put(c, w, c.ws[w].(pc := AtShare, h := h'.(rows := SetTop(h'.rows, kept))))
               .(cache := cache', crawled := c.crawled + multiset{Key(e.value.url)})
  }

  // ---- Waiting and waking -----------------------------------------------------------

  /** lm_worker_wait up to the wait: enter the queue, and notify IDLE if every
      worker is in it. */
  function WaitStep(c: Crew, w: nat): Crew
    requires w < |c.ws| && c.num < |c.wq|
  {
    Put(c, w, Worker(Asleep, WAITING, c.ws[w].message, NextUrl(c.ws[w].h, c.limit).0))
      .(wq := c.wq[c.num := w], num := c.num + 1, idle := c.idle || c.num + 1 >= |c.ws|)
  }

  ghost predicate Wait(c: Crew, w: nat, c': Crew) {
    && w < |c.ws| && c.ws[w].pc == AtNext && NextUrl(c.ws[w].h, c.limit).1.None?
    && c.ws[w].message == NONE && c.num < |c.wq|
    && c' == WaitStep(c, w)
  }

  /** The rest of lm_worker_wait, once signalled. */
  ghost predicate Wake(c: Crew, w: nat, kept: seq<Entry>, c': Crew) {
    && w < |c.ws| && c.ws[w].pc == Asleep && c.ws[w].message == CONTINUE
    && var h := c.ws[w].h;
    && h.rows != [] && Sorted(Top(h.rows), kept)
    && c' == Put(c, w, Worker(AtNext, RUNNING, NONE, h.(rows := SetTop(h.rows, kept))))
  }

  // ---- Sharing ------------------------------------------------------------------------

  /** k times: pop from the source, put what was popped on the target. */
  function Move(src: seq<Entry>, dst: seq<Entry>, k: int): (seq<Entry>, seq<Entry>)
    decreases k
  {
    if k <= 0 then (src, dst)
    else
      var p := Pop(src);
      Move(p.0, if p.1.Some? then dst + [p.1.value] else dst, k - 1)
  }

  /** One waiting worker gets a message, the giver's depth, and count URLs. */
  function Give(ws: seq<Worker>, g: nat, t: nat, count: int): (r: seq<Worker>)
    requires g < |ws| && t < |ws| && g != t && ws[g].h.rows != []
    ensures |r| == |ws| && r[g].h.rows != []
  {
    var gh, th := ws[g].h, ws[t].h;
    var rows := if th.rows == [] then [[]] else th.rows;
    var (src, dst) := Move(Top(gh.rows), Top(rows), count);
    ws[g := ws[g].(h := gh.(rows := SetTop(gh.rows, src)))]
      [t := ws[t].(message := CONTINUE, h := Handle(SetTop(rows, dst), gh.depth))]
  }

  /** The loop over the waiting queue.  Worker x is offered the URLs counted from
      x*per_worker up to x*(per_worker+1), which are x of them. */
  function ShareFrom(ws: seq<Worker>, wq: seq<nat>, num: int, g: nat, x: nat, n: nat): (r: (seq<Worker>, int))
    requires x <= n <= |wq| && g < |ws| && ws[g].h.rows != []
    requires forall i :: x <= i < n ==> wq[i] < |ws| && wq[i] != g
    ensures |r.0| == |ws|
    decreases n - x
  {
    if x == n then (ws, num)
    else if ws[wq[x]].state == WAITING then
      ShareFrom(Give(ws, g, wq[x], x), wq, num - 1, g, x + 1, n)
    else ShareFrom(ws, wq, num, g, x + 1, n)
  }

  ghost predicate QueueApart(c: Crew, g: nat) {
    c.num <= |c.wq| && forall i :: 0 <= i < c.num ==> c.wq[i] < |c.ws| && c.wq[i] != g
  }

  /** The handoff section of lm_worker_main, under the write lock. */
  ghost predicate Share(c: Crew, g: nat, c': Crew) {
    && g < |c.ws| && c.ws[g].pc == AtShare && c.ws[g].h.rows != [] && QueueApart(c, g)
    && var source := Top(c.ws[g].h.rows);
    && var (ws, num) := if c.num < |source| then ShareFrom(c.ws, c.wq, c.num, g, 0, c.num) else (c.ws, c.num);
    && 0 <= num
    && c' == c.(ws := ws[g := ws[g].(pc := AtNext)], num := num)
  }

  /** Nobody waits, the list is empty, or another worker is replying. */
  ghost predicate Skip(c: Crew, g: nat, c': Crew) {
    g < |c.ws| && c.ws[g].pc == AtShare && c' == Put(c, g, c.ws[g].(pc := AtNext))
  }

  /** A step of worker w. */
  datatype Act = DoBoot(args: seq<CUrl>, first: seq<Entry>) | DoVisit(o: Outcome, kept: seq<Entry>)
    | DoWait | DoWake(woken: seq<Entry>) | DoShare | DoSkip

  ghost predicate Step(c: Crew, w: nat, a: Act, c': Crew) {
    match a
    case DoBoot(args, kept) => Boot(c, w, args, kept, c')
    case DoVisit(o, kept) => Visit(c, w, o, kept, c')
    case DoWait => Wait(c, w, c')
    case DoWake(kept) => Wake(c, w, kept, c')
    case DoShare => Share(c, w, c')
    case DoSkip => Skip(c, w, c')
  }

  // ---- The invariant ----------------------------------------------------------------------

  function SysKeys(ws: seq<Worker>): multiset<seq<int>> {
    if ws == [] then multiset{} else SysKeys(ws[..|ws| - 1]) + RowsKeys(ws[|ws| - 1].h.rows)
  }

  /** Waiting, not yet told to go on, with an empty frontier. */
  predicate Dormant(w: Worker) {
    w.pc == Asleep && w.state == WAITING && w.message == NONE && w.h.rows == []
  }

  predicate InQueue(c: Crew, w: nat)
    requires c.num <= |c.wq|
  {
    exists i :: 0 <= i < c.num && c.wq[i] == w
  }

  /** The waiting queue holds exactly the distinct workers that wait without a
      message, each with an empty frontier. */
  predicate QueueOk(c: Crew) {
    && |c.wq| == |c.ws| && c.num <= |c.wq|
    && (forall i :: 0 <= i < c.num ==> c.wq[i] < |c.ws| && Dormant(c.ws[c.wq[i]]))
    && (forall i, j :: 0 <= i < j < c.num ==> c.wq[i] != c.wq[j])
    && (forall w :: 0 <= w < |c.ws| && c.ws[w].pc == Asleep && c.ws[w].message == NONE ==> InQueue(c, w))
  }

  ghost predicate WorkerOk(w: Worker) {
    && Leveled(w.h)
    && (w.pc != Asleep ==> w.message == NONE)
    && (w.pc == AtShare || w.pc == Starting || w.message == CONTINUE ==> w.h.rows != [])
  }

  /** Every key is cached, and is at one place at most: some frontier, or crawled. */
  ghost predicate KeysOk(c: Crew, universe: set<seq<int>>) {
    SysKeys(c.ws) + c.crawled <= multiset(c.cache) && c.cache <= universe
  }

  ghost predicate Inv(c: Crew, universe: set<seq<int>>) {
    && |c.ws| > 0 && QueueOk(c) && KeysOk(c, universe)
    && (forall w :: 0 <= w < |c.ws| ==> WorkerOk(c.ws[w]))
    && (c.idle <==> c.num == |c.ws|)
  }

  lemma Swap<T>(a: multiset<T>, b: multiset<T>, c: multiset<T>)
    ensures a + b + c == a + c + b
  {}

  lemma Rotate<T>(a: multiset<T>, b: multiset<T>, c: multiset<T>)
    ensures a + (b + c) == a + c + b
  {}

  lemma {:induction false} SysKeysUpdate(ws: seq<Worker>, i: nat, x: Worker)
    requires i < |ws|
    ensures SysKeys(ws[i := x]) + RowsKeys(ws[i].h.rows) == SysKeys(ws) + RowsKeys(x.h.rows)
    decreases |ws|
  {
    var init, last := ws[..|ws| - 1], RowsKeys(ws[|ws| - 1].h.rows);
    if i == |ws| - 1 {
      assert ws[i := x][..i] == init;
    } else {
      SysKeysUpdate(init, i, x);
      assert ws[i := x][..|ws| - 1] == init[i := x];
      Swap(SysKeys(init[i := x]), RowsKeys(ws[i].h.rows), last);
      Swap(SysKeys(init), RowsKeys(x.h.rows), last);
    }
  }

  // ---- Sharing keeps every URL -----------------------------------------------------------------

  lemma MoveOne(src: seq<Entry>, dst: seq<Entry>)
    ensures var p := Pop(src);
      Keys(p.0) + Keys(if p.1.Some? then dst + [p.1.value] else dst) == Keys(src) + Keys(dst)
  {
    var p := Pop(src);
    PopKeys(src);
    if p.1.Some? {
      KeysSnoc(dst, p.1.value);
      Rotate(Keys(p.0), Keys(dst), KeyOf(p.1));
    }
  }

  lemma {:induction false} MoveKeys(src: seq<Entry>, dst: seq<Entry>, k: int)
    ensures Keys(Move(src, dst, k).0) + Keys(Move(src, dst, k).1) == Keys(src) + Keys(dst)
    decreases k
  {
    if k > 0 {
      var p := Pop(src);
      MoveOne(src, dst);
      MoveKeys(p.0, if p.1.Some? then dst + [p.1.value] else dst, k - 1);
    }
  }

  predicate AllHops(l: seq<Entry>, hops: int) {
    forall i :: 0 <= i < |l| && l[i].Link? ==> l[i].hops == hops
  }

  lemma {:induction false} MoveHops(src: seq<Entry>, dst: seq<Entry>, k: int, hops: int)
    requires AllHops(src, hops) && AllHops(dst, hops)
    ensures var (s, d) := Move(src, dst, k); AllHops(s, hops) && AllHops(d, hops)
    decreases k
  {
    if k > 0 {
      var p := Pop(src);
      if p.1.Some? {
        PopMember(src);
        MoveHops(p.0, dst + [p.1.value], k - 1, hops);
      } else {
        MoveHops(p.0, dst, k - 1, hops);
      }
    }
  }

  lemma SetTopKeys(rows: seq<seq<Entry>>, l: seq<Entry>)
    requires rows != []
    ensures RowsKeys(SetTop(rows, l)) == RowsKeys(Dec(rows)) + Keys(l)
    ensures RowsKeys(rows) == RowsKeys(Dec(rows)) + Keys(Top(rows))
  {
    RowsTop(SetTop(rows, l));
    RowsTop(rows);
  }

  /** One gift moves URLs from the giver to the target and touches nobody else. */
  lemma GiveKeeps(ws: seq<Worker>, g: nat, t: nat, count: int)
    requires g < |ws| && t < |ws| && g != t && ws[g].h.rows != []
    ensures SysKeys(Give(ws, g, t, count)) == SysKeys(ws)
  {
    var gh, th := ws[g].h, ws[t].h;
    var rows := if th.rows == [] then [[]] else th.rows;
    var (src, dst) := Move(Top(gh.rows), Top(rows), count);
    MoveKeys(Top(gh.rows), Top(rows), count);
    var giver := ws[g].(h := gh.(rows := SetTop(gh.rows, src)));
    var taker := ws[t].(message := CONTINUE, h := Handle(SetTop(rows, dst), gh.depth));
    SysKeysUpdate(ws, g, giver);
    SysKeysUpdate(ws[g := giver], t, taker);
    SetTopKeys(gh.rows, src);
    SetTopKeys(rows, dst);
    EmptyRows();
    assert RowsKeys(rows) == RowsKeys(th.rows);
    Balance(SysKeys(Give(ws, g, t, count)), SysKeys(ws[g := giver]), SysKeys(ws),
            RowsKeys(Dec(gh.rows)), Keys(Top(gh.rows)), Keys(src), RowsKeys(Dec(rows)), Keys(Top(rows)), Keys(dst));
  }

  lemma EmptyRows()
    ensures RowsKeys([[]]) == multiset{}
  {
    var rows: seq<seq<Entry>> := [[]];
    assert rows[..0] == [];
  }

  lemma Balance<T>(a2: multiset<T>, a1: multiset<T>, a0: multiset<T>, g: multiset<T>, gs: multiset<T>, gs': multiset<T>,
                t: multiset<T>, td: multiset<T>, td': multiset<T>)
    requires a1 + (g + gs) == a0 + (g + gs')
    requires a2 + (t + td) == a1 + (t + td')
    requires gs' + td' == gs + td
    ensures a2 == a0
  {
    forall x ensures a2[x] == a0[x] {
      assert (a1 + (g + gs))[x] == (a0 + (g + gs'))[x];
      assert (a2 + (t + td))[x] == (a1 + (t + td'))[x];
      assert (gs' + td')[x] == (gs + td)[x];
    }
  }

  /** A target has the giver's depth, so its URLs are where its counter says. */
  lemma GiveLeveled(ws: seq<Worker>, g: nat, t: nat, count: int)
    requires g < |ws| && t < |ws| && g != t && ws[g].h.rows != [] && ws[t].h.rows == []
    requires Leveled(ws[g].h)
    ensures var r := Give(ws, g, t, count);
      Leveled(r[g].h) && Leveled(r[t].h) && r[t].h.rows != []
  {
    var gh := ws[g].h;
    assert UnfoldLevels(0);
    assert AllHops(Top(gh.rows), gh.depth);
    MoveHops(Top(gh.rows), [], count, gh.depth);
  }

  /** What is true of the queue's tail while the share loop runs. */
  ghost predicate Offering(ws: seq<Worker>, wq: seq<nat>, g: nat, x: nat, n: nat) {
    && x <= n <= |wq| && g < |ws| && ws[g].h.rows != [] && Leveled(ws[g].h)
    && (forall i :: x <= i < n ==> wq[i] < |ws| && wq[i] != g && Dormant(ws[wq[i]]))
    && (forall i, j :: x <= i < j < n ==> wq[i] != wq[j])
  }

  /** A worker that was offered URLs: it has a message, and may go on. */
  ghost predicate Roused(w: Worker) {
    w.pc == Asleep && w.message == CONTINUE && Leveled(w.h) && w.h.rows != []
  }

  predicate Among(wq: seq<nat>, x: nat, n: nat, w: nat)
    requires n <= |wq|
  {
    exists i :: x <= i < n && wq[i] == w
  }

  /** r is ws after the offers to wq[x..n), with m workers left in the queue. */
  ghost predicate Shared(ws: seq<Worker>, wq: seq<nat>, num: int, g: nat, x: nat, n: nat, res: (seq<Worker>, int)) {
    forall z {:trigger Unfold(z)} :: Unfold(z) ==> SharedBy(ws, wq, num, g, x, n, res)
  }

  ghost predicate SharedBy(ws: seq<Worker>, wq: seq<nat>, num: int, g: nat, x: nat, n: nat, res: (seq<Worker>, int)) {
    var (r, m) := res;
    && x <= n <= |wq| && g < |ws| == |r|
    && m == num - (n - x) && SysKeys(r) == SysKeys(ws)
    && r[g].h.rows != [] && Leveled(r[g].h) && r[g].pc == ws[g].pc && r[g].message == ws[g].message
    && (forall i :: x <= i < n ==> wq[i] < |ws| && Roused(r[wq[i]]))
    && (forall w :: 0 <= w < |ws| && w != g && !Among(wq, x, n, w) ==> r[w] == ws[w])
  }

  /** r is ws after the offer to the worker t. */
  ghost predicate Offered(ws: seq<Worker>, g: nat, t: nat, r: seq<Worker>) {
    && g < |ws| == |r| && t < |ws| && t != g && Roused(r[t]) && SysKeys(r) == SysKeys(ws)
    && (forall w :: 0 <= w < |ws| && w != g && w != t ==> r[w] == ws[w])
    && r[g].pc == ws[g].pc && r[g].message == ws[g].message
  }

  /** Giving to everyone in the queue empties it, conserves the URLs of all
      frontiers, rouses exactly the queued workers, and changes nobody else. */
  lemma {:induction false} ShareKeeps(ws: seq<Worker>, wq: seq<nat>, num: int, g: nat, x: nat, n: nat) returns (res: (seq<Worker>, int))
    requires Offering(ws, wq, g, x, n)
    ensures res == ShareFrom(ws, wq, num, g, x, n)
    ensures Shared(ws, wq, num, g, x, n, res)
    decreases n - x
  {
    if x < n {
      ShareUnroll(ws, wq, num, g, x, n);
      OfferNext(ws, wq, g, x, n, x);
      var ws1 := Give(ws, g, wq[x], x);
      res := ShareKeeps(ws1, wq, num - 1, g, x + 1, n);
      SharedStep(ws, wq, num, g, x, n, ws1, res);
    } else {
      res := (ws, num);
      SharedNone(ws, wq, num, g, n);
    }
  }

  lemma SharedNone(ws: seq<Worker>, wq: seq<nat>, num: int, g: nat, n: nat)
    requires Offering(ws, wq, g, n, n)
    ensures Shared(ws, wq, num, g, n, n, (ws, num))
  {}

  lemma SharedStep(ws: seq<Worker>, wq: seq<nat>, num: int, g: nat, x: nat, n: nat, ws1: seq<Worker>, res: (seq<Worker>, int))
    requires x < n <= |wq| && Offered(ws, g, wq[x], ws1) && Shared(ws1, wq, num - 1, g, x + 1, n, res)
    requires !Among(wq, x + 1, n, wq[x])
    ensures Shared(ws, wq, num, g, x, n, res)
  {
    assert Unfold(0);
    SharedByStep(ws, wq, num, g, x, n, ws1, res);
  }

  lemma SharedByStep(ws: seq<Worker>, wq: seq<nat>, num: int, g: nat, x: nat, n: nat, ws1: seq<Worker>, res: (seq<Worker>, int))
    requires x < n <= |wq| && Offered(ws, g, wq[x], ws1) && SharedBy(ws1, wq, num - 1, g, x + 1, n, res)
    requires !Among(wq, x + 1, n, wq[x])
    ensures SharedBy(ws, wq, num, g, x, n, res)
  {
    var r, t := res.0, wq[x];
    assert r[t] == ws1[t] && Roused(r[t]);
    assert forall i :: x < i < n ==> Roused(r[wq[i]]);
    forall w | 0 <= w < |ws| && w != g && !Among(wq, x, n, w) ensures r[w] == ws[w] {
      NotAmong(wq, x, n, w);
    }
  }

  lemma NotAmong(wq: seq<nat>, x: nat, n: nat, w: nat)
    requires x < n <= |wq| && !Among(wq, x, n, w)
    ensures wq[x] != w && !Among(wq, x + 1, n, w)
  {}

  lemma OfferNext(ws: seq<Worker>, wq: seq<nat>, g: nat, x: nat, n: nat, count: int)
    requires Offering(ws, wq, g, x, n) && x < n
    ensures var r := Give(ws, g, wq[x], count);
      Offering(r, wq, g, x + 1, n) && Offered(ws, g, wq[x], r)
    ensures !Among(wq, x + 1, n, wq[x])
  {
    GiveLeveled(ws, g, wq[x], count);
    GiveKeeps(ws, g, wq[x], count);
  }

  lemma ShareUnroll(ws: seq<Worker>, wq: seq<nat>, num: int, g: nat, x: nat, n: nat)
    requires x < n <= |wq| && g < |ws| && ws[g].h.rows != []
    requires forall i :: x <= i < n ==> wq[i] < |ws| && wq[i] != g
    requires ws[wq[x]].state == WAITING
    ensures ShareFrom(ws, wq, num, g, x, n) ==
      ShareFrom(Give(ws, g, wq[x], x), wq, num - 1, g, x + 1, n)
  {}

  // ---- Every step keeps the invariant ------------------------------------------------------------

  /** Filtering or reordering a list brings no key. */
  lemma {:induction false} SortedKeys(l: seq<Entry>, kept: seq<Entry>)
    requires Sorted(l, kept)
    ensures Keys(kept) <= Keys(l)
    ensures multiset(kept) == multiset(l) ==> Keys(kept) == Keys(l)
    decreases |kept|, |l|
  {
    if kept != [] {
      var e, rest := kept[|kept| - 1], kept[..|kept| - 1];
      assert kept == rest + [e];
      assert e in multiset(kept) && e in multiset(l) && e in l;
      var i :| 0 <= i < |l| && l[i] == e;
      var l' := l[..i] + l[i + 1..];
      assert l == l[..i] + [e] + l[i + 1..];
      assert multiset(l') == multiset(l) - multiset{e};
      SortedKeys(l', rest);
      KeysRemove(l[..i], e, l[i + 1..]);
      KeysSnoc(rest, e);
    } else {
      assert |multiset(kept)| == |kept| && |multiset(l)| == |l|;
    }
  }

  lemma {:induction false} KeysConcat(a: seq<Entry>, b: seq<Entry>)
    ensures Keys(a + b) == Keys(a) + Keys(b)
    decreases |b|
  {
    if b == [] {
      assert a + b == a;
    } else {
      var b', e := b[..|b| - 1], b[|b| - 1];
      KeysConcat(a, b');
      assert (a + b)[..|a + b| - 1] == a + b' && (a + b)[|a + b| - 1] == e;
      Reassoc(Keys(a), Keys(b'), EntryKey(e));
    }
  }

  lemma Reassoc<T>(a: multiset<T>, b: multiset<T>, c: multiset<T>)
    ensures a + b + c == a + (b + c)
  {}

  lemma KeysRemove(a: seq<Entry>, e: Entry, b: seq<Entry>)
    ensures Keys(a + [e] + b) == Keys(a + b) + EntryKey(e)
  {
    KeysConcat(a + [e], b);
    KeysSnoc(a, e);
    KeysConcat(a, b);
    Swap(Keys(a), EntryKey(e), Keys(b));
  }

  lemma SortedLeveled(h: Handle, kept: seq<Entry>)
    requires h.rows != [] && Leveled(h) && Sorted(Top(h.rows), kept)
    ensures Leveled(h.(rows := SetTop(h.rows, kept)))
  {
    assert UnfoldLevels(0);
    forall i | 0 <= i < |kept| && kept[i].Link?
      ensures kept[i].hops == h.depth
    {
      assert kept[i] in multiset(kept) && kept[i] in multiset(Top(h.rows)) && kept[i] in Top(h.rows);
    }
  }

  predicate OutcomeIn(o: Outcome, universe: set<seq<int>>) {
    match o
    case Links(ls) => forall i :: 0 <= i < |ls| ==> Key(ls[i]) in universe
    case Redirect(u) => Key(u) in universe
  }

  /** A visit brings into the frontier exactly the keys it adds to the cache. */
  lemma FetchedKeys(h: Handle, cache: set<seq<int>>, e: Entry, o: Outcome, universe: set<seq<int>>)
    requires e.Link? && 2 <= |h.rows| && h.depth > 0 && Top(h.rows) == [] && OutcomeIn(o, universe)
    ensures var (h', c) := Fetched(h, cache, e, o);
      cache <= c <= cache + universe && RowsKeys(h'.rows) == RowsKeys(h.rows) + multiset(c - cache)
  {
    match o
    case Links(ls) => TopKeys(h.rows, cache, ls, e.hops + 1, universe);
    case Redirect(u) => RedirectKeys(h.rows, cache, u, e.hops, universe);
  }

  /** A redirect goes to the list below the empty one on top. */
  lemma RedirectKeys(rows: seq<seq<Entry>>, cache: set<seq<int>>, u: CUrl, hops: nat, universe: set<seq<int>>)
    requires 2 <= |rows| && Top(rows) == [] && Key(u) in universe
    ensures var (l, c) := AddLinks(Top(Dec(rows)), cache, [u], hops);
      cache <= c <= cache + universe && RowsKeys(SetTop(Dec(rows), l)) == RowsKeys(rows) + multiset(c - cache)
  {
    RowsTop(rows);
    TopKeys(Dec(rows), cache, [u], hops, universe);
  }

  lemma TopKeys(rows: seq<seq<Entry>>, cache: set<seq<int>>, links: seq<CUrl>, hops: nat, universe: set<seq<int>>)
    requires rows != [] && forall i :: 0 <= i < |links| ==> Key(links[i]) in universe
    ensures var (t, c) := AddLinks(Top(rows), cache, links, hops);
      cache <= c <= cache + universe && RowsKeys(SetTop(rows, t)) == RowsKeys(rows) + multiset(c - cache)
  {
    var (t, c) := AddLinks(Top(rows), cache, links, hops);
    AddLinksKeys(Top(rows), cache, links, hops, universe);
    SetTopKeys(rows, t);
    Reassoc(RowsKeys(Dec(rows)), Keys(Top(rows)), multiset(c - cache));
  }

  lemma FetchedLeveled(h: Handle, cache: set<seq<int>>, e: Entry, o: Outcome)
    requires e.Link? && 2 <= |h.rows| && h.depth == e.hops + 1 && Leveled(h)
    ensures Leveled(Fetched(h, cache, e, o).0)
  {
    assert UnfoldLevels(0);
    match o
    case Links(ls) => AddLinksLevel(Top(h.rows), cache, ls, e.hops + 1);
    case Redirect(u) =>
      var h1 := Handle(Dec(h.rows), h.depth - 1);
      AddLinksLevel(Top(h1.rows), cache, [u], e.hops);
  }

  /** A worker's own step moves its keys within frontier, crawled set and cache. */
  lemma PutKeys(ws: seq<Worker>, w: nat, x: Worker, crawled: multiset<seq<int>>, one: multiset<seq<int>>, added: multiset<seq<int>>)
    requires w < |ws| && RowsKeys(x.h.rows) + one <= RowsKeys(ws[w].h.rows) + added
    ensures SysKeys(ws[w := x]) + (crawled + one) <= SysKeys(ws) + crawled + added
    ensures RowsKeys(x.h.rows) + one == RowsKeys(ws[w].h.rows) + added ==>
      SysKeys(ws[w := x]) + (crawled + one) == SysKeys(ws) + crawled + added
  {
    SysKeysUpdate(ws, w, x);
    var a, b, c, d := SysKeys(ws[w := x]), SysKeys(ws), RowsKeys(x.h.rows), RowsKeys(ws[w].h.rows);
    forall k ensures (a + (crawled + one))[k] <= (b + crawled + added)[k] {
      assert (a + d)[k] == (b + c)[k] && (c + one)[k] <= (d + added)[k];
    }
    if c + one == d + added {
      forall k ensures (a + (crawled + one))[k] == (b + crawled + added)[k] {
        assert (a + d)[k] == (b + c)[k] && (c + one)[k] == (d + added)[k];
      }
    }
  }

  /** The worker after a visit: its counter still tells the depth of its lists. */
  lemma VisitWorker(c: Crew, w: nat, o: Outcome, kept: seq<Entry>, c': Crew)
    requires Visit(c, w, o, kept, c') && Leveled(c.ws[w].h) && c.ws[w].message == NONE
    ensures WorkerOk(c'.ws[w])
  {
    var (h, e) := NextUrl(c.ws[w].h, c.limit);
    DepthLimit(c.ws[w].h, c.limit);
    FetchedLeveled(h, c.cache, e.value, o);
    SortedLeveled(Fetched(h, c.cache, e.value, o).0, kept);
  }

  /** The keys a worker's handle holds after a visit, and the URL visited. */
  lemma VisitKeys(c: Crew, w: nat, o: Outcome, kept: seq<Entry>, c': Crew, universe: set<seq<int>>) returns (one: multiset<seq<int>>)
    requires Visit(c, w, o, kept, c') && OutcomeIn(o, universe)
    ensures c.cache <= c'.cache <= c.cache + universe
    ensures |one| == 1 && c'.crawled == c.crawled + one
    ensures RowsKeys(c'.ws[w].h.rows) + one <= RowsKeys(c.ws[w].h.rows) + multiset(c'.cache - c.cache)
    ensures c.limit == 0 && LosslessSort(c, w, o, kept) ==>
      RowsKeys(c'.ws[w].h.rows) + one == RowsKeys(c.ws[w].h.rows) + multiset(c'.cache - c.cache)
  {
    var h0 := c.ws[w].h;
    var (h, e) := NextUrl(h0, c.limit);
    var (h', cache') := Fetched(h, c.cache, e.value, o);
    one := multiset{Key(e.value.url)};
    NextKeys(h0, c.limit);
    FetchedKeys(h, c.cache, e.value, o, universe);
    SortedKeys(Top(h'.rows), kept);
    SetTopKeys(h'.rows, kept);
    VisitBalance(RowsKeys(SetTop(h'.rows, kept)), RowsKeys(h'.rows), RowsKeys(h.rows), RowsKeys(h0.rows), one, multiset(cache' - c.cache));
  }

  lemma VisitBalance<T>(k: multiset<T>, h': multiset<T>, h: multiset<T>, h0: multiset<T>, one: multiset<T>, added: multiset<T>)
    requires k <= h' && h' == h + added && h + one <= h0
    ensures k + one <= h0 + added
    ensures k == h' && h + one == h0 ==> k + one == h0 + added
  {}

  /** The sort of this visit keeps every entry. */
  ghost predicate LosslessSort(c: Crew, w: nat, o: Outcome, kept: seq<Entry>) {
    && w < |c.ws| && NextUrl(c.ws[w].h, c.limit).1.Some?
    && var (h, e) := NextUrl(c.ws[w].h, c.limit);
    multiset(kept) == multiset(Top(Fetched(h, c.cache, e.value, o).0.rows))
  }

  lemma CacheGrows(m: multiset<seq<int>>, c: set<seq<int>>, c': set<seq<int>>)
    requires c <= c'
    ensures m <= multiset(c) + multiset(c' - c) ==> m <= multiset(c')
    ensures multiset(c) + multiset(c' - c) == multiset(c')
  {
    assert c' == c + (c' - c);
  }

  lemma VisitKeysOk(c: Crew, w: nat, o: Outcome, kept: seq<Entry>, c': Crew, universe: set<seq<int>>)
    requires KeysOk(c, universe) && Visit(c, w, o, kept, c') && OutcomeIn(o, universe)
    ensures KeysOk(c', universe)
  {
    var one := VisitKeys(c, w, o, kept, c', universe);
    PutKeys(c.ws, w, c'.ws[w], c.crawled, one, multiset(c'.cache - c.cache));
    CacheGrows(SysKeys(c'.ws) + c'.crawled, c.cache, c'.cache);
  }

  lemma InvVisit(c: Crew, w: nat, o: Outcome, kept: seq<Entry>, c': Crew, universe: set<seq<int>>)
    requires Inv(c, universe) && Visit(c, w, o, kept, c') && OutcomeIn(o, universe)
    ensures Inv(c', universe)
  {
    VisitWorker(c, w, o, kept, c');
    VisitKeysOk(c, w, o, kept, c', universe);
    QueueKept(c, w, c');
  }

  /** Changing a worker that neither is nor becomes dormant leaves the queue right. */
  lemma QueueKept(c: Crew, w: nat, c': Crew)
    requires QueueOk(c) && w < |c.ws| && c'.wq == c.wq && c'.num == c.num
    requires |c'.ws| == |c.ws| && forall i :: 0 <= i < |c.ws| && i != w ==> c'.ws[i] == c.ws[i]
    requires !Dormant(c.ws[w]) && (c'.ws[w].pc != Asleep || c'.ws[w].message != NONE)
    ensures QueueOk(c')
  {
    forall v | 0 <= v < |c'.ws| && c'.ws[v].pc == Asleep && c'.ws[v].message == NONE ensures InQueue(c', v) {
      assert InQueue(c, v);
    }
  }

  // ---- Counting the queue ------------------------------------------------------------------------

  predicate Distinct(q: seq<nat>, m: nat, n: nat) {
    && m <= |q|
    && (forall i :: 0 <= i < m ==> q[i] < n)
    && (forall i, j :: 0 <= i < j < m ==> q[i] != q[j])
  }

  function Range(n: nat): (s: set<nat>)
    ensures |s| == n && forall i: nat :: i in s <==> i < n
  {
    if n == 0 then {} else Range(n - 1) + {n - 1}
  }

  function Elems(q: seq<nat>, m: nat): (s: set<nat>)
    requires m <= |q|
    ensures forall v: nat :: v in s <==> Among(q, 0, m, v)
  {
    if m == 0 then {} else Elems(q, m - 1) + {q[m - 1]}
  }

  lemma {:induction false} DistinctSize(q: seq<nat>, m: nat, n: nat)
    requires Distinct(q, m, n)
    ensures |Elems(q, m)| == m
    decreases m
  {
    if m > 0 { DistinctSize(q, m - 1, n); }
  }

  /** A queue of distinct workers that misses one is not full; a full one misses none. */
  lemma Pigeonhole(q: seq<nat>, m: nat, n: nat, v: nat)
    requires Distinct(q, m, n) && v < n
    ensures m <= n && (m == n ==> Among(q, 0, m, v))
  {
    DistinctSize(q, m, n);
    var a, b := Elems(q, m), Range(n);
    Subset(a, b);
    if !Among(q, 0, m, v) { Subset(a + {v}, b); }
  }

  lemma Subset<T>(a: set<T>, b: set<T>)
    requires a <= b
    ensures |a| <= |b|
  {
    assert b == a + (b - a);
  }

  lemma AwakeNotFull(c: Crew, w: nat)
    requires QueueOk(c) && w < |c.ws| && !Dormant(c.ws[w])
    ensures c.num < |c.ws|
  {
    Pigeonhole(c.wq, c.num, |c.ws|, w);
  }

  // ---- The other steps keep the invariant -----------------------------------------------------------

  /** A worker of which no key is crawled or cached anew. */
  lemma QuietKeys(c: Crew, w: nat, x: Worker, universe: set<seq<int>>)
    requires KeysOk(c, universe) && w < |c.ws| && RowsKeys(x.h.rows) <= RowsKeys(c.ws[w].h.rows)
    ensures KeysOk(Put(c, w, x), universe)
  {
    var none: multiset<seq<int>> := multiset{};
    PutKeys(c.ws, w, x, c.crawled, none, none);
    assert c.crawled + none == c.crawled && SysKeys(c.ws) + c.crawled + none == SysKeys(c.ws) + c.crawled;
  }

  lemma InvWait(c: Crew, w: nat, c': Crew, universe: set<seq<int>>)
    requires Inv(c, universe) && Wait(c, w, c')
    ensures Inv(c', universe) && Dormant(c'.ws[w])
  {
    var h := NextUrl(c.ws[w].h, c.limit).0;
    DepthLimit(c.ws[w].h, c.limit);
    NextKeys(c.ws[w].h, c.limit);
    QuietKeys(c, w, c'.ws[w], universe);
    AwakeNotFull(c, w);
    QueuePush(c, w, c');
  }

  /** A worker that goes to sleep with an empty frontier joins the queue. */
  lemma QueuePush(c: Crew, w: nat, c': Crew)
    requires QueueOk(c) && w < |c.ws| && !Dormant(c.ws[w]) && c.num < |c.wq|
    requires c'.wq == c.wq[c.num := w] && c'.num == c.num + 1
    requires |c'.ws| == |c.ws| && Dormant(c'.ws[w])
    requires forall i :: 0 <= i < |c.ws| && i != w ==> c'.ws[i] == c.ws[i]
    ensures QueueOk(c')
  {
    forall i | 0 <= i < c.num ensures c'.wq[i] == c.wq[i] && c.wq[i] != w && Dormant(c'.ws[c'.wq[i]]) {}
    forall v | 0 <= v < |c'.ws| && c'.ws[v].pc == Asleep && c'.ws[v].message == NONE ensures InQueue(c', v) {
      if v == w {
        assert c'.wq[c.num] == w;
      } else {
        assert InQueue(c, v);
        var i :| 0 <= i < c.num && c.wq[i] == v;
        assert c'.wq[i] == v;
      }
    }
  }

  lemma InvWake(c: Crew, w: nat, kept: seq<Entry>, c': Crew, universe: set<seq<int>>)
    requires Inv(c, universe) && Wake(c, w, kept, c')
    ensures Inv(c', universe)
  {
    var h := c.ws[w].h;
    SortedKeys(Top(h.rows), kept);
    SetTopKeys(h.rows, kept);
    SortedLeveled(h, kept);
    QuietKeys(c, w, c'.ws[w], universe);
    QueueKept(c, w, c');
  }

  lemma InvSkip(c: Crew, g: nat, c': Crew, universe: set<seq<int>>)
    requires Inv(c, universe) && Skip(c, g, c')
    ensures Inv(c', universe)
  {
    QuietKeys(c, g, c'.ws[g], universe);
    QueueKept(c, g, c');
  }

  /** What the handoff does to the workers: nothing, or every queued worker gets
      a message and the queue is empty. */
  ghost predicate Handed(c: Crew, g: nat, ws: seq<Worker>, num: int) {
    && g < |c.ws| == |ws| && c.num <= |c.wq|
    && SysKeys(ws) == SysKeys(c.ws)
    && ws[g].h.rows != [] && Leveled(ws[g].h) && ws[g].message == c.ws[g].message
    && if num == c.num && c.num > 0 then (forall v :: 0 <= v < |c.ws| && v != g ==> ws[v] == c.ws[v])
       else
         && num == 0
         && (forall v :: 0 <= v < |c.ws| && v != g && !InQueue(c, v) ==> ws[v] == c.ws[v])
         && (forall v :: 0 <= v < |c.ws| && v != g && InQueue(c, v) ==> Roused(ws[v]) && Dormant(c.ws[v]))
  }

  /** The handoff loses, copies and re-levels no URL. */
  lemma ShareEffect(c: Crew, g: nat, c': Crew) returns (ws: seq<Worker>)
    requires QueueOk(c) && Share(c, g, c') && WorkerOk(c.ws[g])
    ensures Handed(c, g, ws, c'.num)
    ensures c' == c.(ws := ws[g := ws[g].(pc := AtNext)], num := c'.num)
  {
    if c.num < |Top(c.ws[g].h.rows)| {
      var res := ShareKeeps(c.ws, c.wq, c.num, g, 0, c.num);
      ShareUnfolds(c, g, res);
      ws := res.0;
    } else {
      ws := c.ws;
    }
  }

  lemma ShareUnfolds(c: Crew, g: nat, res: (seq<Worker>, int))
    requires QueueOk(c) && Shared(c.ws, c.wq, c.num, g, 0, c.num, res)
    ensures Handed(c, g, res.0, res.1) && res.1 == 0
  {
    assert Unfold(0);
    forall v | 0 <= v < |c.ws| && v != g ensures InQueue(c, v) <==> Among(c.wq, 0, c.num, v) {}
  }

  lemma InvShare(c: Crew, g: nat, c': Crew, universe: set<seq<int>>)
    requires Inv(c, universe) && Share(c, g, c')
    ensures Inv(c', universe)
  {
    var ws := ShareEffect(c, g, c');
    SamePlace(ws, g, ws[g].(pc := AtNext));
    AwakeNotFull(c, g);
    HandedQueue(c, g, ws, c');
  }

  lemma SamePlace(ws: seq<Worker>, g: nat, x: Worker)
    requires g < |ws| && x.h == ws[g].h
    ensures SysKeys(ws[g := x]) == SysKeys(ws)
  {
    SysKeysUpdate(ws, g, x);
    var a, b, r := SysKeys(ws[g := x]), SysKeys(ws), RowsKeys(x.h.rows);
    forall k ensures a[k] == b[k] { assert (a + r)[k] == (b + r)[k]; }
  }

  lemma HandedQueue(c: Crew, g: nat, ws: seq<Worker>, c': Crew)
    requires QueueOk(c) && Handed(c, g, ws, c'.num) && c.ws[g].pc == AtShare
    requires forall w :: 0 <= w < |c.ws| ==> WorkerOk(c.ws[w])
    requires c' == c.(ws := ws[g := ws[g].(pc := AtNext)], num := c'.num)
    ensures QueueOk(c') && forall w :: 0 <= w < |c'.ws| ==> WorkerOk(c'.ws[w])
  {
    forall v | 0 <= v < |c'.ws|
      ensures WorkerOk(c'.ws[v])
      ensures c'.ws[v].pc == Asleep && c'.ws[v].message == NONE ==> InQueue(c', v)
    {
      if v != g && c'.ws[v] == c.ws[v] && c.ws[v].pc == Asleep && c.ws[v].message == NONE {
        assert InQueue(c, v);
      }
    }
  }

  // ---- Runs -----------------------------------------------------------------------------------------

  predicate ActIn(a: Act, universe: set<seq<int>>) {
    && (a.DoVisit? ==> OutcomeIn(a.o, universe))
    && (a.DoBoot? ==> forall i :: 0 <= i < |a.args| ==> Key(a.args[i]) in universe)
  }

  lemma InvBegin(n: nat, limit: nat, universe: set<seq<int>>)
    requires n > 0
    ensures Inv(Begin(n, limit), universe)
  {
    var c := Begin(n, limit);
    NoKeys(c.ws);
    assert forall w :: 0 <= w < n ==> c.ws[w] == Worker(Starting, WAITING, NONE, Handle([[]], 0));
  }

  lemma {:induction false} NoKeys(ws: seq<Worker>)
    requires forall w :: 0 <= w < |ws| ==> ws[w].h.rows == [[]]
    ensures SysKeys(ws) == multiset{}
    decreases |ws|
  {
    if ws != [] {
      NoKeys(ws[..|ws| - 1]);
      EmptyRows();
    }
  }

  lemma BootKeys(c: Crew, w: nat, args: seq<CUrl>, kept: seq<Entry>, c': Crew, universe: set<seq<int>>)
    requires Boot(c, w, args, kept, c') && ActIn(DoBoot(args, kept), universe)
    ensures c.cache <= c'.cache <= c.cache + universe
    ensures RowsKeys(c'.ws[w].h.rows) <= RowsKeys(c.ws[w].h.rows) + multiset(c'.cache - c.cache)
    ensures multiset(kept) == multiset(AddLinks(Top(c.ws[w].h.rows), c.cache, args, c.ws[w].h.depth).0) ==>
      RowsKeys(c'.ws[w].h.rows) == RowsKeys(c.ws[w].h.rows) + multiset(c'.cache - c.cache)
  {
    var h := c.ws[w].h;
    var t := AddLinks(Top(h.rows), c.cache, args, h.depth).0;
    AddLinksKeys(Top(h.rows), c.cache, args, h.depth, universe);
    SortedKeys(t, kept);
    SetTopKeys(h.rows, kept);
    Reassoc(RowsKeys(Dec(h.rows)), Keys(Top(h.rows)), multiset(c'.cache - c.cache));
  }

  lemma BootLeveled(c: Crew, w: nat, args: seq<CUrl>, kept: seq<Entry>, c': Crew)
    requires Boot(c, w, args, kept, c') && Leveled(c.ws[w].h)
    ensures Leveled(c'.ws[w].h)
  {
    var h := c.ws[w].h;
    var t := AddLinks(Top(h.rows), c.cache, args, h.depth).0;
    AddLinksLevel(Top(h.rows), c.cache, args, h.depth);
    var h1 := h.(rows := SetTop(h.rows, t));
    assert Leveled(h1) by { assert UnfoldLevels(0); }
    SortedLeveled(h1, kept);
    assert SetTop(h1.rows, kept) == SetTop(h.rows, kept);
  }

  lemma InvBoot(c: Crew, w: nat, args: seq<CUrl>, kept: seq<Entry>, c': Crew, universe: set<seq<int>>)
    requires Inv(c, universe) && Boot(c, w, args, kept, c') && ActIn(DoBoot(args, kept), universe)
    ensures Inv(c', universe)
  {
    BootKeys(c, w, args, kept, c', universe);
    var none: multiset<seq<int>> := multiset{};
    PutKeys(c.ws, w, c'.ws[w], c.crawled, none, multiset(c'.cache - c.cache));
    assert c.crawled + none == c.crawled;
    CacheGrows(SysKeys(c'.ws) + c'.crawled, c.cache, c'.cache);
    BootShape(c, w, args, kept, c');
  }

  lemma BootShape(c: Crew, w: nat, args: seq<CUrl>, kept: seq<Entry>, c': Crew)
    requires QueueOk(c) && (forall v :: 0 <= v < |c.ws| ==> WorkerOk(c.ws[v])) && Boot(c, w, args, kept, c')
    ensures QueueOk(c') && forall v :: 0 <= v < |c'.ws| ==> WorkerOk(c'.ws[v])
  {
    BootLeveled(c, w, args, kept, c');
    QueueKept(c, w, c');
  }

  lemma InvStep(c: Crew, w: nat, a: Act, c': Crew, universe: set<seq<int>>)
    requires Inv(c, universe) && Step(c, w, a, c') && ActIn(a, universe)
    ensures Inv(c', universe)
  {
    match a
    case DoBoot(args, kept) => InvBoot(c, w, args, kept, c', universe);
    case DoVisit(o, kept) => InvVisit(c, w, o, kept, c', universe);
    case DoWait => InvWait(c, w, c', universe);
    case DoWake(kept) => InvWake(c, w, kept, c', universe);
    case DoShare => InvShare(c, w, c', universe);
    case DoSkip => InvSkip(c, w, c', universe);
  }

  /** A run: the states it goes through, and who did what in between. */
  datatype Move1 = Move1(w: nat, a: Act)

  ghost predicate ShowMove(m: Move1, z: int) { true }

  /** m is a step from c to c'; folded until ShowMove is mentioned for m. */
  ghost predicate Moved(c: Crew, m: Move1, c': Crew, universe: set<seq<int>>) {
    forall z {:trigger ShowMove(m, z)} :: ShowMove(m, z) ==> Step(c, m.w, m.a, c') && ActIn(m.a, universe)
  }

  ghost predicate IsRun(n: nat, limit: nat, cs: seq<Crew>, ms: seq<Move1>, universe: set<seq<int>>) {
    && n > 0 && |cs| == |ms| + 1 && cs[0] == Begin(n, limit)
    && forall i {:trigger ms[i]} :: 0 <= i < |ms| ==> Moved(cs[i], ms[i], cs[i + 1], universe)
  }

  lemma {:induction false} RunInv(n: nat, limit: nat, cs: seq<Crew>, ms: seq<Move1>, universe: set<seq<int>>, i: nat)
    requires IsRun(n, limit, cs, ms, universe) && i < |cs|
    ensures Inv(cs[i], universe) && |cs[i].ws| == n && cs[i].limit == limit
    decreases i
  {
    if i == 0 {
      InvBegin(n, limit, universe);
    } else {
      RunInv(n, limit, cs, ms, universe, i - 1);
      RunStep(cs[i - 1], ms[i - 1], cs[i], universe);
    }
  }

  lemma RunStep(c: Crew, m: Move1, c': Crew, universe: set<seq<int>>)
    requires Inv(c, universe) && Moved(c, m, c', universe)
    ensures Inv(c', universe) && |c'.ws| == |c.ws| && c'.limit == c.limit
    ensures Rank(c', universe) < Rank(c, universe)
  {
    assert ShowMove(m, 0);
    InvStep(c, m.w, m.a, c', universe);
    StepShape(c, m.w, m.a, c');
    StepDrops(c, m.w, m.a, c', universe);
  }

  lemma StepShape(c: Crew, w: nat, a: Act, c': Crew)
    requires Step(c, w, a, c') && QueueOk(c) && (forall v :: 0 <= v < |c.ws| ==> WorkerOk(c.ws[v]))
    ensures |c'.ws| == |c.ws| && c'.limit == c.limit
  {
    if a.DoShare? { var _ := ShareEffect(c, w, c'); }
  }

  // ---- What holds in every run ---------------------------------------------------------------------------

  /** When IDLE has been notified, every worker sleeps and no frontier holds a URL. */
  lemma IdleIsOver(c: Crew, universe: set<seq<int>>, w: nat)
    requires Inv(c, universe) && c.idle && w < |c.ws|
    ensures Dormant(c.ws[w])
  {
    Pigeonhole(c.wq, c.num, |c.ws|, w);
    var i :| 0 <= i < c.num && c.wq[i] == w;
  }

  lemma {:induction false} ElemsBound(q: seq<nat>, m: nat)
    requires m <= |q|
    ensures |Elems(q, m)| <= m
    decreases m
  {
    if m > 0 {
      ElemsBound(q, m - 1);
    }
  }

  /** A queue that holds every worker is full. */
  lemma AllQueued(q: seq<nat>, m: nat, n: nat)
    requires m <= |q| && forall v :: 0 <= v < n ==> Among(q, 0, m, v)
    ensures n <= m
  {
    forall v | v in Range(n) ensures v in Elems(q, m) {
      assert Among(q, 0, m, v);
    }
    Subset(Range(n), Elems(q, m));
    ElemsBound(q, m);
  }

  /** IDLE has been notified exactly when every worker sleeps and no frontier holds a URL. */
  lemma IdleExactly(c: Crew, universe: set<seq<int>>)
    requires Inv(c, universe)
    ensures c.idle <==> forall w :: 0 <= w < |c.ws| ==> Dormant(c.ws[w])
  {
    if c.idle {
      forall w | 0 <= w < |c.ws| ensures Dormant(c.ws[w]) { IdleIsOver(c, universe, w); }
    } else if forall w :: 0 <= w < |c.ws| ==> Dormant(c.ws[w]) {
      forall v | 0 <= v < |c.ws| ensures Among(c.wq, 0, c.num, v) { assert InQueue(c, v); }
      AllQueued(c.wq, c.num, |c.ws|);
    }
  }

  /** The URL a visit takes was never visited before, by any worker. */
  lemma NeverTwice(c: Crew, w: nat, o: Outcome, kept: seq<Entry>, c': Crew, universe: set<seq<int>>)
    requires Inv(c, universe) && Visit(c, w, o, kept, c') && OutcomeIn(o, universe)
    ensures var k := Key(NextUrl(c.ws[w].h, c.limit).1.value.url); k !in c.crawled && c'.crawled[k] == 1
    ensures forall k :: c'.crawled[k] <= 1
  {
    InvVisit(c, w, o, kept, c', universe);
    forall k ensures c'.crawled[k] <= 1 {
      assert (SysKeys(c'.ws) + c'.crawled)[k] <= multiset(c'.cache)[k];
    }
    var k := Key(NextUrl(c.ws[w].h, c.limit).1.value.url);
    assert c'.crawled == c.crawled + multiset{k};
    assert c'.crawled[k] == c.crawled[k] + 1;
  }

  /** With a limit, no URL is visited that is limit or more links from the start. */
  lemma VisitDepth(c: Crew, w: nat, o: Outcome, kept: seq<Entry>, c': Crew, universe: set<seq<int>>)
    requires Inv(c, universe) && Visit(c, w, o, kept, c')
    ensures c.limit > 0 ==> NextUrl(c.ws[w].h, c.limit).1.value.hops <= c.limit - 1
  {
    DepthLimit(c.ws[w].h, c.limit);
  }

  /** Unless IDLE was notified, some worker can go on. */
  lemma Progress(c: Crew, universe: set<seq<int>>) returns (w: nat, a: Act, c': Crew)
    requires Inv(c, universe) && !c.idle
    ensures Step(c, w, a, c') && ActIn(a, universe)
  {
    w := AwakeOne(c);
    var x := c.ws[w];
    if x.pc == Starting {
      a := DoBoot([], Top(x.h.rows));
      c' := Put(c, w, x.(pc := AtNext, h := x.h.(rows := SetTop(x.h.rows, Top(x.h.rows)))));
    } else if x.pc == AtShare {
      a, c' := DoSkip, Put(c, w, x.(pc := AtNext));
    } else if x.pc == Asleep {
      a := DoWake(Top(x.h.rows));
      c' := Put(c, w, Worker(AtNext, RUNNING, NONE, x.h.(rows := SetTop(x.h.rows, Top(x.h.rows)))));
    } else if NextUrl(x.h, c.limit).1.None? {
      AwakeNotFull(c, w);
      a, c' := DoWait, WaitStep(c, w);
    } else {
      var (h, e) := NextUrl(x.h, c.limit);
      var (h', cache') := Fetched(h, c.cache, e.value, Links([]));
      a := DoVisit(Links([]), Top(h'.rows));
      c' := Put(c, w, x.(pc := AtShare, h := h'.(rows := SetTop(h'.rows, Top(h'.rows)))))
              .(cache := cache', crawled := c.crawled + multiset{Key(e.value.url)});
    }
  }

  /** Unless every worker is queued, one is awake or has a message. */
  lemma AwakeOne(c: Crew) returns (w: nat)
    requires QueueOk(c) && c.num < |c.ws|
    ensures w < |c.ws| && (c.ws[w].pc != Asleep || c.ws[w].message == CONTINUE)
  {
    if forall v :: 0 <= v < |c.ws| ==> c.ws[v].pc == Asleep && c.ws[v].message == NONE {
      forall v: nat | v in Range(|c.ws|) ensures v in Elems(c.wq, c.num) {
        assert InQueue(c, v);
      }
      DistinctSize(c.wq, c.num, |c.ws|);
      Subset(Range(|c.ws|), Elems(c.wq, c.num));
      assert false;
    }
    w :| w < |c.ws| && !(c.ws[w].pc == Asleep && c.ws[w].message == NONE);
  }

  // ---- Every run ends ----------------------------------------------------------------------------------------

  function Weight(w: Worker, n: nat): nat {
    match w.pc
    case Starting => 2
    case AtNext => 1
    case AtShare => 2 * n + 2
    case Asleep => if w.message == CONTINUE then 2 else 0
  }

  function Weights(ws: seq<Worker>, n: nat): nat {
    if ws == [] then 0 else Weights(ws[..|ws| - 1], n) + Weight(ws[|ws| - 1], n)
  }

  lemma {:induction false} WeightsUpdate(ws: seq<Worker>, i: nat, x: Worker, n: nat)
    requires i < |ws|
    ensures Weights(ws[i := x], n) == Weights(ws, n) - Weight(ws[i], n) + Weight(x, n)
    decreases |ws|
  {
    var init := ws[..|ws| - 1];
    if i == |ws| - 1 {
      assert ws[i := x][..i] == init;
    } else {
      WeightsUpdate(init, i, x, n);
      assert ws[i := x][..|ws| - 1] == init[i := x];
    }
  }

  /** At most two more for each worker. */
  lemma {:induction false} WeightsNear(a: seq<Worker>, b: seq<Worker>, n: nat)
    requires |a| == |b| && forall v :: 0 <= v < |a| ==> Weight(b[v], n) <= Weight(a[v], n) + 2
    ensures Weights(b, n) <= Weights(a, n) + 2 * |a|
    decreases |a|
  {
    if a != [] {
      var i := |a| - 1;
      assert Weight(b[i], n) <= Weight(a[i], n) + 2;
      WeightsNear(a[..i], b[..i], n);
    }
  }

  lemma {:induction false} WeightsBound(ws: seq<Worker>, n: nat)
    ensures Weights(ws, n) <= Times(|ws|, 2 * n + 2)
    decreases |ws|
  {
    if ws != [] {
      WeightsBound(ws[..|ws| - 1], n);
    }
  }

  /** Keys not cached yet count for more than a whole frontier. */
  function Pages(c: Crew, universe: set<seq<int>>): nat {
    Times(|universe - c.cache|, |universe| + 1) + |SysKeys(c.ws)|
  }

  /** The product, by additions, so that no proof meets a multiplication. */
  function Times(a: nat, b: nat): nat { if a == 0 then 0 else Times(a - 1, b) + b }

  lemma {:induction false} TimesGrows(a: nat, c: nat, b: nat)
    requires a < c
    ensures Times(a, b) + b <= Times(c, b)
    decreases c
  {
    if a < c - 1 {
      TimesGrows(a, c - 1, b);
    }
  }

  /** More than the weights of n workers come to. */
  function Lap(n: nat): (b: nat) { Times(n, 2 * n + 2) + 1 }

  /** r is the rank of c; a mention of Unfold unfolds it. */
  ghost predicate IsRank(c: Crew, universe: set<seq<int>>, r: nat) {
    forall z {:trigger Unfold(z)} :: Unfold(z) ==> r == Times(Pages(c, universe), Lap(|c.ws|)) + Weights(c.ws, |c.ws|)
  }

  ghost function Rank(c: Crew, universe: set<seq<int>>): nat {
    assert IsRank(c, universe, Times(Pages(c, universe), Lap(|c.ws|)) + Weights(c.ws, |c.ws|));
    var r: nat :| IsRank(c, universe, r);
    r
  }

  lemma RankIs(c: Crew, universe: set<seq<int>>)
    ensures Rank(c, universe) == Times(Pages(c, universe), Lap(|c.ws|)) + Weights(c.ws, |c.ws|)
  {
    assert Unfold(0);
  }

  lemma SubSize<T>(a: multiset<T>, b: multiset<T>)
    requires a <= b
    ensures |a| <= |b|
  {
    assert b == a + (b - a);
  }

  /** The frontiers together hold no more keys than there are. */
  lemma FrontierBound(c: Crew, universe: set<seq<int>>)
    requires KeysOk(c, universe)
    ensures |SysKeys(c.ws)| <= |universe|
  {
    SubSize(SysKeys(c.ws), multiset(c.cache));
    Subset(c.cache, universe);
  }

  lemma Lexicographic(a: nat, a': nat, b: nat, k: nat, k': nat)
    requires k' < b && (a' < a || (a' == a && k' < k))
    ensures Times(a', b) + k' < Times(a, b) + k
  {
    if a' < a {
      TimesGrows(a', a, b);
    }
  }

  /** More pages left: the rank is larger, whatever the workers do. */
  lemma PagesDrop(c: Crew, c': Crew, universe: set<seq<int>>)
    requires |c'.ws| == |c.ws|
    requires Pages(c', universe) < Pages(c, universe)
      || (Pages(c', universe) == Pages(c, universe) && Weights(c'.ws, |c.ws|) < Weights(c.ws, |c.ws|))
    ensures Rank(c', universe) < Rank(c, universe)
  {
    var n := |c.ws|;
    RankIs(c, universe);
    RankIs(c', universe);
    WeightsBound(c'.ws, n);
    Lexicographic(Pages(c, universe), Pages(c', universe), Lap(n), Weights(c.ws, n), Weights(c'.ws, n));
  }

  lemma CacheDrop(c: Crew, c': Crew, universe: set<seq<int>>)
    requires KeysOk(c', universe) && c.cache < c'.cache
    ensures Pages(c', universe) < Pages(c, universe)
  {
    FrontierBound(c', universe);
    var k :| k in c'.cache && k !in c.cache;
    Subset((universe - c'.cache) + {k}, universe - c.cache);
    Lexicographic(|universe - c.cache|, |universe - c'.cache|, |universe| + 1, |SysKeys(c.ws)|, |SysKeys(c'.ws)|);
  }

  lemma FrontierDrop(c: Crew, c': Crew, universe: set<seq<int>>)
    requires c.cache == c'.cache && |SysKeys(c'.ws)| <= |SysKeys(c.ws)|
    ensures Pages(c', universe) <= Pages(c, universe)
    ensures |SysKeys(c'.ws)| < |SysKeys(c.ws)| ==> Pages(c', universe) < Pages(c, universe)
  {}

  /** A step that touches one worker, adds nothing, and lowers that worker's weight. */
  lemma QuietDrop(c: Crew, w: nat, c': Crew, universe: set<seq<int>>)
    requires w < |c.ws| == |c'.ws| && c'.cache == c.cache && c'.ws == c.ws[w := c'.ws[w]]
    requires RowsKeys(c'.ws[w].h.rows) <= RowsKeys(c.ws[w].h.rows)
    requires Weight(c'.ws[w], |c.ws|) < Weight(c.ws[w], |c.ws|)
    ensures Rank(c', universe) < Rank(c, universe)
  {
    SysKeysUpdate(c.ws, w, c'.ws[w]);
    SizeStep(SysKeys(c'.ws), SysKeys(c.ws), RowsKeys(c'.ws[w].h.rows), RowsKeys(c.ws[w].h.rows));
    WeightsUpdate(c.ws, w, c'.ws[w], |c.ws|);
    FrontierDrop(c, c', universe);
    PagesDrop(c, c', universe);
  }

  lemma SizeStep<T>(a: multiset<T>, b: multiset<T>, x: multiset<T>, y: multiset<T>)
    requires a + y == b + x && x <= y
    ensures |a| <= |b|
  {
    SubSize(x, y);
    assert |a + y| == |a| + |y| && |b + x| == |b| + |x|;
  }

  lemma VisitDrops(c: Crew, w: nat, o: Outcome, kept: seq<Entry>, c': Crew, universe: set<seq<int>>)
    requires Inv(c, universe) && Visit(c, w, o, kept, c') && OutcomeIn(o, universe)
    ensures Rank(c', universe) < Rank(c, universe)
  {
    var one := VisitKeys(c, w, o, kept, c', universe);
    InvVisit(c, w, o, kept, c', universe);
    if c'.cache == c.cache {
      var none: multiset<seq<int>> := multiset{};
      assert multiset(c'.cache - c.cache) == none;
      PutKeys(c.ws, w, c'.ws[w], c.crawled, one, none);
      assert SysKeys(c.ws) + c.crawled + none == SysKeys(c.ws) + c.crawled;
      SubSize(SysKeys(c'.ws) + (c.crawled + one), SysKeys(c.ws) + c.crawled);
      FrontierDrop(c, c', universe);
    } else {
      CacheDrop(c, c', universe);
    }
    PagesDrop(c, c', universe);
  }

  lemma BootDrops(c: Crew, w: nat, args: seq<CUrl>, kept: seq<Entry>, c': Crew, universe: set<seq<int>>)
    requires Inv(c, universe) && Boot(c, w, args, kept, c') && ActIn(DoBoot(args, kept), universe)
    ensures Rank(c', universe) < Rank(c, universe)
  {
    if c'.cache == c.cache {
      BootQuiet(c, w, args, kept, c', universe);
    } else {
      BootGrows(c, w, args, kept, c', universe);
      PagesDrop(c, c', universe);
    }
  }

  lemma BootQuiet(c: Crew, w: nat, args: seq<CUrl>, kept: seq<Entry>, c': Crew, universe: set<seq<int>>)
    requires Boot(c, w, args, kept, c') && ActIn(DoBoot(args, kept), universe) && c'.cache == c.cache
    ensures Rank(c', universe) < Rank(c, universe)
  {
    BootKeys(c, w, args, kept, c', universe);
    assert multiset(c'.cache - c.cache) == multiset{};
    QuietDrop(c, w, c', universe);
  }

  lemma BootGrows(c: Crew, w: nat, args: seq<CUrl>, kept: seq<Entry>, c': Crew, universe: set<seq<int>>)
    requires Inv(c, universe) && Boot(c, w, args, kept, c') && ActIn(DoBoot(args, kept), universe) && c'.cache != c.cache
    ensures Pages(c', universe) < Pages(c, universe) && |c'.ws| == |c.ws|
  {
    BootKeys(c, w, args, kept, c', universe);
    InvBoot(c, w, args, kept, c', universe);
    CacheDrop(c, c', universe);
  }

  /** A woken worker weighs two more than a dormant one; the others weigh what they did. */
  lemma HandedWeights(c: Crew, g: nat, ws: seq<Worker>, num: int, base: seq<Worker>, ws': seq<Worker>)
    requires Handed(c, g, ws, num)
    requires base == c.ws[g := c.ws[g].(pc := AtNext)] && ws' == ws[g := ws[g].(pc := AtNext)]
    ensures |base| == |ws'| && forall v :: 0 <= v < |ws'| ==> Weight(ws'[v], |c.ws|) <= Weight(base[v], |c.ws|) + 2
  {
    forall v | 0 <= v < |ws'| ensures Weight(ws'[v], |c.ws|) <= Weight(base[v], |c.ws|) + 2 {
      if v != g && ws[v] != c.ws[v] {
        assert Roused(ws[v]);
      }
    }
  }

  lemma ShareDrops(c: Crew, g: nat, c': Crew, universe: set<seq<int>>)
    requires Inv(c, universe) && Share(c, g, c')
    ensures Rank(c', universe) < Rank(c, universe)
  {
    var n := |c.ws|;
    var ws := ShareEffect(c, g, c');
    SamePlace(ws, g, ws[g].(pc := AtNext));
    var base := c.ws[g := c.ws[g].(pc := AtNext)];
    WeightsUpdate(c.ws, g, base[g], n);
    HandedWeights(c, g, ws, c'.num, base, c'.ws);
    WeightsNear(base, c'.ws, n);
    PagesDrop(c, c', universe);
  }

  /** Every step lowers the rank. */
  lemma StepDrops(c: Crew, w: nat, a: Act, c': Crew, universe: set<seq<int>>)
    requires Inv(c, universe) && Step(c, w, a, c') && ActIn(a, universe)
    ensures Rank(c', universe) < Rank(c, universe)
  {
    match a
    case DoBoot(args, kept) => BootDrops(c, w, args, kept, c', universe);
    case DoVisit(o, kept) => VisitDrops(c, w, o, kept, c', universe);
    case DoWait => WaitDrops(c, w, c', universe);
    case DoWake(kept) => WakeDrops(c, w, kept, c', universe);
    case DoShare => ShareDrops(c, w, c', universe);
    case DoSkip => QuietDrop(c, w, c', universe);
  }

  lemma WaitDrops(c: Crew, w: nat, c': Crew, universe: set<seq<int>>)
    requires Wait(c, w, c')
    ensures Rank(c', universe) < Rank(c, universe)
  {
    NextKeys(c.ws[w].h, c.limit);
    QuietDrop(c, w, c', universe);
  }

  lemma WakeKeys(c: Crew, w: nat, kept: seq<Entry>, c': Crew)
    requires Wake(c, w, kept, c')
    ensures RowsKeys(c'.ws[w].h.rows) <= RowsKeys(c.ws[w].h.rows) && c'.ws == c.ws[w := c'.ws[w]]
    ensures Weight(c'.ws[w], |c.ws|) < Weight(c.ws[w], |c.ws|)
  {
    SortedKeys(Top(c.ws[w].h.rows), kept);
    SetTopKeys(c.ws[w].h.rows, kept);
  }

  lemma WakeDrops(c: Crew, w: nat, kept: seq<Entry>, c': Crew, universe: set<seq<int>>)
    requires Wake(c, w, kept, c')
    ensures Rank(c', universe) < Rank(c, universe)
  {
    WakeKeys(c, w, kept, c');
    QuietDrop(c, w, c', universe);
  }

  lemma RunDrops(n: nat, limit: nat, cs: seq<Crew>, ms: seq<Move1>, universe: set<seq<int>>, i: nat)
    requires IsRun(n, limit, cs, ms, universe) && i + 1 < |cs|
    ensures Rank(cs[i + 1], universe) < Rank(cs[i], universe)
  {
    RunInv(n, limit, cs, ms, universe, i);
    RunStep(cs[i], ms[i], cs[i + 1], universe);
  }

  lemma {:induction false} RanksFall(n: nat, limit: nat, cs: seq<Crew>, ms: seq<Move1>, universe: set<seq<int>>, i: nat)
    requires IsRun(n, limit, cs, ms, universe) && i < |cs|
    ensures Rank(cs[i], universe) + i <= Rank(cs[0], universe)
    decreases i
  {
    if i > 0 {
      RanksFall(n, limit, cs, ms, universe, i - 1);
      RunDrops(n, limit, cs, ms, universe, i - 1);
    }
  }

  /** A run of n workers takes no more steps than its first state's rank, with or
      without a depth limit; one that cannot go on has notified IDLE. */
  lemma RunsEnd(n: nat, limit: nat, cs: seq<Crew>, ms: seq<Move1>, universe: set<seq<int>>, i: nat)
    requires IsRun(n, limit, cs, ms, universe) && i < |cs|
    ensures Rank(cs[i], universe) + i <= Rank(Begin(n, limit), universe)
  {
    RanksFall(n, limit, cs, ms, universe, i);
  }

  lemma StuckIsIdle(n: nat, limit: nat, cs: seq<Crew>, ms: seq<Move1>, universe: set<seq<int>>, w: nat)
    requires IsRun(n, limit, cs, ms, universe) && w < n
    requires forall v: nat, a, c' :: ActIn(a, universe) ==> !Step(cs[|ms|], v, a, c')
    ensures cs[|ms|].idle && |cs[|ms|].ws| == n && Dormant(cs[|ms|].ws[w])
  {
    RunInv(n, limit, cs, ms, universe, |ms|);
    if !cs[|ms|].idle {
      var v, a, c' := Progress(cs[|ms|], universe);
    }
    IdleIsOver(cs[|ms|], universe, w);
  }

  // ---- Nothing is forgotten --------------------------------------------------------------------------------------

  /** The step's sort, if it has one, keeps every entry. */
  ghost predicate Lossless(c: Crew, w: nat, a: Act)
    requires w < |c.ws|
  {
    var h := c.ws[w].h;
    match a
    case DoBoot(args, kept) => h.rows != [] && multiset(kept) == multiset(AddLinks(Top(h.rows), c.cache, args, h.depth).0)
    case DoVisit(o, kept) => LosslessSort(c, w, o, kept)
    case DoWake(kept) => h.rows != [] && multiset(kept) == multiset(Top(h.rows))
    case _ => true
  }

  /** Every cached key is in exactly one place: a frontier, or crawled. */
  ghost predicate Complete(c: Crew) { SysKeys(c.ws) + c.crawled == multiset(c.cache) }

  lemma QuietComplete(c: Crew, w: nat, c': Crew)
    requires Complete(c) && w < |c.ws| == |c'.ws| && c'.ws == c.ws[w := c'.ws[w]]
    requires c'.cache == c.cache && c'.crawled == c.crawled && RowsKeys(c'.ws[w].h.rows) == RowsKeys(c.ws[w].h.rows)
    ensures Complete(c')
  {
    var none: multiset<seq<int>> := multiset{};
    PutKeys(c.ws, w, c'.ws[w], c.crawled, none, none);
    assert c.crawled + none == c.crawled && SysKeys(c.ws) + c.crawled + none == SysKeys(c.ws) + c.crawled;
  }

  lemma GrowComplete(c: Crew, w: nat, c': Crew, one: multiset<seq<int>>)
    requires Complete(c) && w < |c.ws| == |c'.ws| && c'.ws == c.ws[w := c'.ws[w]]
    requires c.cache <= c'.cache && c'.crawled == c.crawled + one
    requires RowsKeys(c'.ws[w].h.rows) + one == RowsKeys(c.ws[w].h.rows) + multiset(c'.cache - c.cache)
    ensures Complete(c')
  {
    PutKeys(c.ws, w, c'.ws[w], c.crawled, one, multiset(c'.cache - c.cache));
    CacheGrows(multiset{}, c.cache, c'.cache);
  }

  lemma StepComplete(c: Crew, w: nat, a: Act, c': Crew, universe: set<seq<int>>)
    requires Inv(c, universe) && Step(c, w, a, c') && ActIn(a, universe)
    requires c.limit == 0 && Complete(c) && Lossless(c, w, a)
    ensures Complete(c')
  {
    match a
    case DoBoot(args, kept) =>
      BootKeys(c, w, args, kept, c', universe);
      var none: multiset<seq<int>> := multiset{};
      assert c.crawled + none == c.crawled && RowsKeys(c'.ws[w].h.rows) + none == RowsKeys(c'.ws[w].h.rows);
      GrowComplete(c, w, c', none);
    case DoVisit(o, kept) =>
      var one := VisitKeys(c, w, o, kept, c', universe);
      GrowComplete(c, w, c', one);
    case DoWait =>
      NextKeys(c.ws[w].h, c.limit);
      QuietComplete(c, w, c');
    case DoWake(kept) =>
      SortedKeys(Top(c.ws[w].h.rows), kept);
      SetTopKeys(c.ws[w].h.rows, kept);
      QuietComplete(c, w, c');
    case DoShare =>
      var ws := ShareEffect(c, w, c');
      SamePlace(ws, w, ws[w].(pc := AtNext));
    case DoSkip => QuietComplete(c, w, c');
  }

  lemma {:induction false} RunComplete(n: nat, cs: seq<Crew>, ms: seq<Move1>, universe: set<seq<int>>, i: nat)
    requires IsRun(n, 0, cs, ms, universe) && i < |cs|
    requires AllKeep(cs, ms)
    ensures Complete(cs[i])
    decreases i
  {
    if i == 0 {
      BeginComplete(n);
    } else {
      RunComplete(n, cs, ms, universe, i - 1);
      CompleteNext(n, cs, ms, universe, i - 1);
    }
  }

  lemma BeginComplete(n: nat)
    ensures Complete(Begin(n, 0))
  {
    NoKeys(Begin(n, 0).ws);
  }

  lemma CompleteNext(n: nat, cs: seq<Crew>, ms: seq<Move1>, universe: set<seq<int>>, i: nat)
    requires IsRun(n, 0, cs, ms, universe) && i + 1 < |cs| && AllKeep(cs, ms) && Complete(cs[i])
    ensures Complete(cs[i + 1])
  {
    RunInv(n, 0, cs, ms, universe, i);
    MoveComplete(cs[i], ms[i], cs[i + 1], universe);
  }

  ghost predicate KeepsAll(c: Crew, m: Move1) { m.w < |c.ws| && Lossless(c, m.w, m.a) }

  /** No sort in the run discards a URL. */
  ghost predicate AllKeep(cs: seq<Crew>, ms: seq<Move1>) {
    |ms| <= |cs| && forall j {:trigger ms[j]} :: 0 <= j < |ms| ==> KeepsAll(cs[j], ms[j])
  }

  lemma MoveComplete(c: Crew, m: Move1, c': Crew, universe: set<seq<int>>)
    requires Inv(c, universe) && Moved(c, m, c', universe) && c.limit == 0 && Complete(c) && KeepsAll(c, m)
    ensures Complete(c')
  {
    assert ShowMove(m, 0);
    StepComplete(c, m.w, m.a, c', universe);
  }

  // ---- Everything found is visited -----------------------------------------------------------------------------

  /** The keys of the URLs a step finds: arguments, links of a page, or a redirect. */
  function Finds(a: Act): set<seq<int>> {
    match a
    case DoBoot(args, _) => KeySet(args)
    case DoVisit(Links(ls), _) => KeySet(ls)
    case DoVisit(Redirect(u), _) => {Key(u)}
    case _ => {}
  }

  function Found(ms: seq<Move1>): set<seq<int>> {
    if ms == [] then {} else Found(ms[..|ms| - 1]) + Finds(ms[|ms| - 1].a)
  }

  lemma FetchedFinds(h: Handle, cache: set<seq<int>>, e: Entry, o: Outcome, kept: seq<Entry>)
    requires e.Link? && 2 <= |h.rows| && h.depth > 0
    ensures Fetched(h, cache, e, o).1 == cache + Finds(DoVisit(o, kept))
  {
    match o
    case Links(ls) => var _ := AddLinksNew(Top(h.rows), cache, ls, e.hops + 1);
    case Redirect(u) => AddOne(Top(Dec(h.rows)), cache, u, e.hops);
  }

  lemma BootFinds(c: Crew, w: nat, args: seq<CUrl>, kept: seq<Entry>, c': Crew)
    requires Boot(c, w, args, kept, c')
    ensures c'.cache == c.cache + KeySet(args)
  {
    var _ := AddLinksNew(Top(c.ws[w].h.rows), c.cache, args, c.ws[w].h.depth);
  }

  lemma StepFinds(c: Crew, w: nat, a: Act, c': Crew)
    requires Step(c, w, a, c')
    ensures c'.cache == c.cache + Finds(a)
  {
    if a.DoVisit? {
      var (h, e) := NextUrl(c.ws[w].h, c.limit);
      FetchedFinds(h, c.cache, e.value, a.o, a.kept);
    } else if a.DoBoot? {
      BootFinds(c, w, a.args, a.first, c');
    }
  }

  /** In every run the cache holds the keys of exactly the URLs found so far. */
  lemma {:induction false} RunFinds(n: nat, limit: nat, cs: seq<Crew>, ms: seq<Move1>, universe: set<seq<int>>, i: nat)
    requires IsRun(n, limit, cs, ms, universe) && i < |cs|
    ensures cs[i].cache == Found(ms[..i])
    decreases i
  {
    if i > 0 {
      RunFinds(n, limit, cs, ms, universe, i - 1);
      assert ms[..i][..i - 1] == ms[..i - 1];
      assert Moved(cs[i - 1], ms[i - 1], cs[i], universe) && ShowMove(ms[i - 1], 0);
      StepFinds(cs[i - 1], ms[i - 1].w, ms[i - 1].a, cs[i]);
    }
  }

  /** Without a depth limit and with a sort that keeps everything, a run that has notified IDLE
      has visited the key of every argument and of every link and redirect it met, exactly once. */
  lemma IdleVisitedAll(n: nat, cs: seq<Crew>, ms: seq<Move1>, universe: set<seq<int>>, i: nat)
    requires IsRun(n, 0, cs, ms, universe) && i < |cs| && cs[i].idle
    requires AllKeep(cs, ms)
    ensures cs[i].crawled == multiset(Found(ms[..i]))
  {
    RunInv(n, 0, cs, ms, universe, i);
    RunComplete(n, cs, ms, universe, i);
    RunFinds(n, 0, cs, ms, universe, i);
    forall w | 0 <= w < n ensures cs[i].ws[w].h.rows == [] { IdleIsOver(cs[i], universe, w); }
    EmptyKeys(cs[i].ws);
  }

  lemma {:induction false} EmptyKeys(ws: seq<Worker>)
    requires forall w :: 0 <= w < |ws| ==> ws[w].h.rows == []
    ensures SysKeys(ws) == multiset{}
    decreases |ws|
  {
    if ws != [] { EmptyKeys(ws[..|ws| - 1]); }
  }
}
