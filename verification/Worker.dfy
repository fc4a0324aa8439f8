/** worker.c as statements: the handoff loop and lm_worker_wait, each shown to
    take the step the protocol allows. */
module Workers {
  import opened Frontiers
  import opened Handoffs
  import opened Conserves

  /** The fields of metha_t and of its workers that the protocol shares. */
  class Metha {
    var ws: seq<Worker>
    var wq: seq<nat>
    var num: nat
    var idle: bool
    var cache: set<seq<int>>
    var crawled: multiset<seq<int>>
    const limit: nat

    function Now(): Crew
      reads this
    {
      Crew(ws, wq, num, cache, crawled, idle, limit)
    }

    constructor (n: nat, limit: nat)
      ensures Now() == Begin(n, limit)
    {
      ws, wq := Begin(n, limit).ws, Begin(n, limit).wq;
      num, idle, cache, crawled, this.limit := 0, false, {}, multiset{}, limit;
    }

    /** The inner loop of the handoff: y counts from lo up to hi. */
    method GiveUrls(g: nat, t: nat, lo: int, hi: int)
      requires g < |ws| && t < |ws| && g != t && ws[g].h.rows != [] && lo <= hi
      modifies this`ws
      ensures ws == Give(old(ws), g, t, hi - lo)
    {
      var gh, th := ws[g].h, ws[t].h;
      var rows := th.rows;
      if |rows| == 0 {
        rows := [[]];
      }
      var source, target := Top(gh.rows), Top(rows);
      var y := lo;
      while y < hi
        invariant lo <= y <= hi && ws == old(ws)
        invariant Move(source, target, hi - y) == Move(Top(gh.rows), Top(rows), hi - lo)
      {
        var s;
        source, s := UlistPop(source);
        if s.Some? {
          target := target + [s.value];
        }
        y := y + 1;
      }
      ws := ws[g := ws[g].(h := gh.(rows := SetTop(gh.rows, source)))]
              [t := ws[t].(message := CONTINUE, h := Handle(SetTop(rows, target), gh.depth))];
    }

    /** One turn of the handoff loop: worker x of the queue. */
    method OfferTo(g: nat, x: nat, perWorker: int, ghost c: Crew, ghost n: nat)
      requires Sharing(c, g, x, n, ws, num) && wq == c.wq && x < n && n - x <= num
      modifies this`ws, this`num
      ensures Sharing(c, g, x + 1, n, ws, num) && n - (x + 1) <= num
    {
      var curr := wq[x];
      ShareUnroll2(ws, wq, num, g, x, n);
      if ws[curr].state == WAITING {
        Portion(x, perWorker);
        GiveUrls(g, curr, x * perWorker, x * (perWorker + 1));
        num := num - 1;
      }
    }

    /** The handoff section of lm_worker_main, once both locks are held. */
    method HandOff(g: nat)
      requires QueueOk(Now()) && g < |ws| && ws[g].pc == AtShare && ws[g].h.rows != []
      modifies this`ws, this`num
      ensures Share(old(Now()), g, Now())
      ensures old(num < |Top(ws[g].h.rows)| && Leveled(ws[g].h)) ==> num == 0 && AllServed(old(Now()), g, ws)
    {
      ghost var c := Now();
      var n, size := num, |Top(ws[g].h.rows)|;
      if n < size {
        var perWorker := size / (num + 1);
        var x := 0;
        while x < n
          invariant 0 <= x <= n && n - x <= num && Sharing(c, g, x, n, ws, num) && wq == c.wq
          invariant idle == c.idle && cache == c.cache && crawled == c.crawled
        {
          OfferTo(g, x, perWorker, c, n);
          x := x + 1;
        }
        ShareEnds(c, g, ws, num);
      } else {
        ShareSkips(c, g);
      }
      ws := ws[g := ws[g].(pc := AtNext)];
      if Leveled(c.ws[g].h) { ShareDeals(c, g, Now()); }
    }

    /** lm_worker_wait up to pthread_cond_wait, after ue_next found nothing: the worker sleeps in
        the queue, and IDLE is notified exactly when nobody has anything left. */
    method WaitForUrls(w: nat, ghost universe: set<seq<int>>)
      requires Inv(Now(), universe) && w < |ws| && ws[w].pc == AtNext && NextUrl(ws[w].h, limit).1.None?
      modifies this
      ensures Wait(old(Now()), w, Now()) && Inv(Now(), universe)
      ensures Dormant(ws[w]) && InQueue(Now(), w)
      ensures idle <==> forall v :: 0 <= v < |ws| ==> Dormant(ws[v])
    {
      ghost var c := Now();
      AwakeNotFull(c, w);
      var h := NextUrl(ws[w].h, limit).0;
      wq := wq[num := w];
      num := num + 1;
      if num >= |ws| {
        idle := true;
      }
      ws := ws[w := Worker(Asleep, WAITING, ws[w].message, h)];
      InvWait(c, w, Now(), universe);
      IdleExactly(Now(), universe);
    }

    /** lm_worker_wait after the signal; kept is what lm_worker_sort leaves.  The worker runs on
        with those URLs, and neither the queue nor any other worker is touched. */
    method GoOn(w: nat, kept: seq<Entry>, ghost universe: set<seq<int>>)
      requires Inv(Now(), universe) && w < |ws| && ws[w].pc == Asleep && ws[w].message == CONTINUE
      requires Sorted(Top(ws[w].h.rows), kept)
      modifies this
      ensures Wake(old(Now()), w, kept, Now()) && Inv(Now(), universe)
      ensures ws[w].pc == AtNext && ws[w].state == RUNNING && ws[w].message == NONE
      ensures !InQueue(Now(), w) && Top(ws[w].h.rows) == kept && !idle
      ensures wq == old(wq) && num == old(num) && forall v :: 0 <= v < |ws| && v != w ==> ws[v] == old(ws[v])
    {
      ghost var c := Now();
      AwakeNotFull(c, w);
      var h := ws[w].h;
      ws := ws[w := Worker(AtNext, RUNNING, NONE, h.(rows := SetTop(h.rows, kept)))];
      InvWake(c, w, kept, Now(), universe);
    }
  }

  /** Worker x of the queue is offered x URLs: an uneven share. */
  lemma Portion(x: int, per: int)
    ensures x * (per + 1) - x * per == x
  {
    assert x * (per + 1) == x * per + x;
  }

  /** The rest of the share loop, from (ws, num), is the rest of the whole one. */
  ghost predicate Sharing(c: Crew, g: nat, x: nat, n: nat, ws: seq<Worker>, num: int) {
    && x <= n == c.num <= |c.wq| && g < |c.ws| == |ws|
    && c.ws[g].h.rows != [] && ws[g].h.rows != []
    && (forall i :: 0 <= i < n ==> c.wq[i] < |c.ws| && c.wq[i] != g)
    && ShareFrom(ws, c.wq, num, g, x, n) == ShareFrom(c.ws, c.wq, c.num, g, 0, n)
  }

  lemma ShareEnds(c: Crew, g: nat, ws: seq<Worker>, num: int)
    requires Sharing(c, g, c.num, c.num, ws, num) && c.ws[g].pc == AtShare && 0 <= num
    requires c.num < |Top(c.ws[g].h.rows)|
    ensures Share(c, g, c.(ws := ws[g := ws[g].(pc := AtNext)], num := num))
  {
  }

  lemma ShareSkips(c: Crew, g: nat)
    requires QueueOk(c) && g < |c.ws| && c.ws[g].pc == AtShare && c.ws[g].h.rows != []
    requires c.num >= |Top(c.ws[g].h.rows)|
    ensures Share(c, g, c.(ws := c.ws[g := c.ws[g].(pc := AtNext)]))
  {
  }

  lemma ShareUnroll2(ws: seq<Worker>, wq: seq<nat>, num: int, g: nat, x: nat, n: nat)
    requires x < n <= |wq| && g < |ws| && ws[g].h.rows != []
    requires forall i :: 0 <= i < n ==> wq[i] < |ws| && wq[i] != g
    ensures ShareFrom(ws, wq, num, g, x, n) ==
      if ws[wq[x]].state == WAITING then ShareFrom(Give(ws, g, wq[x], x), wq, num - 1, g, x + 1, n)
      else ShareFrom(ws, wq, num, g, x + 1, n)
  {}
}
