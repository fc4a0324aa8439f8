/** utable.c and the part of urlengine.c that keeps one worker's frontier: a
    stack of URL lists, with a depth counter for the list on top. */
module Frontiers {
  import opened TrieTree
  import opened Urls
  import opened MTries
  import opened Helpers

  /** URLs the cache accepts. */
  type CUrl = u: Url | u.hostO <= |u.str| <= 0xFFFF && AllPrintable(u.str[u.hostO..])
    witness Url([0x21], 0, 0, 0)

  /** A place in a list: nullified (sz == 0), or a URL together with the number
      of links followed from an initial URL to find it. */
  datatype Entry = Null | Link(url: CUrl, hops: nat)

  /** The fields of a uehandle_t that make up the frontier. */
  datatype Handle = Handle(rows: seq<seq<Entry>>, depth: nat)

  // ---- Lists -----------------------------------------------------------------

  /** lm_ulist_pop: the last entry that is not nullified; the ones passed are gone. */
  function Pop(l: seq<Entry>): (r: (seq<Entry>, Option<Entry>))
    ensures r.1.Some? ==> r.1.value.Link? && |r.0| < |l|
    ensures r.1.None? ==> r.0 == []
    ensures |r.0| <= |l| && r.0 == l[..|r.0|]
  {
    if l == [] then ([], None)
    else if l[|l| - 1].Null? then
      var r := Pop(l[..|l| - 1]);
      assert r.0 == l[..|l| - 1][..|r.0|];
      r
    else (l[..|l| - 1], Some(l[|l| - 1]))
  }

  function EntryKey(e: Entry): multiset<seq<int>> {
    if e.Link? then multiset{Key(e.url)} else multiset{}
  }

  /** The keys of the URLs in a list. */
  function Keys(l: seq<Entry>): multiset<seq<int>> {
    if l == [] then multiset{} else Keys(l[..|l| - 1]) + EntryKey(l[|l| - 1])
  }

  function LinkOf(e: Entry): multiset<Entry> {
    if e.Link? then multiset{e} else multiset{}
  }

  /** The entries of a list that are not nullified. */
  function Entries(l: seq<Entry>): multiset<Entry> {
    if l == [] then multiset{} else Entries(l[..|l| - 1]) + LinkOf(l[|l| - 1])
  }

  function KeyOf(e: Option<Entry>): multiset<seq<int>> {
    if e.Some? then EntryKey(e.value) else multiset{}
  }

  function RowsKeys(rows: seq<seq<Entry>>): multiset<seq<int>> {
    if rows == [] then multiset{} else RowsKeys(rows[..|rows| - 1]) + Keys(rows[|rows| - 1])
  }

  lemma KeysSnoc(l: seq<Entry>, e: Entry)
    ensures Keys(l + [e]) == Keys(l) + EntryKey(e)
  {
    assert (l + [e])[..|l|] == l;
  }

  lemma RowsSnoc(rows: seq<seq<Entry>>, l: seq<Entry>)
    ensures RowsKeys(rows + [l]) == RowsKeys(rows) + Keys(l)
  {
    assert (rows + [l])[..|rows|] == rows;
  }

  lemma {:induction false} PopKeys(l: seq<Entry>)
    ensures Keys(l) == Keys(Pop(l).0) + KeyOf(Pop(l).1)
    decreases |l|
  {
    if l != [] && l[|l| - 1].Null? { PopKeys(l[..|l| - 1]); }
  }

  // ---- The stack -----------------------------------------------------------------

  /** lm_utable_dec; on an empty table it fails and changes nothing. */
  function Dec(rows: seq<seq<Entry>>): seq<seq<Entry>> {
    if rows == [] then [] else rows[..|rows| - 1]
  }

  function Top(rows: seq<seq<Entry>>): seq<Entry>
    requires rows != []
  {
    rows[|rows| - 1]
  }

  /** The table after a pop from its top list, with a new list on top. */
  function Descend(rows: seq<seq<Entry>>, rest: seq<Entry>): (r: seq<seq<Entry>>)
    requires rows != []
    ensures |r| == |rows| + 1 && Top(r) == []
  {
    Dec(rows) + [rest] + [[]]
  }

  /** Lists at or beyond the depth limit are dropped; limit 0 is no limit. */
  function Trim(h: Handle, limit: nat): (r: Handle)
    ensures limit > 0 ==> r.depth < limit
    ensures |r.rows| <= |h.rows| && r.rows == h.rows[..|r.rows|]
    ensures limit == 0 ==> r == h
    decreases h.depth
  {
    if limit > 0 && h.depth >= limit then
      var h' := Handle(Dec(h.rows), h.depth - 1);
      var r := Trim(h', limit);
      assert r.rows == h'.rows[..|r.rows|];
      r
    else h
  }

  /** The search for a URL down the stack, and the new list for what it links to. */
  function Seek(h: Handle): (r: (Handle, Option<Entry>))
    ensures r.1.Some? ==> r.1.value.Link? && r.0.depth > 0
    ensures r.1.None? ==> r.0.rows == []
    ensures r.1.Some? ==> 2 <= |r.0.rows| && Top(r.0.rows) == []
    decreases |h.rows|
  {
    if h.rows == [] then (h, None)
    else
      var init, p := Dec(h.rows), Pop(Top(h.rows));
      if p.1.Some? then (Handle(Descend(h.rows, p.0), h.depth + 1), p.1)
      else if init == [] then (Handle([], h.depth), None)
      else Seek(Handle(init, if h.depth == 0 then 0 else h.depth - 1))
  }

  /** ue_next: the URL to visit, or none when the frontier is empty. */
  function NextUrl(h: Handle, limit: nat): (r: (Handle, Option<Entry>))
    ensures r.1.Some? ==> r.1.value.Link? && r.0.depth > 0 && 2 <= |r.0.rows| && Top(r.0.rows) == []
    ensures r.1.None? ==> r.0.rows == []
  {
    Seek(Trim(h, limit))
  }

  /** The top list with the new URLs of the list appended, each entered in the cache. */
  function AddLinks(top: seq<Entry>, cache: set<seq<int>>, links: seq<CUrl>, hops: nat): (r: (seq<Entry>, set<seq<int>>)) {
    if links == [] then (top, cache)
    else
      var (t, c) := AddLinks(top, cache, links[..|links| - 1], hops);
      var u := links[|links| - 1];
      if Key(u) in c then (t, c) else (t + [Link(u, hops)], c + {Key(u)})
  }

  // ---- Depth ------------------------------------------------------------------

  /** Row r holds URLs found depth - (sz-1-r) links away from an initial one. */
  ghost predicate Leveled(h: Handle) {
    forall z {:trigger UnfoldLevels(z)} :: UnfoldLevels(z) ==> RowsLeveled(h)
  }

  /** True of everything; a mention of it unfolds Leveled. */
  predicate UnfoldLevels(z: int) { true }

  predicate RowsLeveled(h: Handle) {
    && h.depth + 1 >= |h.rows|
    && forall r, i :: 0 <= r < |h.rows| && 0 <= i < |h.rows[r]| && h.rows[r][i].Link? ==>
         h.rows[r][i].hops == h.depth + 1 + r - |h.rows|
  }

  lemma {:induction false} TrimLeveled(h: Handle, limit: nat)
    requires Leveled(h)
    ensures Leveled(Trim(h, limit))
    decreases h.depth
  {
    if limit > 0 && h.depth >= limit {
      assert UnfoldLevels(0);
      TrimLeveled(Handle(Dec(h.rows), h.depth - 1), limit);
    }
  }

  lemma {:induction false} SeekLeveled(h: Handle)
    requires Leveled(h)
    ensures Leveled(Seek(h).0)
    ensures Seek(h).1.Some? ==> Seek(h).1.value.hops + 1 == Seek(h).0.depth && Seek(h).1.value.hops <= h.depth
    decreases |h.rows|
  {
    assert UnfoldLevels(0);
    if h.rows != [] {
      var init, l := Dec(h.rows), Top(h.rows);
      var p := Pop(l);
      if p.1.Some? {
        PopMember(l);
      } else if init != [] {
        SeekLeveled(Handle(init, if h.depth == 0 then 0 else h.depth - 1));
      }
    }
  }

  lemma {:induction false} PopMember(l: seq<Entry>)
    requires Pop(l).1.Some?
    ensures Pop(l).1.value in l
    decreases |l|
  {
    if l[|l| - 1].Null? { PopMember(l[..|l| - 1]); }
  }

  /** With a limit, ue_next never returns a URL more than limit-1 links away. */
  lemma DepthLimit(h: Handle, limit: nat)
    requires Leveled(h)
    ensures Leveled(NextUrl(h, limit).0)
    ensures NextUrl(h, limit).1.Some? ==>
      var e := NextUrl(h, limit).1.value;
      e.hops + 1 == NextUrl(h, limit).0.depth && (limit > 0 ==> e.hops <= limit - 1)
  {
    TrimLeveled(h, limit);
    SeekLeveled(Trim(h, limit));
  }

  // ---- Which URL is next --------------------------------------------------------

  predicate AllNull(l: seq<Entry>) { forall i :: 0 <= i < |l| ==> l[i].Null? }

  /** rest and e are what popping l gives: the last entry that is not nullified, and what was
      before it; or nothing, if every entry is nullified. */
  predicate PopsLast(l: seq<Entry>, rest: seq<Entry>, e: Option<Entry>) {
    match e
    case Some(v) => |rest| < |l| && rest == l[..|rest|] && v == l[|rest|] && v.Link? && AllNull(l[|rest| + 1..])
    case None => rest == [] && AllNull(l)
  }

  lemma {:induction false} PopLast(l: seq<Entry>)
    ensures PopsLast(l, Pop(l).0, Pop(l).1)
    decreases |l|
  {
    if l != [] && l[|l| - 1].Null? {
      var init, n := l[..|l| - 1], |Pop(l).0|;
      PopLast(init);
      if Pop(l).1.Some? {
        assert l[n + 1..] == init[n + 1..] + [Null];
      } else {
        assert l == init + [Null];
      }
    }
  }

  /** How many links away the URLs in row i were found. */
  function Level(h: Handle, i: nat): int { h.depth + 1 + i - |h.rows| }

  /** The limit does not forbid to visit the URLs in row i. */
  predicate Within(h: Handle, limit: nat, i: nat) { limit == 0 || Level(h, i) < limit }

  lemma {:induction false} TrimKeeps(h: Handle, limit: nat)
    requires |h.rows| <= h.depth + 1
    ensures var r := Trim(h, limit);
      && |r.rows| <= |h.rows| && (forall i :: 0 <= i < |h.rows| ==> (i < |r.rows| <==> Within(h, limit, i)))
      && (forall i :: 0 <= i < |r.rows| ==> r.rows[i] == h.rows[i] && Level(r, i) == Level(h, i))
      && |r.rows| <= r.depth + 1
    decreases h.depth
  {
    if limit > 0 && h.depth >= limit {
      var h' := Handle(Dec(h.rows), h.depth - 1);
      TrimKeeps(h', limit);
      assert forall i :: 0 <= i < |h'.rows| ==> Within(h', limit, i) == Within(h, limit, i);
    }
  }

  /** r is h with the URL e taken from row k, where it was the last; the rows from k+1 up to n
      hold none, and in their place there is an empty one. */
  predicate TakesFrom(h: Handle, n: nat, k: nat, r: Handle, e: Entry) {
    && k < n <= |h.rows| && |r.rows| == k + 2 && r.rows[..k] == h.rows[..k]
    && PopsLast(h.rows[k], r.rows[k], Some(e)) && r.rows[k + 1] == []
    && (forall i :: k < i < n ==> AllNull(h.rows[i]))
    && r.depth == Level(h, k) + 1
  }

  lemma {:induction false} SeekTakes(h: Handle)
    requires |h.rows| <= h.depth + 1
    ensures var (r, e) := Seek(h);
      match e
      case Some(v) => TakesFrom(h, |h.rows|, |r.rows| - 2, r, v)
      case None => r.rows == [] && forall i :: 0 <= i < |h.rows| ==> AllNull(h.rows[i])
    decreases |h.rows|
  {
    if h.rows != [] {
      PopLast(Top(h.rows));
      if Pop(Top(h.rows)).1.None? && Dec(h.rows) != [] {
        SeekTakes(Handle(Dec(h.rows), h.depth - 1));
      }
    }
  }

  /** ue_next takes the last URL of the highest list that the limit allows and that has one, and
      finds none only if those lists have none. */
  lemma NextTakes(h: Handle, limit: nat) returns (n: nat)
    requires |h.rows| <= h.depth + 1
    ensures n <= |h.rows| && forall i :: 0 <= i < |h.rows| ==> (i < n <==> Within(h, limit, i))
    ensures var (r, e) := NextUrl(h, limit);
      match e
      case Some(v) => TakesFrom(h, n, |r.rows| - 2, r, v)
      case None => r.rows == [] && forall i :: 0 <= i < n ==> AllNull(h.rows[i])
  {
    var t := Trim(h, limit);
    TrimKeeps(h, limit);
    SeekTakes(t);
    n := |t.rows|;
    assert forall i :: 0 <= i < n ==> t.rows[i] == h.rows[i] && Level(t, i) == Level(h, i);
  }

  // ---- Keys ---------------------------------------------------------------------

  lemma {:induction false} RowsPrefix(rows: seq<seq<Entry>>, n: nat)
    requires n <= |rows|
    ensures RowsKeys(rows[..n]) <= RowsKeys(rows)
    decreases |rows|
  {
    if n < |rows| {
      RowsPrefix(rows[..|rows| - 1], n);
      assert rows[..|rows| - 1][..n] == rows[..n];
    } else {
      assert rows[..n] == rows;
    }
  }

  lemma RowsTop(rows: seq<seq<Entry>>)
    requires rows != []
    ensures RowsKeys(rows) == RowsKeys(Dec(rows)) + Keys(Top(rows))
  {}

  lemma DescendKeys(rows: seq<seq<Entry>>)
    requires rows != []
    ensures RowsKeys(rows) == RowsKeys(Descend(rows, Pop(Top(rows)).0)) + KeyOf(Pop(Top(rows)).1)
  {
    var rest := Pop(Top(rows)).0;
    PopKeys(Top(rows));
    RowsSnoc(Dec(rows), rest);
    RowsSnoc(Dec(rows) + [rest], []);
  }

  lemma NoneTop(rows: seq<seq<Entry>>)
    requires rows != [] && Pop(Top(rows)).1.None?
    ensures RowsKeys(rows) == RowsKeys(Dec(rows))
  {
    PopKeys(Top(rows));
    RowsTop(rows);
    assert Keys(Top(rows)) == multiset{};
  }

  lemma {:induction false} SeekKeys(h: Handle)
    ensures RowsKeys(h.rows) == RowsKeys(Seek(h).0.rows) + KeyOf(Seek(h).1)
    decreases |h.rows|
  {
    if h.rows != [] {
      if Pop(Top(h.rows)).1.Some? {
        DescendKeys(h.rows);
      } else {
        NoneTop(h.rows);
        if Dec(h.rows) != [] {
          SeekKeys(Handle(Dec(h.rows), if h.depth == 0 then 0 else h.depth - 1));
        }
      }
    }
  }

  /** What ue_next returns leaves the frontier, and nothing enters it. */
  lemma NextKeys(h: Handle, limit: nat)
    ensures var r := NextUrl(h, limit);
      RowsKeys(r.0.rows) + KeyOf(r.1) <= RowsKeys(h.rows)
    ensures limit == 0 ==> var r := NextUrl(h, limit);
      RowsKeys(r.0.rows) + KeyOf(r.1) == RowsKeys(h.rows)
  {
    SeekKeys(Trim(h, limit));
    RowsPrefix(h.rows, |Trim(h, limit).rows|);
  }

  /** New links bring exactly the keys that were not cached, each once. */
  lemma {:induction false} AddLinksKeys(top: seq<Entry>, cache: set<seq<int>>, links: seq<CUrl>, hops: nat, universe: set<seq<int>>)
    requires forall i :: 0 <= i < |links| ==> Key(links[i]) in universe
    ensures var (t, c) := AddLinks(top, cache, links, hops);
      cache <= c <= cache + universe && Keys(t) == Keys(top) + multiset(c - cache)
    decreases |links|
  {
    if links != [] {
      var init, u := links[..|links| - 1], links[|links| - 1];
      AddLinksKeys(top, cache, init, hops, universe);
      var (t, c) := AddLinks(top, cache, init, hops);
      if Key(u) !in c {
        KeysSnoc(t, Link(u, hops));
        assert c + {Key(u)} - cache == (c - cache) + {Key(u)};
        assert multiset((c - cache) + {Key(u)}) == multiset(c - cache) + multiset{Key(u)};
      }
    }
  }

  /** New links are put after what the list holds, at the given depth. */
  lemma {:induction false} AddLinksLevel(top: seq<Entry>, cache: set<seq<int>>, links: seq<CUrl>, hops: nat)
    ensures var t := AddLinks(top, cache, links, hops).0;
      && |top| <= |t| && t[..|top|] == top
      && forall i :: |top| <= i < |t| ==> t[i].Link? && t[i].hops == hops
    decreases |links|
  {
    if links != [] { AddLinksLevel(top, cache, links[..|links| - 1], hops); }
  }

  /** The keys of some URLs. */
  function KeySet(links: seq<CUrl>): set<seq<int>> {
    set i | 0 <= i < |links| :: Key(links[i])
  }

  /** Link i is the first of its key in the list, and that key is not cached. */
  predicate New(cache: set<seq<int>>, links: seq<CUrl>, i: nat)
    requires i < |links|
  {
    Key(links[i]) !in cache && forall j :: 0 <= j < i ==> Key(links[j]) != Key(links[i])
  }

  /** The entries of t from n on are the new ones of the first m links, in order; at says which. */
  ghost predicate Listed(t: seq<Entry>, n: nat, cache: set<seq<int>>, links: seq<CUrl>, m: nat, hops: nat, at: seq<nat>) {
    && m <= |links| && |t| == n + |at|
    && (forall k :: 0 <= k < |at| ==> at[k] < m && t[n + k] == Link(links[at[k]], hops))
    && (forall j, k :: 0 <= j < k < |at| ==> at[j] < at[k])
    && forall i :: 0 <= i < m ==> (i in at <==> New(cache, links, i))
  }

  lemma KeySetSnoc(cache: set<seq<int>>, links: seq<CUrl>, m: nat)
    requires m < |links|
    ensures KeySet(links[..m + 1]) == KeySet(links[..m]) + {Key(links[m])}
    ensures New(cache, links, m) <==> Key(links[m]) !in cache + KeySet(links[..m])
  {
    var a, b := links[..m + 1], links[..m];
    assert forall i :: 0 <= i < m ==> a[i] == b[i] == links[i];
    forall i | 0 <= i < m ensures Key(links[i]) in KeySet(a) && Key(links[i]) in KeySet(b) {
      assert Key(a[i]) in KeySet(a) && Key(b[i]) in KeySet(b);
    }
    assert Key(a[m]) in KeySet(a);
  }

  lemma ListedMore(t: seq<Entry>, n: nat, cache: set<seq<int>>, links: seq<CUrl>, m: nat, hops: nat, at: seq<nat>)
    requires m < |links| && Listed(t, n, cache, links, m, hops, at)
    ensures New(cache, links, m) ==> Listed(t + [Link(links[m], hops)], n, cache, links, m + 1, hops, at + [m])
    ensures !New(cache, links, m) ==> Listed(t, n, cache, links, m + 1, hops, at)
  {
  }

  lemma {:induction false} AddFirst(top: seq<Entry>, cache: set<seq<int>>, links: seq<CUrl>, m: nat, hops: nat)
      returns (at: seq<nat>)
    requires m <= |links|
    ensures var (t, c) := AddLinks(top, cache, links[..m], hops);
      c == cache + KeySet(links[..m]) && top <= t && Listed(t, |top|, cache, links, m, hops, at)
    decreases m
  {
    if m == 0 {
      at := [];
    } else {
      at := AddFirst(top, cache, links, m - 1, hops);
      var (t, c) := AddLinks(top, cache, links[..m - 1], hops);
      assert links[..m][..m - 1] == links[..m - 1];
      KeySetSnoc(cache, links, m - 1);
      ListedMore(t, |top|, cache, links, m - 1, hops, at);
      if New(cache, links, m - 1) {
        at := at + [m - 1];
      }
    }
  }

  /** The links of a page enter the cache, all of them, and those not cached before enter the
      list, one for each key, in the page's order. */
  lemma AddLinksNew(top: seq<Entry>, cache: set<seq<int>>, links: seq<CUrl>, hops: nat)
      returns (at: seq<nat>)
    ensures var (t, c) := AddLinks(top, cache, links, hops);
      c == cache + KeySet(links) && top <= t && Listed(t, |top|, cache, links, |links|, hops, at)
  {
    at := AddFirst(top, cache, links, |links|, hops);
    assert links[..|links|] == links;
  }

  // ---- The worker's own handle -------------------------------------------------------

  /** lm_ulist_pop as a loop over one list. */
  method UlistPop(ul: seq<Entry>) returns (rest: seq<Entry>, url: Option<Entry>)
    ensures (rest, url) == Pop(ul) && PopsLast(ul, rest, url)
  {
    PopLast(ul);
    rest, url := ul, None;
    while |rest| != 0
      invariant Pop(rest) == Pop(ul)
      decreases |rest|
    {
      var e := rest[|rest| - 1];
      rest := rest[..|rest| - 1];
      if e != Null {
        return rest, Some(e);
      }
    }
  }

  class UeHandle {
    var rows: seq<seq<Entry>>
    var depth: nat
    var limit: nat

    function H(): Handle
      reads this
    {
      Handle(rows, depth)
    }

    /** ue_handle_obtain: one empty list, depth 0. */
    constructor (limit: nat)
      ensures H() == Handle([[]], 0) && this.limit == limit
    {
      rows, depth, this.limit := [[]], 0, limit;
    }

    method UtableDec() returns (ok: bool)
      modifies this`rows
      ensures rows == Dec(old(rows)) && (ok <==> old(rows) != [])
    {
      if |rows| == 0 {
        return false;
      }
      rows := rows[..|rows| - 1];
      return true;
    }

    /** The first loop of ue_next: drop lists at or beyond the depth limit. */
    method DropDeep()
      modifies this`rows, this`depth
      ensures H() == Trim(old(H()), limit)
    {
      if limit != 0 {
        while depth >= limit
          invariant Trim(H(), limit) == Trim(old(H()), limit)
          decreases depth
        {
          var _ := UtableDec();
          depth := depth - 1;
        }
      }
    }

    /** The second loop of ue_next: pop from the top list, or go down to the next. */
    method FindUrl() returns (url: Option<Entry>)
      modifies this`rows, this`depth
      ensures (H(), url) == Seek(old(H()))
    {
      while |rows| != 0
        invariant Seek(H()) == Seek(old(H()))
        decreases |rows|
      {
        var rest;
        ghost var h := H();
        rest, url := UlistPop(Top(rows));
        if url.Some? {
          rows := Descend(rows, rest);
          depth := depth + 1;
          return;
        }
        var _ := UtableDec();
        if |rows| == 0 {
          return None;
        }
        if depth != 0 {
          depth := depth - 1;
        }
        assert Seek(h) == Seek(H());
      }
      return None;
    }

    /** ue_next. */
    method Next() returns (url: Option<Entry>)
      modifies this`rows, this`depth
      ensures (H(), url) == NextUrl(old(H()), limit)
    {
      DropDeep();
      url := FindUrl();
    }

    /** ue_add, for a URL of the current host: put on the top list unless cached. */
    method Add(cache: MTrie, url: CUrl, hops: nat) returns (ok: bool)
      requires cache.Valid()
      modifies this`rows, cache
      ensures cache.Valid()
      ensures old(rows) == [] ==> !ok && rows == [] && cache.keys == old(cache.keys)
      ensures old(rows) != [] ==>
        var (t, c) := AddLinks(old(rows)[|old(rows)| - 1], old(cache.keys), [url], hops);
        && rows == old(rows)[|old(rows)| - 1 := t] && cache.keys == c
        && (ok <==> Key(url) !in old(cache.keys))
    {
      if |rows| == 0 {
        return false;
      }
      AddOne(rows[|rows| - 1], cache.keys, url, hops);
      var top := rows[|rows| - 1] + [Link(url, hops)];
      ok := cache.TryAdd(url);
      if !ok {
        top := top[..|top| - 1];
      }
      rows := rows[|rows| - 1 := top];
    }

    /** ue_revert: undo the last depth increase and add where the URL came from. */
    method Revert(cache: MTrie, url: CUrl, hops: nat) returns (ok: bool)
      requires cache.Valid() && depth > 0
      modifies this`rows, this`depth, cache
      ensures cache.Valid() && depth == old(depth) - 1
      ensures Dec(old(rows)) == [] ==> rows == [] && cache.keys == old(cache.keys)
      ensures Dec(old(rows)) != [] ==>
        var r := Dec(old(rows));
        var (t, c) := AddLinks(r[|r| - 1], old(cache.keys), [url], hops);
        rows == r[|r| - 1 := t] && cache.keys == c
    {
      depth := depth - 1;
      var _ := UtableDec();
      ok := Add(cache, url, hops);
    }
  }

  lemma AddOne(top: seq<Entry>, cache: set<seq<int>>, url: CUrl, hops: nat)
    ensures AddLinks(top, cache, [url], hops) ==
      if Key(url) in cache then (top, cache) else (top + [Link(url, hops)], cache + {Key(url)})
  {
    assert [url][..0] == [];
  }
}
