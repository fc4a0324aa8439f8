/** lm_worker_sort: discard the URLs of a list that match no file type, asking
    the server by HEAD requests where the URL alone does not tell. */
module WorkerSorts {
  import opened Frontiers

  /** What the URL alone tells: bound to a file type, discarded, or a HEAD
      request is sent and the reply decides. */
  datatype First = Bind | Discard | Ask

  /** The file types' verdicts: by the URL, and by the reply to the request that was sent with
      an index; two requests for one URL may be answered differently. */
  datatype Oracle = Oracle(first: Entry -> First, reply: nat -> bool)

  function Kept(o: Oracle, e: Entry): multiset<Entry> {
    if o.first(e).Discard? then multiset{} else multiset{e}
  }

  /** The entries of a list that the URL alone does not discard. */
  function Wanted(o: Oracle, l: seq<Entry>): multiset<Entry> {
    if l == [] then multiset{} else Wanted(o, l[..|l| - 1]) + Kept(o, l[|l| - 1])
  }

  predicate Refused(o: Oracle, l: seq<Entry>, i: nat)
    requires i < |l|
  {
    o.first(l[i]).Ask? && !o.reply(i)
  }

  /** The list with every entry nullified whose request had a negative reply. */
  function Answered(o: Oracle, l: seq<Entry>): (r: seq<Entry>)
    ensures |r| == |l|
  {
    seq(|l|, i requires 0 <= i < |l| => if Refused(o, l, i) then Null else l[i])
  }

  /** The list with place x taken over by its last entry. */
  function SwapOut(l: seq<Entry>, x: nat): seq<Entry>
    requires x < |l|
  {
    l[x := l[|l| - 1]][..|l| - 1]
  }

  lemma SwapOutAt(l: seq<Entry>, x: nat)
    requires x < |l|
    ensures |SwapOut(l, x)| == |l| - 1
    ensures forall i :: 0 <= i < |l| - 1 ==> SwapOut(l, x)[i] == if i == x then l[|l| - 1] else l[i]
  {}

  lemma SwapOutAll(l: seq<Entry>, x: nat)
    requires x < |l|
    ensures multiset(SwapOut(l, x)) + multiset{l[x]} == multiset(l)
  {
    var last := l[|l| - 1];
    var m := l[x := last];
    assert multiset(m) == multiset(l) - multiset{l[x]} + multiset{last};
    assert m == SwapOut(l, x) + [last];
    assert multiset(m) == multiset(SwapOut(l, x)) + multiset{last};
    assert l[x] in multiset(l);
    forall e ensures (multiset(SwapOut(l, x)) + multiset{l[x]})[e] == multiset(l)[e] {
      assert multiset(m)[e] == (multiset(l) - multiset{l[x]} + multiset{last})[e];
    }
  }

  lemma {:induction false} WantedCount(o: Oracle, l: seq<Entry>, e: Entry)
    ensures Wanted(o, l)[e] == if o.first(e).Discard? then 0 else multiset(l)[e]
    decreases |l|
  {
    if l != [] {
      WantedCount(o, l[..|l| - 1], e);
      assert l == l[..|l| - 1] + [l[|l| - 1]];
    }
  }

  lemma {:induction false} LinksCount(l: seq<Entry>, e: Entry)
    ensures Entries(l)[e] == if e.Null? then 0 else multiset(l)[e]
    decreases |l|
  {
    if l != [] {
      LinksCount(l[..|l| - 1], e);
      assert l == l[..|l| - 1] + [l[|l| - 1]];
    }
  }

  /** What is wanted depends only on which entries there are. */
  lemma WantedSwapOut(o: Oracle, l: seq<Entry>, x: nat)
    requires x < |l| && o.first(l[x]).Discard?
    ensures Wanted(o, SwapOut(l, x)) == Wanted(o, l)
  {
    SwapOutAll(l, x);
    forall e ensures Wanted(o, SwapOut(l, x))[e] == Wanted(o, l)[e] {
      WantedCount(o, SwapOut(l, x), e);
      WantedCount(o, l, e);
      assert (multiset(SwapOut(l, x)) + multiset{l[x]})[e] == multiset(l)[e];
    }
  }

  lemma LinksSwapOut(l: seq<Entry>, x: nat)
    requires x < |l| && l[x].Null?
    ensures Entries(SwapOut(l, x)) == Entries(l)
  {
    SwapOutAll(l, x);
    forall e ensures Entries(SwapOut(l, x))[e] == Entries(l)[e] {
      LinksCount(SwapOut(l, x), e);
      LinksCount(l, e);
      assert (multiset(SwapOut(l, x)) + multiset{l[x]})[e] == multiset(l)[e];
    }
  }

  lemma AllWanted(o: Oracle, l: seq<Entry>)
    requires forall i :: 0 <= i < |l| ==> !o.first(l[i]).Discard?
    ensures Wanted(o, l) == multiset(l)
  {
    forall e ensures Wanted(o, l)[e] == multiset(l)[e] { WantedCount(o, l, e); }
  }

  lemma WantedSubset(o: Oracle, l: seq<Entry>)
    ensures Wanted(o, l) <= multiset(l)
  {
    forall e ensures Wanted(o, l)[e] <= multiset(l)[e] { WantedCount(o, l, e); }
  }

  lemma AllLinks(l: seq<Entry>)
    requires NoNull(l, |l|)
    ensures Entries(l) == multiset(l)
  {
    forall e ensures Entries(l)[e] == multiset(l)[e] { LinksCount(l, e); }
  }

  lemma SameLinks(l: seq<Entry>, row: seq<Entry>)
    requires multiset(row) == Entries(l)
    ensures forall e: Entry :: e.Link? ==> multiset(row)[e] == multiset(l)[e]
  {
    forall e: Entry | e.Link? ensures multiset(row)[e] == multiset(l)[e] {
      LinksCount(l, e);
    }
  }

  predicate NoNull(l: seq<Entry>, n: nat)
    requires n <= |l|
  {
    forall i :: 0 <= i < n ==> l[i].Link?
  }

  /** The first n entries are bound or asked about, and each request names its URL by index. */
  predicate Sifted(o: Oracle, l: seq<Entry>, n: nat, asked: map<nat, Entry>) {
    && n <= |l|
    && (forall i :: i in asked ==> i < n && asked[i] == l[i])
    && (forall i: nat :: i < n ==> !o.first(l[i]).Discard? && (i in asked <==> o.first(l[i]).Ask?))
  }

  lemma SiftedDrop(o: Oracle, l: seq<Entry>, x: nat, asked: map<nat, Entry>)
    requires Sifted(o, l, x, asked) && x < |l|
    ensures Sifted(o, SwapOut(l, x), x, asked)
  {
    SwapOutAt(l, x);
  }

  lemma SiftedNext(o: Oracle, l: seq<Entry>, x: nat, asked: map<nat, Entry>)
    requires Sifted(o, l, x, asked) && x < |l| && !o.first(l[x]).Discard?
    ensures Sifted(o, l, x + 1, if o.first(l[x]).Ask? then asked[x := l[x]] else asked)
  {
  }

  /** Part of the replies have come in; the indices without one still name their URLs. */
  ghost predicate Replying(o: Oracle, l: seq<Entry>, sent: seq<Entry>, asked: map<nat, Entry>, pending: set<nat>) {
    && |l| == |sent| && Sifted(o, sent, |sent|, asked) && pending <= asked.Keys
    && (forall i: nat :: i in pending ==> i < |l| && l[i] == asked[i])
    && (forall i: nat :: i < |l| && i !in pending ==> l[i] == if Refused(o, sent, i) then Null else sent[i])
  }

  lemma Replied(o: Oracle, l: seq<Entry>, sent: seq<Entry>, asked: map<nat, Entry>, pending: set<nat>, i: nat)
    requires Replying(o, l, sent, asked, pending) && i in pending
    ensures Replying(o, if o.reply(i) then l else l[i := Null], sent, asked, pending - {i})
  {
  }

  lemma AllReplied(o: Oracle, l: seq<Entry>, sent: seq<Entry>, asked: map<nat, Entry>)
    requires Replying(o, l, sent, asked, {})
    ensures l == Answered(o, sent)
  {
    assert forall i :: 0 <= i < |l| ==> l[i] == Answered(o, sent)[i];
  }

  /** struct ulist, with the entries below sz. */
  class UList {
    var row: seq<Entry>

    constructor (l: seq<Entry>)
      ensures row == l
    {
      row := l;
    }

    /** lm_url_swap with the top entry, and lm_ulist_dec. */
    method SwapTop(x: nat)
      requires x < |row|
      modifies this
      ensures row == SwapOut(old(row), x)
    {
      var top := row[|row| - 1];
      row := row[x := top];
      row := row[..|row| - 1];
    }

    /** The first loop: bind, ask, or discard by the URL alone.  The index given
        with a HEAD request goes on naming the URL asked about. */
    method ByUrl(o: Oracle) returns (asked: map<nat, Entry>)
      modifies this
      ensures multiset(row) == Wanted(o, old(row)) && Sifted(o, row, |row|, asked)
      ensures forall e :: multiset(row)[e] == if o.first(e).Discard? then 0 else old(multiset(row))[e]
    {
      asked := map[];
      var x := 0;
      while x < |row|
        invariant 0 <= x <= |row| && Sifted(o, row, x, asked)
        invariant Wanted(o, row) == Wanted(o, old(row))
        decreases |row| - x
      {
        var url := row[x];
        if !o.first(url).Discard? {
          SiftedNext(o, row, x, asked);
        }
        match o.first(url) {
          case Bind =>
            x := x + 1;
          case Ask =>
            asked := asked[x := url];
            x := x + 1;
          case Discard =>
            WantedSwapOut(o, row, x);
            SiftedDrop(o, row, x, asked);
            SwapTop(x);
        }
      }
      AllWanted(o, row);
      forall e ensures multiset(row)[e] == if o.first(e).Discard? then 0 else old(multiset(row))[e] {
        WantedCount(o, old(row), e);
      }
    }

    /** The replies, in whatever order they arrive: the entry a reply's index
        names is nullified unless the type is wanted. */
    method ByReply(o: Oracle, asked: map<nat, Entry>)
      requires Sifted(o, row, |row|, asked)
      modifies this
      ensures row == Answered(o, old(row)) && |row| == |old(row)|
      ensures forall i :: 0 <= i < |row| ==>
        row[i] == if o.first(old(row)[i]).Ask? && !o.reply(i) then Null else old(row)[i]
    {
      ghost var sent := row;
      var pending := asked.Keys;
      while pending != {}
        invariant Replying(o, row, sent, asked, pending)
        decreases pending
      {
        var identifier :| identifier in pending;
        Replied(o, row, sent, asked, pending, identifier);
        if !o.reply(identifier) {
          row := row[identifier := Null];
        }
        pending := pending - {identifier};
      }
      AllReplied(o, row, sent, asked);
    }

    /** Trailing nullified URLs are cut off. */
    method CutTail()
      modifies this
      ensures Entries(row) == Entries(old(row))
    {
      while |row| > 0 && row[|row| - 1] == Null
        invariant Entries(row) == Entries(old(row))
        decreases |row|
      {
        row := row[..|row| - 1];
      }
    }

    /** The others give way to the entry on top. */
    method SwapNulls()
      modifies this
      ensures Entries(row) == Entries(old(row)) && NoNull(row, |row|)
    {
      var x := 0;
      while x < |row|
        invariant 0 <= x <= |row| && NoNull(row, x) && Entries(row) == Entries(old(row))
        decreases |row| - x
      {
        if row[x] == Null {
          LinksSwapOut(row, x);
          SwapOutAt(row, x);
          SwapTop(x);
        } else {
          x := x + 1;
        }
      }
    }

    /** The last part: exactly the nullified URLs leave the list. */
    method DropNull()
      modifies this
      ensures multiset(row) == Entries(old(row)) && NoNull(row, |row|)
      ensures forall e: Entry :: e.Link? ==> multiset(row)[e] == old(multiset(row))[e]
    {
      CutTail();
      SwapNulls();
      AllLinks(row);
      SameLinks(old(row), row);
    }

    /** lm_worker_sort: requests go out for a list `sent` of the entries not discarded.  If there
        is one, what is left is exactly the URLs that were bound or had a positive reply to their
        own request, whatever order the replies came in; empty entries, which a refused initial
        URL leaves behind, go too.  When the replies depend on the URL alone, as `verdict` says,
        each URL with a positive verdict stays as often as it was listed and no other does. */
    method Sort(o: Oracle, ghost verdict: Entry -> bool) returns (ghost sent: seq<Entry>)
      modifies this
      ensures forall e :: multiset(sent)[e] == if o.first(e).Discard? then 0 else old(multiset(row))[e]
      ensures if Asks(o, sent) then LeftOf(o, sent, row) else row == sent
      ensures NoNull(old(row), |old(row)|) ==> NoNull(row, |row|)
      ensures multiset(row) <= multiset(old(row))
      ensures ByVerdict(o, verdict, sent) ==>
        forall e: Entry :: e.Link? ==> multiset(row)[e] == if Positive(o, verdict, e) then old(multiset(row))[e] else 0
    {
      ghost var l := row;
      WantedSubset(o, row);
      var asked := ByUrl(o);
      sent := row;
      StillNoNull(l, sent);
      if |asked| == 0 {
        NothingAsked(o, sent, asked);
      } else {
        SomethingAsked(o, sent, asked);
        ByReply(o, asked);
        DropNull();
        LeftAre(o, sent, row);
        AnsweredSubset(o, sent);
      }
      if ByVerdict(o, verdict, sent) {
        forall e: Entry | e.Link? ensures multiset(row)[e] == if Positive(o, verdict, e) then multiset(l)[e] else 0 {
          VerdictsDecide(o, verdict, l, sent, e);
          LinksCount(sent, e);
        }
      }
    }
  }

  /** What is left of a list when all replies are in: the URLs that were not asked about, and
      those whose own request had a positive reply. */
  ghost predicate LeftOf(o: Oracle, sent: seq<Entry>, row: seq<Entry>) {
    exists answered: seq<Entry> ::
      && |answered| == |sent| && NoNull(row, |row|)
      && (forall i :: 0 <= i < |sent| ==> answered[i] == if o.first(sent[i]).Ask? && !o.reply(i) then Null else sent[i])
      && (forall e: Entry :: e.Link? ==> multiset(row)[e] == multiset(answered)[e])
  }

  lemma LeftAre(o: Oracle, sent: seq<Entry>, row: seq<Entry>)
    requires multiset(row) == Entries(Answered(o, sent)) && NoNull(row, |row|)
    ensures LeftOf(o, sent, row)
  {
    var answered := Answered(o, sent);
    forall e: Entry | e.Link? ensures multiset(row)[e] == multiset(answered)[e] {
      LinksCount(answered, e);
    }
  }

  /** Some request is sent. */
  ghost predicate Asks(o: Oracle, l: seq<Entry>) { exists i :: 0 <= i < |l| && o.first(l[i]).Ask? }

  lemma StillNoNull(l: seq<Entry>, kept: seq<Entry>)
    requires multiset(kept) <= multiset(l)
    ensures NoNull(l, |l|) ==> NoNull(kept, |kept|)
  {
    forall i | 0 <= i < |kept| && NoNull(l, |l|) ensures kept[i].Link? {
      assert kept[i] in multiset(kept);
      assert kept[i] in l;
    }
  }

  lemma NothingAsked(o: Oracle, l: seq<Entry>, asked: map<nat, Entry>)
    requires Sifted(o, l, |l|, asked) && asked == map[]
    ensures !Asks(o, l) && Answered(o, l) == l
  {
    assert forall i :: 0 <= i < |l| ==> i !in asked;
  }

  lemma SomethingAsked(o: Oracle, l: seq<Entry>, asked: map<nat, Entry>)
    requires Sifted(o, l, |l|, asked) && asked != map[]
    ensures Asks(o, l)
  {
    var i :| i in asked;
    assert o.first(l[i]).Ask?;
  }

  lemma {:induction false} AnsweredAtMost(o: Oracle, l: seq<Entry>, e: Entry)
    requires e.Link?
    ensures multiset(Answered(o, l))[e] <= multiset(l)[e]
    decreases |l|
  {
    if l != [] {
      var init, n := l[..|l| - 1], |l| - 1;
      AnsweredAtMost(o, init, e);
      assert l == init + [l[n]];
      assert Answered(o, l) == Answered(o, init) + [if Refused(o, l, n) then Null else l[n]];
    }
  }

  /** Nullifying brings no URL. */
  lemma AnsweredSubset(o: Oracle, l: seq<Entry>)
    ensures Entries(Answered(o, l)) <= multiset(l)
  {
    forall e: Entry ensures Entries(Answered(o, l))[e] <= multiset(l)[e] {
      LinksCount(Answered(o, l), e);
      if e.Link? {
        AnsweredAtMost(o, l, e);
      }
    }
  }

  // Replies that depend on the URL alone.

  ghost predicate ByVerdict(o: Oracle, verdict: Entry -> bool, sent: seq<Entry>) {
    forall i: nat :: i < |sent| && o.first(sent[i]).Ask? ==> o.reply(i) == verdict(sent[i])
  }

  ghost predicate Positive(o: Oracle, verdict: Entry -> bool, e: Entry) {
    e.Link? && (o.first(e).Bind? || (o.first(e).Ask? && verdict(e)))
  }

  lemma {:induction false} AnsweredCount(o: Oracle, verdict: Entry -> bool, l: seq<Entry>, e: Entry)
    requires ByVerdict(o, verdict, l) && e.Link?
    ensures multiset(Answered(o, l))[e] == if o.first(e).Ask? && !verdict(e) then 0 else multiset(l)[e]
    decreases |l|
  {
    if l != [] {
      var init, n := l[..|l| - 1], |l| - 1;
      AnsweredCount(o, verdict, init, e);
      assert l == init + [l[n]];
      assert Answered(o, l) == Answered(o, init) + [if Refused(o, l, n) then Null else l[n]];
    }
  }

  /** When each reply tells of its URL, the list ends as exactly the multiset of the URLs with
      a positive verdict. */
  lemma VerdictsDecide(o: Oracle, verdict: Entry -> bool, l: seq<Entry>, sent: seq<Entry>, e: Entry)
    requires ByVerdict(o, verdict, sent) && multiset(sent) == Wanted(o, l)
    ensures Entries(Answered(o, sent))[e] == if Positive(o, verdict, e) then multiset(l)[e] else 0
  {
    LinksCount(Answered(o, sent), e);
    WantedCount(o, l, e);
    if e.Link? {
      AnsweredCount(o, verdict, sent, e);
    }
  }
}
