/** nolp.c: a socket delivers bytes in arbitrary pieces.  Complete command lines are
    dispatched through a handler table, and a handler may ask for a payload of a
    given size before the next line is read. */
module Nolps {
  import opened Helpers

  const DEFAULT_BUFSZ := 256

  datatype Mode = Cmd | Need(n: nat)

  // A callback invocation. A line without a space hands over an argument size of -1.
  datatype Call = Command(entry: nat, args: string, size: int) | Payload(data: string)

  // What a callback does: return zero, return non-zero, or call nolp_expect and return zero.
  datatype Reply = Ok | Fail | Expect(n: nat)

  // The handler table and the behaviour of its callbacks, as a function of all calls so far.
  datatype Handlers = Handlers(names: seq<string>, reply: seq<Call> -> Reply)

  // Wild: a memchr or memmove with a negative length.
  datatype Status = Fine | Failed | Wild

  datatype Outcome = Outcome(status: Status, calls: seq<Call>, mode: Mode, rest: string)

  // After nolp_create.
  const START := Outcome(Fine, [], Cmd, "")

  // Line 118 discards what a payload callback asked for, after line 107 used its new size.
  ghost predicate NeverRearms(h: Handlers) {
    forall calls: seq<Call> :: calls != [] && calls[|calls| - 1].Payload? ==> !h.reply(calls).Expect?
  }

  // First index of c at or after from, or the length (memchr).
  function Index(data: string, c: char, from: nat): (k: nat)
    requires from <= |data|
    ensures from <= k <= |data|
    ensures forall i :: from <= i < k ==> data[i] != c
    ensures k < |data| ==> data[k] == c
    decreases |data| - from
  {
    if from == |data| || data[from] == c then from else Index(data, c, from + 1)
  }

  // First table entry with the name, or the table's length.
  function Lookup(names: seq<string>, word: string, from: nat): (k: nat)
    requires from <= |names|
    ensures from <= k <= |names|
    ensures forall i :: from <= i < k ==> names[i] != word
    ensures k < |names| ==> names[k] == word
    decreases |names| - from
  {
    if from == |names| || names[from] == word then from else Lookup(names, word, from + 1)
  }

  // The word strcmp sees: up to the first space, the newline, or an embedded NUL.
  function Word(line: string): string {
    var word := line[..Index(line, ' ', 0)];
    word[..Index(word, '\0', 0)]
  }

  function CommandOf(entry: nat, line: string): Call {
    var s := Index(line, ' ', 0);
    if s == |line| then Command(entry, "", -1) else Command(entry, line[s + 1..], |line| - s - 1)
  }

  function After(h: Handlers, calls: seq<Call>): Outcome {
    match h.reply(calls)
    case Ok => Outcome(Fine, calls, Cmd, "")
    case Fail => Outcome(Failed, calls, Cmd, "")
    case Expect(n) => Outcome(Fine, calls, Need(n), "")
  }

  // One complete line.
  function Dispatch(h: Handlers, calls: seq<Call>, line: string): Outcome {
    var entry := Lookup(h.names, Word(line), 0);
    if entry == |h.names| then Outcome(Failed, calls, Cmd, "")
    else After(h, calls + [CommandOf(entry, line)])
  }

  /** One round of the loops in nolp_recv: it either ends the receive, or goes on with
      the bytes that are left. */
  datatype Round = Done(o: Outcome) | Again(calls: seq<Call>, mode: Mode, data: string)

  function Took(h: Handlers, calls: seq<Call>, n: nat, data: string): Round {
    if h.reply(calls).Fail? then Done(Outcome(Failed, calls, Cmd, ""))
    else
      var k := if h.reply(calls).Expect? then h.reply(calls).n else n;
      if |data| == k then Done(Outcome(Fine, calls, Cmd, ""))
      else if |data| < k then Done(Outcome(Wild, calls, Cmd, ""))
      else Again(calls, Cmd, data[k..])
  }

  /** The first `last` bytes are taken to hold no newline. */
  function Turn(h: Handlers, calls: seq<Call>, mode: Mode, data: string, last: nat): (r: Round)
    ensures r.Again? ==> |r.data| < |data| || (r.data == data && mode.Need? && r.mode.Cmd?)
    ensures r.Again? && mode.Need? ==> r.mode.Cmd?
  {
    match mode
    case Need(n) =>
      if data == "" || |data| < n then Done(Outcome(Fine, calls, mode, data))
      else Took(h, calls + [Payload(data[..n])], n, data)
    case Cmd =>
      if |data| < last then Done(Outcome(Wild, calls, Cmd, ""))
      else
        var p := Index(data, '\n', last);
        if p == |data| then Done(Outcome(Fine, calls, Cmd, data))
        else
          var o := Dispatch(h, calls, data[..p]);
          if o.status.Fine? then Again(o.calls, o.mode, data[p + 1..]) else Done(o)
  }

  /** What a receive does with the buffered bytes. */
  function Scan(h: Handlers, calls: seq<Call>, mode: Mode, data: string, last: nat): Outcome
    decreases |data|, if mode.Need? then 1 else 0
  {
    match Turn(h, calls, mode, data, last)
    case Done(o) => o
    case Again(more, next, left) => Scan(h, more, next, left, if mode.Need? then last else 0)
  }

  // The whole stream in one receive.
  function Parse(h: Handlers, calls: seq<Call>, mode: Mode, data: string): Outcome {
    Scan(h, calls, mode, data, 0)
  }

  /** What a receive leaves: no complete line, and no complete payload. */
  ghost predicate Settled(mode: Mode, rest: string) {
    if mode.Cmd? then '\n' !in rest else rest == "" || |rest| < mode.n
  }

  ghost predicate Regular(o: Outcome) {
    match o.status
    case Fine => Settled(o.mode, o.rest)
    case Failed => o.mode == Cmd && o.rest == ""
    case Wild => false
  }

  /** A payload callback that asks again asks for no more bytes than it got, or for one. */
  ghost predicate Modest(h: Handlers) {
    forall calls: seq<Call>, d: string :: ModestAt(h, calls, d)
  }

  ghost predicate ModestAt(h: Handlers, calls: seq<Call>, d: string) {
    h.reply(calls + [Payload(d)]).Expect? ==>
      h.reply(calls + [Payload(d)]).n <= |d| || h.reply(calls + [Payload(d)]).n <= 1
  }

  lemma NeverRearmsModest(h: Handlers)
    requires NeverRearms(h)
    ensures Modest(h)
  {
    forall calls: seq<Call>, d: string ensures ModestAt(h, calls, d) {
      assert (calls + [Payload(d)])[|calls|].Payload?;
    }
  }

  /** A receive that starts inside a partly received payload and runs past it searches
      the bytes that follow from where the partial payload ended.  It sees what it
      should when they are at least that many and the skipped ones hold no newline. */
  ghost predicate Safe(mode: Mode, rest: string, chunk: string) {
    mode.Need? && rest != "" && |rest| + |chunk| > mode.n >= |rest| ==>
      var next := chunk[mode.n - |rest|..];
      |rest| <= |next| && '\n' !in next[..|rest|]
  }

  /** The same over the bytes the payload callback consumes, when it asks again. */
  ghost predicate SafeFor(h: Handlers, calls: seq<Call>, mode: Mode, rest: string, chunk: string) {
    var data := rest + chunk;
    mode.Need? && data != "" && mode.n <= |data| ==>
      var r := Took(h, calls + [Payload(data[..mode.n])], mode.n, data);
      r.Again? ==> |rest| <= |r.data| && '\n' !in r.data[..|rest|]
  }

  lemma IndexFrom(data: string, c: char, from: nat)
    requires from <= |data| && forall i :: 0 <= i < from ==> data[i] != c
    ensures Index(data, c, from) == Index(data, c, 0)
  {
    var k := Index(data, c, 0);
  }

  lemma IndexOf(data: string, c: char, k: nat)
    requires k <= |data| && (forall i :: 0 <= i < k ==> data[i] != c) && (k < |data| ==> data[k] == c)
    ensures Index(data, c, 0) == k
  {
    IndexFrom(data, c, k);
  }

  /** A payload callback that does not re-arm consumes what was asked for. */
  lemma TookPlain(h: Handlers, calls: seq<Call>, n: nat, data: string)
    requires NeverRearms(h) && n <= |data|
    ensures var more := calls + [Payload(data[..n])];
      Took(h, more, n, data) == if h.reply(more).Fail? then Done(Outcome(Failed, more, Cmd, ""))
        else if |data| == n then Done(Outcome(Fine, more, Cmd, "")) else Again(more, Cmd, data[n..])
  {
    var more := calls + [Payload(data[..n])];
    assert more[|more| - 1].Payload?;
  }

  lemma CmdFrom(h: Handlers, calls: seq<Call>, data: string, last: nat)
    requires last <= |data| && '\n' !in data[..last]
    ensures Scan(h, calls, Cmd, data, last) == Parse(h, calls, Cmd, data)
  {
    assert forall i :: 0 <= i < last ==> data[i] == data[..last][i];
    IndexFrom(data, '\n', last);
  }

  lemma SafeForAll(h: Handlers, calls: seq<Call>, mode: Mode, rest: string, chunk: string)
    requires NeverRearms(h) && Settled(mode, rest) && Safe(mode, rest, chunk)
    ensures SafeFor(h, calls, mode, rest, chunk)
  {
    var data := rest + chunk;
    if mode.Need? && data != "" && mode.n <= |data| {
      TookPlain(h, calls, mode.n, data);
      if rest != "" {
        assert data[mode.n..] == chunk[mode.n - |rest|..];
      }
    }
  }

  /** A safe receive does what a search from the start would do. */
  lemma SafeScan(h: Handlers, calls: seq<Call>, mode: Mode, rest: string, chunk: string)
    requires Settled(mode, rest) && SafeFor(h, calls, mode, rest, chunk)
    ensures Scan(h, calls, mode, rest + chunk, |rest|) == Parse(h, calls, mode, rest + chunk)
  {
    var data := rest + chunk;
    if mode.Cmd? {
      assert data[..|rest|] == rest;
      CmdFrom(h, calls, data, |rest|);
    } else {
      match Turn(h, calls, mode, data, |rest|)
      case Done(_) =>
      case Again(more, _, left) => CmdFrom(h, more, left, |rest|);
    }
  }

  lemma TurnSettles(h: Handlers, calls: seq<Call>, mode: Mode, data: string)
    requires Modest(h)
    ensures var r := Turn(h, calls, mode, data, 0);
      && (r.Again? ==> calls <= r.calls)
      && (r.Done? ==> calls <= r.o.calls && Regular(r.o))
  {
    if mode.Need? && data != "" && |data| >= mode.n {
      assert ModestAt(h, calls, data[..mode.n]);
    }
  }

  lemma {:induction false} ParseSettles(h: Handlers, calls: seq<Call>, mode: Mode, data: string)
    requires Modest(h)
    ensures var o := Parse(h, calls, mode, data); calls <= o.calls && Regular(o)
    decreases |data|, if mode.Need? then 1 else 0
  {
    TurnSettles(h, calls, mode, data);
    match Turn(h, calls, mode, data, 0)
    case Done(_) =>
    case Again(more, next, left) => ParseSettles(h, more, next, left);
  }

  function Resume(h: Handlers, o: Outcome, more: string): Outcome {
    if o.status.Fine? then Parse(h, o.calls, o.mode, o.rest + more) else o
  }

  lemma ParseNothing(h: Handlers, calls: seq<Call>, mode: Mode)
    ensures Parse(h, calls, mode, "") == Outcome(Fine, calls, mode, "")
  {
  }

  /** What a payload callback consumes does not depend on what follows the payload. */
  lemma TookAppend(h: Handlers, calls: seq<Call>, n: nat, a: string, b: string)
    requires n <= |a| && a != "" && ModestAt(h, calls, a[..n])
    ensures var more := calls + [Payload(a[..n])];
      var r := Took(h, more, n, a);
      if r.Again? then Took(h, more, n, a + b) == r.(data := r.data + b)
      else if r.o.status.Fine? then
        r.o == Outcome(Fine, more, Cmd, "") && Took(h, more, n, a + b) == if b == "" then r else Again(more, Cmd, b)
      else Took(h, more, n, a + b) == r
  {
    var more := calls + [Payload(a[..n])];
    if !h.reply(more).Fail? {
      var k := if h.reply(more).Expect? then h.reply(more).n else n;
      assert (a + b)[k..] == a[k..] + b;
    }
  }

  lemma NeedAppend(h: Handlers, calls: seq<Call>, n: nat, a: string, b: string)
    requires Modest(h)
    ensures var r := Turn(h, calls, Need(n), a, 0);
      if r.Again? then Turn(h, calls, Need(n), a + b, 0) == r.(data := r.data + b)
      else Parse(h, calls, Need(n), a + b) == Resume(h, r.o, b)
  {
    if a != "" && |a| >= n {
      assert (a + b)[..n] == a[..n];
      assert ModestAt(h, calls, a[..n]);
      TookAppend(h, calls, n, a, b);
      ParseNothing(h, calls + [Payload(a[..n])], Cmd);
      assert "" + b == b;
    }
  }

  lemma CmdAppend(h: Handlers, calls: seq<Call>, a: string, b: string)
    ensures var r := Turn(h, calls, Cmd, a, 0);
      if r.Again? then Turn(h, calls, Cmd, a + b, 0) == r.(data := r.data + b)
      else Parse(h, calls, Cmd, a + b) == Resume(h, r.o, b)
  {
    var p := Index(a, '\n', 0);
    if p < |a| {
      assert (a + b)[..p] == a[..p] && (a + b)[p + 1..] == a[p + 1..] + b;
      IndexOf(a + b, '\n', p);
    }
  }

  /** Parsing two pieces one after the other is parsing their concatenation. */
  lemma {:induction false} ParseAppend(h: Handlers, calls: seq<Call>, mode: Mode, a: string, b: string)
    requires Modest(h)
    ensures Parse(h, calls, mode, a + b) == Resume(h, Parse(h, calls, mode, a), b)
    decreases |a|, if mode.Need? then 1 else 0
  {
    match mode {
      case Need(n) => NeedAppend(h, calls, n, a, b);
      case Cmd => CmdAppend(h, calls, a, b);
    }
    match Turn(h, calls, mode, a, 0)
    case Done(_) =>
    case Again(more, next, left) => ParseAppend(h, more, next, left, b);
  }

  /** Receives in a row, each on what the one before left; none after a failure. */
  function Feed(h: Handlers, o: Outcome, chunks: seq<string>): Outcome
    decreases |chunks|
  {
    if chunks == [] || !o.status.Fine? then o
    else Feed(h, Scan(h, o.calls, o.mode, o.rest + chunks[0], |o.rest|), chunks[1..])
  }

  ghost predicate AllSafe(h: Handlers, o: Outcome, chunks: seq<string>)
    decreases |chunks|
  {
    chunks != [] && o.status.Fine? ==>
      && SafeFor(h, o.calls, o.mode, o.rest, chunks[0])
      && AllSafe(h, Scan(h, o.calls, o.mode, o.rest + chunks[0], |o.rest|), chunks[1..])
  }

  function Joined(chunks: seq<string>): string {
    if chunks == [] then "" else chunks[0] + Joined(chunks[1..])
  }

  lemma ResumeNothing(h: Handlers, o: Outcome)
    requires Regular(o)
    ensures Resume(h, o, "") == o
  {
    assert o.rest + "" == o.rest;
  }

  lemma FeedFirst(h: Handlers, o: Outcome, chunks: seq<string>, next: Outcome)
    requires Modest(h) && Regular(o) && o.status.Fine? && chunks != [] && AllSafe(h, o, chunks)
    requires next == Parse(h, o.calls, o.mode, o.rest + chunks[0])
    ensures Regular(next) && AllSafe(h, next, chunks[1..]) && Feed(h, o, chunks) == Feed(h, next, chunks[1..])
  {
    SafeScan(h, o.calls, o.mode, o.rest, chunks[0]);
    ParseSettles(h, o.calls, o.mode, o.rest + chunks[0]);
  }

  lemma ResumeAppend(h: Handlers, o: Outcome, c: string, tail: string, next: Outcome)
    requires Modest(h) && o.status.Fine? && next == Parse(h, o.calls, o.mode, o.rest + c)
    ensures Resume(h, next, tail) == Resume(h, o, c + tail)
  {
    ParseAppend(h, o.calls, o.mode, o.rest + c, tail);
    assert o.rest + c + tail == o.rest + (c + tail);
  }

  /** However the stream is cut into safe receives, the calls, the residue and the state
      are those of one receive of the whole stream. */
  lemma {:induction false} ChunkingIrrelevant(h: Handlers, o: Outcome, chunks: seq<string>)
    requires Modest(h) && Regular(o) && AllSafe(h, o, chunks)
    ensures Feed(h, o, chunks) == Resume(h, o, Joined(chunks))
    decreases |chunks|
  {
    if chunks == [] {
      ResumeNothing(h, o);
    } else if o.status.Fine? {
      var next := Parse(h, o.calls, o.mode, o.rest + chunks[0]);
      FeedFirst(h, o, chunks, next);
      ChunkingIrrelevant(h, next, chunks[1..]);
      ResumeAppend(h, o, chunks[0], Joined(chunks[1..]), next);
    }
  }

  /** A run from nolp_create. */
  lemma TwoCuts(h: Handlers, some: seq<string>, others: seq<string>)
    requires Modest(h) && Joined(some) == Joined(others)
    requires AllSafe(h, START, some) && AllSafe(h, START, others)
    ensures Feed(h, START, some) == Feed(h, START, others)
  {
    ChunkingIrrelevant(h, START, some);
    ChunkingIrrelevant(h, START, others);
  }

  /** Handlers that tell a stale search from a fresh one: the line the stale search skips
      asks for more than there is. */
  function Witness(line: string, big: nat): Handlers {
    Handlers([Word(line)],
             (calls: seq<Call>) =>
               if calls != [] && calls[|calls| - 1].Command? then Expect(big) else Ok)
  }

  lemma WitnessFresh(calls: seq<Call>, data: string, k: nat)
    requires k < |data| && data[k] == '\n' && Index(data, '\n', 0) == k
    ensures Parse(Witness(data[..k], |data|), calls, Cmd, data)
      == Outcome(Fine, calls + [CommandOf(0, data[..k])], Need(|data|), data[k + 1..])
  {
    var h := Witness(data[..k], |data|);
    var more := calls + [CommandOf(0, data[..k])];
    assert Lookup(h.names, Word(data[..k]), 0) == 0;
    assert more[|more| - 1].Command?;
    assert Dispatch(h, calls, data[..k]) == Outcome(Fine, more, Need(|data|), "");
    var left := data[k + 1..];
    assert Turn(h, calls, Cmd, data, 0) == Again(more, Need(|data|), left);
    assert Turn(h, more, Need(|data|), left, 0) == Done(Outcome(Fine, more, Need(|data|), left));
    assert Scan(h, more, Need(|data|), left, 0) == Outcome(Fine, more, Need(|data|), left);
  }

  lemma WitnessStale(calls: seq<Call>, data: string, k: nat, last: nat)
    requires k < last <= |data| && data[k] == '\n' && Index(data, '\n', 0) == k
    ensures Scan(Witness(data[..k], |data|), calls, Cmd, data, last) != Parse(Witness(data[..k], |data|), calls, Cmd, data)
  {
    var h := Witness(data[..k], |data|);
    var p := Index(data, '\n', last);
    WitnessFresh(calls, data, k);
    if p < |data| && Lookup(h.names, Word(data[..p]), 0) == 0 {
      var more := calls + [CommandOf(0, data[..p])];
      assert more[|more| - 1].Command?;
      assert Dispatch(h, calls, data[..p]) == Outcome(Fine, more, Need(|data|), "");
      assert Turn(h, calls, Cmd, data, last) == Again(more, Need(|data|), data[p + 1..]);
      assert |data[p + 1..]| < |data[k + 1..]|;
    }
  }

  /** Safe is exact: an unsafe receive goes wrong for some handlers. */
  lemma UnsafeDiffers(calls: seq<Call>, mode: Mode, rest: string, chunk: string) returns (h: Handlers)
    requires Settled(mode, rest) && !Safe(mode, rest, chunk)
    ensures NeverRearms(h)
    ensures Scan(h, calls, mode, rest + chunk, |rest|) != Parse(h, calls, mode, rest + chunk)
  {
    var data := rest + chunk;
    var next := chunk[mode.n - |rest|..];
    assert data[mode.n..] == next;
    var more := calls + [Payload(data[..mode.n])];
    var k := Index(next, '\n', 0);
    h := if k < |next| then Witness(next[..k], |next|) else Witness("", 0);
    TookPlain(h, calls, mode.n, data);
    if |next| < |rest| {
      NeverRearmsModest(h);
      ParseSettles(h, more, Cmd, next);
    } else {
      WitnessStale(more, next, k, |rest|);
    }
  }

  lemma SafeExact(mode: Mode, rest: string, chunk: string)
    requires Settled(mode, rest)
    ensures Safe(mode, rest, chunk) <==>
      forall h: Handlers, calls: seq<Call> :: NeverRearms(h) ==>
        Scan(h, calls, mode, rest + chunk, |rest|) == Parse(h, calls, mode, rest + chunk)
  {
    if Safe(mode, rest, chunk) {
      forall h: Handlers, calls: seq<Call> | NeverRearms(h)
        ensures Scan(h, calls, mode, rest + chunk, |rest|) == Parse(h, calls, mode, rest + chunk)
      {
        SafeForAll(h, calls, mode, rest, chunk);
        SafeScan(h, calls, mode, rest, chunk);
      }
    } else {
      var h := UnsafeDiffers([], mode, rest, chunk);
    }
  }

  /** Asking again for more than came goes wrong when the rest comes in a later piece. */
  lemma ImmodestDiffers(h: Handlers, calls: seq<Call>, d: string) returns (a: string, b: string)
    requires !ModestAt(h, calls, d)
    ensures Parse(h, calls, Need(|d|), a + b).status.Fine? && Parse(h, calls, Need(|d|), a).status.Wild?
  {
    var m := h.reply(calls + [Payload(d)]).n;
    a := if d == "" then "x" else d;
    b := seq(m - |a|, _ => 'x');
    assert a[..|d|] == d && (a + b)[..|d|] == d;
  }

  /** The condition is exact: parsing in two pieces is parsing at once, for all that may be
      buffered and received, exactly when every payload callback is modest. */
  lemma AppendExactly(h: Handlers)
    ensures Modest(h) <==>
      forall calls, mode, a, b :: Parse(h, calls, mode, a + b) == Resume(h, Parse(h, calls, mode, a), b)
  {
    if Modest(h) {
      forall calls, mode, a, b ensures Parse(h, calls, mode, a + b) == Resume(h, Parse(h, calls, mode, a), b) {
        ParseAppend(h, calls, mode, a, b);
      }
    } else {
      var calls, d :| !ModestAt(h, calls, d);
      var a, b := ImmodestDiffers(h, calls, d);
    }
  }

  /** A server with one command, which asks for two bytes, and three once it has them. */
  function Greedy(): Handlers {
    Handlers(["g"], (calls: seq<Call>) => if calls != [] && calls[|calls| - 1].Command? then Expect(2) else Expect(3))
  }

  lemma GreedyCommand(more: string)
    ensures var c := Command(0, "", -1);
      Parse(Greedy(), [], Cmd, "g\n" + more) == Parse(Greedy(), [c], Need(2), more)
  {
    var h, data := Greedy(), "g\n" + more;
    assert [Command(0, "", -1)][0].Command? && [] + [Command(0, "", -1)] == [Command(0, "", -1)];
    IndexOf(data, '\n', 1);
    IndexOf("g", ' ', 1);
    IndexOf("g", '\0', 1);
    assert data[..1] == "g" && data[2..] == more && Word("g") == "g";
    assert Turn(h, [], Cmd, data, 0) == Again([Command(0, "", -1)], Need(2), more);
  }

  lemma GreedyPayload(calls: seq<Call>, data: string)
    requires 2 <= |data| <= 3
    ensures Parse(Greedy(), calls, Need(2), data)
      == Outcome(if |data| == 3 then Fine else Wild, calls + [Payload(data[..2])], Cmd, "")
  {
    var more := calls + [Payload(data[..2])];
    assert more[|more| - 1].Payload?;
    assert Greedy().reply(more) == Expect(3);
    assert Turn(Greedy(), calls, Need(2), data, 0) == Took(Greedy(), more, 2, data);
  }

  lemma GreedyFeed(more: string, rest: seq<string>)
    requires 2 <= |more| <= 3
    ensures Feed(Greedy(), START, ["g\n" + more] + rest)
      == Feed(Greedy(), Outcome(if |more| == 3 then Fine else Wild, [Command(0, "", -1)] + [Payload(more[..2])], Cmd, ""), rest)
  {
    var c := "g\n" + more;
    GreedyCommand(more);
    GreedyPayload([Command(0, "", -1)], more);
    assert "" + c == c && ([c] + rest)[1..] == rest;
  }

  lemma JoinedTwo(a: string, b: string)
    ensures Joined([a]) == a && Joined([a] + [b]) == a + b
  {
    assert [a][1..] == [] && ([a] + [b])[1..] == [b] && [b][1..] == [] && [b] == [b];
    assert Joined([b]) == b + Joined([]);
  }

  /** From nolp_create on, the same five bytes are answered in one piece, and move a negative
      number of bytes in two. */
  lemma RearmingDepends()
    ensures Joined(["g\n" + "xxy"]) == Joined(["g\n" + "xx"] + ["y"])
    ensures Feed(Greedy(), START, ["g\n" + "xxy"]).status.Fine?
    ensures Feed(Greedy(), START, ["g\n" + "xx"] + ["y"]).status.Wild?
  {
    JoinedTwo("g\n" + "xxy", "");
    JoinedTwo("g\n" + "xx", "y");
    GreedyFeed("xxy", []);
    GreedyFeed("xx", ["y"]);
    assert ["g\n" + "xxy"] + [] == ["g\n" + "xxy"];
  }

  /** The bytes a peer sends to cause one call. */
  function Line(name: string, c: Call): string
    requires c.Command?
  {
    if c.size == -1 then name else name + " " + c.args
  }

  ghost predicate Sendable(h: Handlers, c: Call) {
    match c
    case Payload(_) => true
    case Command(entry, args, size) =>
      && entry < |h.names| && Lookup(h.names, h.names[entry], 0) == entry
      && ' ' !in h.names[entry] && '\n' !in h.names[entry] && '\0' !in h.names[entry]
      && '\n' !in args && size == if size == -1 then -|args| - 1 else |args|
  }

  function Piece(h: Handlers, c: Call): string
    requires Sendable(h, c)
  {
    match c
    case Payload(data) => data
    case Command(entry, _, _) => Line(h.names[entry], c) + "\n"
  }

  function NextMode(h: Handlers, calls: seq<Call>): Mode {
    match h.reply(calls) case Expect(n) => Need(n) case _ => Cmd
  }

  /** A conversation: each handler succeeds, and what it asks for comes next.  An empty
      payload is only noticed when something follows it. */
  ghost predicate Conversation(h: Handlers, calls: seq<Call>, mode: Mode, cs: seq<Call>)
    decreases |cs|
  {
    cs != [] ==>
      && Sendable(h, cs[0]) && !h.reply(calls + [cs[0]]).Fail?
      && (if mode.Cmd? then cs[0].Command? else cs[0].Payload? && |cs[0].data| == mode.n)
      && (mode == Need(0) ==> |cs| > 1)
      && Conversation(h, calls + [cs[0]], NextMode(h, calls + [cs[0]]), cs[1..])
  }

  ghost function Wire(h: Handlers, calls: seq<Call>, mode: Mode, cs: seq<Call>): string
    requires Conversation(h, calls, mode, cs)
    decreases |cs|
  {
    if cs == [] then "" else
      Piece(h, cs[0]) + Wire(h, calls + [cs[0]], NextMode(h, calls + [cs[0]]), cs[1..])
  }

  ghost function LastMode(h: Handlers, calls: seq<Call>, mode: Mode, cs: seq<Call>): Mode {
    if cs == [] then mode else NextMode(h, calls + cs)
  }

  lemma LineReads(h: Handlers, c: Call)
    requires c.Command? && Sendable(h, c)
    ensures var line := Line(h.names[c.entry], c);
      '\n' !in line && Word(line) == h.names[c.entry] && CommandOf(c.entry, line) == c
  {
    var name := h.names[c.entry];
    var line := Line(name, c);
    IndexOf(line, ' ', |name|);
    assert line[..|name|] == name;
    IndexOf(name, '\0', |name|);
    if c.size != -1 {
      assert line[|name| + 1..] == c.args;
    }
  }

  lemma CommandTurn(h: Handlers, calls: seq<Call>, c: Call, tail: string)
    requires c.Command? && Sendable(h, c) && !h.reply(calls + [c]).Fail?
    ensures Turn(h, calls, Cmd, Piece(h, c) + tail, 0)
      == Again(calls + [c], NextMode(h, calls + [c]), tail)
  {
    var line := Line(h.names[c.entry], c);
    var data := Piece(h, c) + tail;
    LineReads(h, c);
    assert data == line + ("\n" + tail);
    assert data[..|line|] == line && data[|line| + 1..] == tail;
    IndexOf(data, '\n', |line|);
  }

  lemma PayloadTurn(h: Handlers, calls: seq<Call>, c: Call, tail: string)
    requires NeverRearms(h) && c.Payload? && !h.reply(calls + [c]).Fail?
    requires c.data + tail != ""
    ensures Scan(h, calls, Need(|c.data|), c.data + tail, 0) == Parse(h, calls + [c], Cmd, tail)
    ensures NextMode(h, calls + [c]) == Cmd
  {
    var data := c.data + tail;
    assert data[..|c.data|] == c.data && data[|c.data|..] == tail;
    assert (calls + [c])[|calls|].Payload?;
    TookPlain(h, calls, |c.data|, data);
  }

  lemma FirstCall(h: Handlers, calls: seq<Call>, mode: Mode, cs: seq<Call>)
    requires NeverRearms(h) && cs != [] && Conversation(h, calls, mode, cs)
    ensures var more := calls + [cs[0]];
      Parse(h, calls, mode, Wire(h, calls, mode, cs))
      == Parse(h, more, NextMode(h, more), Wire(h, more, NextMode(h, more), cs[1..]))
  {
    var c, more := cs[0], calls + [cs[0]];
    var tail := Wire(h, more, NextMode(h, more), cs[1..]);
    assert Wire(h, calls, mode, cs) == Piece(h, c) + tail;
    if mode.Cmd? {
      CommandTurn(h, calls, c, tail);
    } else {
      assert NextMode(h, more) == Cmd by {
        assert more[|calls|].Payload?;
      }
      PayloadTurn(h, calls, c, tail);
    }
  }

  lemma LastModeStep(h: Handlers, calls: seq<Call>, mode: Mode, cs: seq<Call>)
    requires cs != []
    ensures var more := calls + [cs[0]];
      more + cs[1..] == calls + cs
      && LastMode(h, calls, mode, cs) == LastMode(h, more, NextMode(h, more), cs[1..])
  {
    assert calls + [cs[0]] + cs[1..] == calls + cs;
    assert cs[1..] == [] ==> calls + [cs[0]] == calls + cs;
  }

  /** Every conversation arrives as it was sent. */
  lemma {:induction false} Delivered(h: Handlers, calls: seq<Call>, mode: Mode, cs: seq<Call>)
    requires NeverRearms(h) && Conversation(h, calls, mode, cs)
    ensures Parse(h, calls, mode, Wire(h, calls, mode, cs))
      == Outcome(Fine, calls + cs, LastMode(h, calls, mode, cs), "")
    decreases |cs|
  {
    if cs == [] {
      ParseNothing(h, calls, mode);
    } else {
      var more := calls + [cs[0]];
      FirstCall(h, calls, mode, cs);
      LastModeStep(h, calls, mode, cs);
      Delivered(h, more, NextMode(h, more), cs[1..]);
    }
  }

  /** The two together: sent whole, received in any safe pieces. */
  lemma DeliveredInPieces(h: Handlers, cs: seq<Call>, chunks: seq<string>)
    requires NeverRearms(h) && Conversation(h, [], Cmd, cs)
    requires Joined(chunks) == Wire(h, [], Cmd, cs)
    requires AllSafe(h, START, chunks)
    ensures Feed(h, START, chunks) == Outcome(Fine, cs, LastMode(h, [], Cmd, cs), "")
  {
    NeverRearmsModest(h);
    ChunkingIrrelevant(h, START, chunks);
    Delivered(h, [], Cmd, cs);
    assert "" + Joined(chunks) == Joined(chunks) && [] + cs == cs;
  }

  /** What ends a conversation: a line whose first word, up to a space or a NUL, is no command,
      or a command or payload whose callback fails. */
  datatype Bad = NoCommand(word: string, more: string) | Refused(call: Call)

  ghost predicate Breaks(h: Handlers, calls: seq<Call>, mode: Mode, b: Bad) {
    match b
    case NoCommand(w, more) =>
      && mode.Cmd? && w !in h.names && ' ' !in w && '\0' !in w && '\n' !in w && '\n' !in more
      && (more != "" ==> more[0] == ' ' || more[0] == '\0')
    case Refused(c) =>
      && Sendable(h, c) && h.reply(calls + [c]).Fail?
      && if mode.Cmd? then c.Command? else c.Payload? && |c.data| == mode.n
  }

  function BadText(h: Handlers, b: Bad): string
    requires b.Refused? ==> Sendable(h, b.call)
  {
    match b case NoCommand(w, more) => w + more + "\n" case Refused(c) => Piece(h, c)
  }

  function BadCalls(b: Bad): seq<Call> { match b case NoCommand(_, _) => [] case Refused(c) => [c] }

  lemma WordIs(w: string, more: string)
    requires ' ' !in w && '\0' !in w && (more != "" ==> more[0] == ' ' || more[0] == '\0')
    ensures Word(w + more) == w
  {
    var line := w + more;
    var s := Index(line, ' ', 0);
    assert forall k :: 0 <= k < |w| ==> line[k] == w[k];
    assert forall k :: 0 <= k < |w| ==> line[k] != ' ';
    var head := line[..s];
    assert |w| < s ==> line[|w|] == more[0] == '\0';
    IndexOf(head, '\0', |w|);
    assert head[..|w|] == w;
  }

  lemma UnknownTurn(h: Handlers, calls: seq<Call>, w: string, more: string, tail: string)
    requires Breaks(h, calls, Cmd, NoCommand(w, more))
    ensures Turn(h, calls, Cmd, w + more + "\n" + tail, 0) == Done(Outcome(Failed, calls, Cmd, ""))
  {
    var line, data := w + more, w + more + "\n" + tail;
    WordIs(w, more);
    assert data[..|line|] == line && forall k :: 0 <= k < |line| ==> line[k] != '\n';
    IndexOf(data, '\n', |line|);
  }

  lemma RefusedTurn(h: Handlers, calls: seq<Call>, mode: Mode, c: Call, tail: string)
    requires Breaks(h, calls, mode, Refused(c)) && Piece(h, c) + tail != ""
    ensures Turn(h, calls, mode, Piece(h, c) + tail, 0) == Done(Outcome(Failed, calls + [c], Cmd, ""))
  {
    var data := Piece(h, c) + tail;
    if mode.Cmd? {
      var line := Line(h.names[c.entry], c);
      LineReads(h, c);
      assert data == line + ("\n" + tail);
      assert data[..|line|] == line;
      IndexOf(data, '\n', |line|);
    } else {
      assert data[..mode.n] == c.data;
    }
  }

  /** The first thing that goes wrong ends the receive, whatever follows it. */
  lemma BreaksOff(h: Handlers, calls: seq<Call>, mode: Mode, b: Bad, tail: string)
    requires Breaks(h, calls, mode, b) && BadText(h, b) + tail != ""
    ensures Parse(h, calls, mode, BadText(h, b) + tail) == Outcome(Failed, calls + BadCalls(b), Cmd, "")
  {
    match b
    case NoCommand(w, more) =>
      UnknownTurn(h, calls, w, more, tail);
      assert calls + [] == calls;
    case Refused(c) => RefusedTurn(h, calls, mode, c, tail);
  }

  /** A conversation that something breaks off: exactly the calls up to there are made. */
  lemma DeliveredUpTo(h: Handlers, calls: seq<Call>, mode: Mode, cs: seq<Call>, b: Bad, tail: string)
    requires NeverRearms(h) && Conversation(h, calls, mode, cs)
    requires Breaks(h, calls + cs, LastMode(h, calls, mode, cs), b) && BadText(h, b) + tail != ""
    ensures Parse(h, calls, mode, Wire(h, calls, mode, cs) + (BadText(h, b) + tail))
      == Outcome(Failed, calls + cs + BadCalls(b), Cmd, "")
  {
    NeverRearmsModest(h);
    Delivered(h, calls, mode, cs);
    ParseAppend(h, calls, mode, Wire(h, calls, mode, cs), BadText(h, b) + tail);
    assert "" + (BadText(h, b) + tail) == BadText(h, b) + tail;
    BreaksOff(h, calls + cs, LastMode(h, calls, mode, cs), b, tail);
  }

  /** The same in any safe pieces. */
  lemma BrokenInPieces(h: Handlers, cs: seq<Call>, b: Bad, tail: string, chunks: seq<string>)
    requires NeverRearms(h) && Conversation(h, [], Cmd, cs) && AllSafe(h, START, chunks)
    requires Breaks(h, cs, LastMode(h, [], Cmd, cs), b) && BadText(h, b) + tail != ""
    requires Joined(chunks) == Wire(h, [], Cmd, cs) + (BadText(h, b) + tail)
    ensures Feed(h, START, chunks) == Outcome(Failed, cs + BadCalls(b), Cmd, "")
  {
    NeverRearmsModest(h);
    ChunkingIrrelevant(h, START, chunks);
    assert "" + Joined(chunks) == Joined(chunks) && [] + cs == cs;
    DeliveredUpTo(h, [], Cmd, cs, b, tail);
  }

  /** The receive will end in `goal`. */
  ghost predicate Leads(h: Handlers, calls: seq<Call>, mode: Mode, data: string, last: nat, goal: Outcome) {
    forall z {:trigger Unfold(z)} :: Unfold(z) ==> Scan(h, calls, mode, data, last) == goal
  }

  /** What a round of the loops reports: failure, going on with what it left, or the end. */
  ghost predicate Reports(r: Round, st: Status, again: bool, calls: seq<Call>, mode: Mode, data: string) {
    if !st.Fine? then r.Done? && r.o.status == st && r.o.calls == calls
    else if again then r == Again(calls, mode, data)
    else r == Done(Outcome(Fine, calls, mode, data))
  }

  ghost predicate Turned(h: Handlers, calls0: seq<Call>, mode0: Mode, data0: string, last: nat,
                         st: Status, again: bool, calls: seq<Call>, mode: Mode, data: string) {
    forall z {:trigger Unfold(z)} :: Unfold(z) ==>
      Reports(Turn(h, calls0, mode0, data0, last), st, again, calls, mode, data)
  }

  lemma LeadsOn(h: Handlers, calls0: seq<Call>, mode0: Mode, data0: string, last: nat, goal: Outcome,
                st: Status, again: bool, calls: seq<Call>, mode: Mode, data: string)
    requires Leads(h, calls0, mode0, data0, last, goal)
    requires Turned(h, calls0, mode0, data0, last, st, again, calls, mode, data)
    ensures !st.Fine? ==> goal.status == st && goal.calls == calls
    ensures st.Fine? && again ==> Leads(h, calls, mode, data, if mode0.Need? then last else 0, goal)
    ensures st.Fine? && !again ==> goal == Outcome(Fine, calls, mode, data)
  {
    assert Unfold(0);
  }

  lemma LeadsNowhere(h: Handlers, calls: seq<Call>, mode: Mode, goal: Outcome)
    requires mode.Need? && Leads(h, calls, mode, "", 0, goal)
    ensures goal == Outcome(Fine, calls, mode, "")
  {
    assert Unfold(0);
  }

  class Nolp {
    const h: Handlers
    var buf: array<char>
    var sz: nat
    var mode: Mode
    var calls: seq<Call>

    ghost predicate Valid()
      reads this
    {
      && sz <= buf.Length && 0 < buf.Length
      && (mode.Need? && 0 < sz ==> sz < mode.n <= buf.Length)
    }

    function Held(): string
      requires sz <= buf.Length
      reads this, buf
    {
      buf[..sz]
    }

    constructor (handlers: Handlers)
      ensures Valid() && fresh(buf)
      ensures h == handlers && calls == [] && mode == Cmd && Held() == ""
    {
      h := handlers;
      buf := new char[DEFAULT_BUFSZ];
      sz := 0;
      mode := Cmd;
      calls := [];
    }

    /** realloc(): what is kept moves along. */
    method Resize(n: nat)
      requires sz <= n && sz <= buf.Length
      modifies `buf
      ensures fresh(buf) && buf.Length == n && Held() == old(Held())
    {
      var from, keep := buf, sz;
      var to := new char[n];
      forall i | 0 <= i < keep { to[i] := from[i]; }
      buf := to;
    }

    /** memmove() of everything from `k` on to the front. */
    method MoveDown(k: nat)
      requires k <= sz <= buf.Length
      modifies `sz, buf
      ensures sz == old(sz) - k && buf[..sz] == old(buf[k..sz])
    {
      var x := sz - k;
      forall i | 0 <= i < x { buf[i] := buf[k + i]; }
      sz := x;
    }

    /** The room recv() is offered. */
    function Room(): (r: nat)
      requires Valid()
      reads this
      ensures 0 < r
    {
      if mode.Cmd? && sz >= buf.Length then buf.Length + DEFAULT_BUFSZ - sz else buf.Length - sz
    }

    /** The command line that ends at p: cut off its first word, find it in the table, call. */
    method CallHandler(p: nat) returns (st: Status)
      requires p < sz <= buf.Length && mode.Cmd?
      modifies `mode, `calls, buf
      ensures var o := Dispatch(h, old(calls), old(buf[..p]));
        st == o.status && calls == o.calls && (st.Fine? ==> mode == o.mode)
      ensures buf[p + 1..] == old(buf[p + 1..])
    {
      ghost var line := buf[..p];
      var s := Index(buf[..p], ' ', 0);
      buf[s] := '\0';
      var word := buf[..Index(buf[..s + 1], '\0', 0)];
      assert word == Word(line) by {
        var w := line[..s];
        var k := Index(w, '\0', 0);
        IndexOf(buf[..s + 1], '\0', k);
      }
      var x := 0;
      while x < |h.names| && h.names[x] != word
        invariant x <= |h.names|
        invariant forall i :: 0 <= i < x ==> h.names[i] != word
      {
        x := x + 1;
      }
      assert x == Lookup(h.names, word, 0);
      if x == |h.names| {
        return Failed;
      }
      var c := if s == p then Command(x, "", -1) else Command(x, buf[s + 1..p], p - (s + 1));
      assert c == CommandOf(x, line);
      calls := calls + [c];
      match h.reply(calls)
      case Fail => st := Failed;
      case Ok => st := Fine;
      case Expect(n) => mode := Need(n); st := Fine;
    }

    /** One complete line, if there is one. */
    method NextLine(from: nat) returns (st: Status, again: bool)
      requires sz <= buf.Length && mode.Cmd?
      modifies `sz, `mode, `calls, buf
      ensures sz <= old(sz) && (st.Fine? && again ==> sz < old(sz))
      ensures Turned(h, old(calls), Cmd, old(Held()), from, st, again, calls, mode, Held())
      ensures st.Fine? && !again ==> mode.Cmd?
    {
      if sz < from {
        return Wild, false;
      }
      var p := Index(buf[..sz], '\n', from);
      if p == sz {
        return Fine, false;
      }
      ghost var was := Held();
      assert was[..p] == buf[..p];
      st := CallHandler(p);
      again := true;
      if st.Fine? {
        assert buf[p + 1..sz] == was[p + 1..];
        MoveDown(p + 1);
      }
    }

    /** The loop over complete lines. */
    method Commands(last: nat, ghost goal: Outcome) returns (st: Status, rerun: bool)
      requires Valid() && mode.Cmd? && Leads(h, calls, mode, Held(), last, goal)
      modifies `sz, `mode, `calls, buf
      ensures sz <= old(sz) && sz <= buf.Length
      ensures !st.Fine? ==> goal.status == st && goal.calls == calls
      ensures st.Fine? && rerun ==> 0 < sz < old(sz) && mode.Need? && Leads(h, calls, mode, Held(), 0, goal)
      ensures st.Fine? && !rerun ==> Valid() && goal == Outcome(Fine, calls, mode, Held())
    {
      var from := last;
      while true
        invariant sz <= old(sz) && sz <= buf.Length && mode.Cmd?
        invariant Leads(h, calls, mode, Held(), from, goal)
        decreases sz
      {
        ghost var calls0, data0 := calls, Held();
        var again;
        st, again := NextLine(from);
        LeadsOn(h, calls0, Cmd, data0, from, goal, st, again, calls, mode, Held());
        if !st.Fine? || !again {
          return st, false;
        }
        from := 0;
        if mode.Need? {
          if sz == 0 {
            LeadsNowhere(h, calls, mode, goal);
          }
          return Fine, 0 < sz;
        }
      }
    }

    /** The payload state: wait, or hand over what was asked for. */
    method TakePayload(ghost last: nat) returns (st: Status, rerun: bool)
      requires sz <= buf.Length && 0 < buf.Length && mode.Need? && 0 < sz
      modifies this, buf
      ensures fresh(buf) || buf == old(buf)
      ensures sz <= old(sz) && sz <= buf.Length
      ensures Turned(h, old(calls), old(mode), old(Held()), last, st, rerun, calls, mode, Held())
      ensures st.Fine? ==> Valid() && (rerun ==> mode.Cmd?)
    {
      var want := mode.n;
      rerun := false;
      if buf.Length < want {
        Resize(want);
      }
      if sz < want {
        return Fine, false;
      }
      ghost var was := Held();
      var data := buf[..want];
      assert data == was[..want];
      calls := calls + [Payload(data)];
      match h.reply(calls) {
        case Fail => return Failed, false;
        case Ok =>
        case Expect(n) => want := n;
      }
      if sz == want {
        sz := 0;
        Resize(DEFAULT_BUFSZ);
      } else if sz < want {
        return Wild, false;
      } else {
        assert buf[want..sz] == was[want..];
        MoveDown(want);
        rerun := true;
      }
      mode := Cmd;
      st := Fine;
    }

    /** recv() into the free part of the buffer, after making some. */
    method Fill(chunk: string)
      requires Valid() && |chunk| <= Room()
      modifies `buf, `sz, buf
      ensures fresh(buf) || buf == old(buf)
      ensures sz == old(sz) + |chunk| && sz <= buf.Length && 0 < buf.Length
      ensures Held() == old(Held()) + chunk
    {
      if mode.Cmd? && sz >= buf.Length {
        Resize(buf.Length + DEFAULT_BUFSZ);
      }
      var last := sz;
      forall i | 0 <= i < |chunk| { buf[last + i] := chunk[i]; }
      sz := sz + |chunk|;
      assert buf[..last] == old(Held());
    }

    /** nolp_recv; `chunk` is what recv() delivers, nothing on an error or at the end. */
    method Recv(chunk: string) returns (st: Status)
      requires Valid() && |chunk| <= Room()
      modifies this, buf
      ensures fresh(buf) || buf == old(buf)
      ensures chunk == "" ==> st == Failed && calls == old(calls)
      ensures chunk != "" ==>
        var o := Scan(h, old(calls), old(mode), old(Held()) + chunk, old(sz));
        && st == o.status && calls == o.calls
        && (st.Fine? ==> Valid() && mode == o.mode && Held() == o.rest)
    {
      var last := sz;
      Fill(chunk);
      if chunk == "" {
        return Failed;
      }
      st := Process(last, Scan(h, calls, mode, Held(), last));
    }

    method Process(last0: nat, ghost goal: Outcome) returns (st: Status)
      requires sz <= buf.Length && 0 < sz && Leads(h, calls, mode, Held(), last0, goal)
      modifies this, buf
      ensures fresh(buf) || buf == old(buf)
      ensures st == goal.status && calls == goal.calls
      ensures st.Fine? ==> Valid() && mode == goal.mode && Held() == goal.rest
    {
      var last: nat := last0;
      var rerun := true;
      st := Fine;
      while rerun
        invariant fresh(buf) || buf == old(buf)
        invariant sz <= buf.Length && 0 < buf.Length && (rerun && mode.Need? ==> 0 < sz)
        invariant rerun ==> Leads(h, calls, mode, Held(), last, goal)
        invariant !rerun ==> Valid() && goal == Outcome(Fine, calls, mode, Held())
        invariant st.Fine?
        decreases rerun, sz, mode.Need?
      {
        ghost var calls0, mode0, data0 := calls, mode, Held();
        if mode.Need? {
          st, rerun := TakePayload(last);
          LeadsOn(h, calls0, mode0, data0, last, goal, st, rerun, calls, mode, Held());
        } else {
          st, rerun := Commands(last, goal);
          last := 0;
        }
        if !st.Fine? {
          return st;
        }
      }
    }
  }
}
