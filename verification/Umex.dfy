/** umex.c: URL Matching Expressions, their bytecode, compiler and matcher. */
module Umexes {
  import opened Globs
  import opened Urls

  // ---- Bytecode --------------------------------------------------------------

  const UMEX_SEARCH := 0x00
  const UMEX_STRMATCH8 := 0x01
  const UMEX_STRMATCH16 := 0x02
  const UMEX_STRFIND8 := 0x03
  const UMEX_STRFIND16 := 0x04
  const UMEX_STREND8 := 0x05
  const UMEX_STREND16 := 0x06
  const UMEX_STRBEGIN8 := 0x07
  const UMEX_STRBEGIN16 := 0x08
  const UMEX_ALWAYSMATCH := 0x09

  /** Part identifiers; the codes are those after UMEX_SEARCH. */
  datatype Part = FULL | PATH | HOST | FILE

  function PartCode(p: Part): int {
    match p case FULL => 0 case PATH => 1 case HOST => 2 case FILE => 4
  }

  datatype Kind = Exact | Find | End | Begin

  datatype Instr =
    | Search(part: Part)
    | Always
    | Str(kind: Kind, lit: seq<int>, wide: bool)

  /** A program: the instructions in order. */
  datatype Code = Halt | Then(i: Instr, rest: Code)

  function Op(k: Kind, wide: bool): int {
    match k
    case Exact => if wide then UMEX_STRMATCH16 else UMEX_STRMATCH8
    case Find => if wide then UMEX_STRFIND16 else UMEX_STRFIND8
    case End => if wide then UMEX_STREND16 else UMEX_STREND8
    case Begin => if wide then UMEX_STRBEGIN16 else UMEX_STRBEGIN8
  }

  /** The opcode and the length byte or bytes (high, then low) before a literal. */
  function StrHeader(k: Kind, n: nat, wide: bool): seq<int> {
    if wide then [Op(k, wide), n / 256 % 256, n % 256] else [Op(k, wide), n % 256]
  }

  function Assemble1(i: Instr): seq<int> {
    match i
    case Search(p) => [UMEX_SEARCH, PartCode(p)]
    case Always => [UMEX_ALWAYSMATCH]
    case Str(k, l, w) => StrHeader(k, |l|, w) + l
  }

  function Assemble(code: Code): seq<int> {
    match code
    case Halt => []
    case Then(i, rest) => Assemble1(i) + Assemble(rest)
  }

  function Join(a: Code, b: Code): Code {
    match a
    case Halt => b
    case Then(i, rest) => Then(i, Join(rest, b))
  }

  /** A length byte read back through a signed char into an unsigned short. */
  function ReadLen(b: int): int { if b < 0x80 then b else b + 0xFF00 }

  /** umex_match reads the length the compiler wrote.  For the 16-bit forms it
      overwrites the high byte with the low one. */
  predicate Encodable(i: Instr) {
    i.Str? ==> ReadLen(|i.lit| % 256) == |i.lit|
  }

  predicate AllEncodable(code: Code) {
    code.Then? ==> Encodable(code.i) && AllEncodable(code.rest)
  }

  /** Which literal lengths survive the round trip through the bytecode. */
  lemma LengthRoundTrip(n: nat)
    requires n <= 0xFFFF
    ensures ReadLen(n % 256) == n <==> n <= 127 || 65408 <= n
  {}

  lemma {:induction false} AssembleJoin(a: Code, b: Code)
    ensures Assemble(Join(a, b)) == Assemble(a) + Assemble(b)
    decreases a
  {
    match a
    case Halt => assert [] + Assemble(b) == Assemble(b);
    case Then(i, rest) =>
      AssembleJoin(rest, b);
      assert Assemble1(i) + (Assemble(rest) + Assemble(b)) == Assemble1(i) + Assemble(rest) + Assemble(b);
  }

  // ---- Compiler ----------------------------------------------------------------

  /** A literal is skipped when empty; it gets the 16-bit form above 255 bytes. */
  function Literal(k: Kind, l: seq<int>, rest: Code): Code {
    if l == [] then rest else Then(Str(k, l, |l| > 255), rest)
  }

  /** The code of the pattern from i on, where the previous token was a star or not. */
  function Segments(p: seq<int>, i: nat, wild: bool): Code
    requires i <= |p|
    decreases |p| - i
  {
    var k := FirstStar(p, i);
    if k == |p| then Literal(if wild then End else Exact, p[i..k], Halt)
    else Literal(if wild then Find else Begin, p[i..k], Segments(p, k + 1, true))
  }

  function CompilePart(p: seq<int>): Code {
    if p == [STAR] then Then(Always, Halt) else Segments(p, 0, false)
  }

  /** Patterns of the modelled domain: no NUL, no backslash, no bracket. */
  predicate Plain(p: seq<int>) {
    forall i :: 0 <= i < |p| ==> 1 <= p[i] <= 0xFF && p[i] != '[' as int && p[i] != '\\' as int
  }

  lemma FirstStarIs(p: seq<int>, i: nat, k: nat)
    requires i <= k <= |p| && NoStar(p, i, k) && (k < |p| ==> p[k] == STAR)
    ensures FirstStar(p, i) == k
  {
    var f := FirstStar(p, i);
    assert f < k ==> i <= f < k;
  }

  ghost predicate ShowEmitted(bs: nat, z: int) { true }

  /** bin, then the code of p from bs on, is base, then the code of all of p; folded until
      ShowEmitted is mentioned for bs. */
  ghost predicate Emitted(bin: seq<int>, base: seq<int>, p: seq<int>, bs: nat, wild: bool) {
    && bs <= |p|
    && forall z {:trigger ShowEmitted(bs, z)} :: ShowEmitted(bs, z) ==>
         bin + Assemble(Segments(p, bs, wild)) == base + Assemble(Segments(p, 0, false))
  }

  lemma EmitStart(base: seq<int>, p: seq<int>)
    ensures Emitted(base, base, p, 0, false)
  {
  }

  lemma EmitStar(bin: seq<int>, base: seq<int>, p: seq<int>, bs: nat, cs: nat, wild: bool)
    requires Emitted(bin, base, p, bs, wild) && bs <= cs < |p| && p[cs] == STAR && NoStar(p, bs, cs)
    ensures Emitted(bin + Assemble(Literal(if wild then Find else Begin, p[bs..cs], Halt)), base, p, cs + 1, true)
  {
    FirstStarIs(p, bs, cs);
    var lit := Literal(if wild then Find else Begin, p[bs..cs], Halt);
    var rest := Segments(p, cs + 1, true);
    assert Segments(p, bs, wild) == Join(lit, rest);
    AssembleJoin(lit, rest);
    Assoc(bin, Assemble(lit), Assemble(rest));
    assert ShowEmitted(bs, 0);
  }

  lemma EmitEnd(bin: seq<int>, base: seq<int>, p: seq<int>, bs: nat, wild: bool)
    requires Emitted(bin, base, p, bs, wild) && NoStar(p, bs, |p|)
    ensures bin + Assemble(Literal(if wild then End else Exact, p[bs..|p|], Halt)) == base + Assemble(Segments(p, 0, false))
  {
    FirstStarIs(p, bs, |p|);
    assert ShowEmitted(bs, 0);
  }

  lemma Assoc(a: seq<int>, b: seq<int>, c: seq<int>)
    ensures a + (b + c) == a + b + c
  {}

  lemma LiteralBytes(bin: seq<int>, k: Kind, l: seq<int>)
    ensures bin + Assemble(Literal(k, l, Halt)) == if l == [] then bin else bin + StrHeader(k, |l|, |l| > 255) + l
  {
    if l != [] {
      assert Assemble(Literal(k, l, Halt)) == StrHeader(k, |l|, |l| > 255) + l + [];
    }
  }

  lemma AlwaysBytes(p: seq<int>)
    requires |p| == 1 && p[0] == STAR
    ensures p == [STAR] && Assemble(CompilePart(p)) == [UMEX_ALWAYSMATCH]
  {}

  /** struct umex, while it is being compiled. */
  class Umex {
    var bin: seq<int>

    constructor ()
      ensures bin == []
    {
      bin := [];
    }

    method EmitLiteral(k: Kind, l: seq<int>)
      modifies this
      ensures bin == old(bin) + Assemble(Literal(k, l, Halt))
    {
      LiteralBytes(bin, k, l);
      if |l| != 0 {
        if |l| <= 255 {
          bin := bin + [Op(k, false), |l| % 256];
        } else {
          bin := bin + [Op(k, true), |l| / 256 % 256, |l| % 256];
        }
        bin := bin + l;
      }
    }

    /** u_compile_str: one part, scanned once from left to right. */
    method CompileStr(p: seq<int>)
      requires Plain(p)
      modifies this
      ensures bin == old(bin) + Assemble(CompilePart(p))
    {
      if |p| == 1 && p[0] == STAR {
        AlwaysBytes(p);
        bin := bin + [UMEX_ALWAYSMATCH];
        return;
      }
      Scan(p);
    }

    method Scan(p: seq<int>)
      modifies this
      ensures bin == old(bin) + Assemble(Segments(p, 0, false))
    {
      ghost var base := bin;
      var cs, bs, wildPrev := 0, 0, false;
      EmitStart(base, p);
      while true
        invariant 0 <= bs <= cs <= |p| && NoStar(p, bs, cs)
        invariant Emitted(bin, base, p, bs, wildPrev)
        decreases |p| - cs
      {
        if cs == |p| {
          LastSegment(p, bs, wildPrev, base);
          return;
        }
        if p[cs] == STAR {
          StarSegment(p, bs, cs, wildPrev, base);
          wildPrev := true;
          bs := cs + 1;
        }
        cs := cs + 1;
      }
    }

    method StarSegment(p: seq<int>, bs: nat, cs: nat, wildPrev: bool, ghost base: seq<int>)
      requires Emitted(bin, base, p, bs, wildPrev) && bs <= cs < |p| && p[cs] == STAR && NoStar(p, bs, cs)
      modifies this
      ensures Emitted(bin, base, p, cs + 1, true)
    {
      EmitStar(bin, base, p, bs, cs, wildPrev);
      EmitLiteral(if wildPrev then Find else Begin, p[bs..cs]);
    }

    method LastSegment(p: seq<int>, bs: nat, wildPrev: bool, ghost base: seq<int>)
      requires Emitted(bin, base, p, bs, wildPrev) && NoStar(p, bs, |p|)
      modifies this
      ensures bin == base + Assemble(Segments(p, 0, false))
    {
      EmitEnd(bin, base, p, bs, wildPrev);
      EmitLiteral(if wildPrev then End else Exact, p[bs..|p|]);
    }
  }

  // ---- Matcher -------------------------------------------------------------------

  /** The URL's bytes as the matcher sees them, with the terminating NUL. */
  function Text(u: Url): seq<int> { u.str + [0] }

  function From(u: Url, p: Part): int {
    match p
    case HOST => u.hostO
    case FILE => u.fileO + 1
    case FULL => 0
    case PATH => u.hostL + u.hostO
  }

  function To(u: Url, p: Part): int {
    if p.HOST? then u.hostO + u.hostL else |u.str|
  }

  ghost predicate UrlOk(u: Url) {
    u.Valid() && forall i :: 0 <= i < |u.str| ==> 1 <= u.str[i] <= 0xFF
  }

  predicate InWindow(u: Url, a: int, b: int) {
    0 <= a <= |Text(u)| && 0 <= b <= |u.str|
  }

  /** memcmp with a literal: the NUL that ends the text differs from every
      literal byte, so a literal reaching past the text compares unequal. */
  predicate MemEq(t: seq<int>, at: int, lit: seq<int>) {
    0 <= at && OccursAt(t, at, |t|, lit)
  }

  /** What strstr finds in the window, or -1. */
  function FindIn(u: Url, a: int, b: int, lit: seq<int>): (c: int)
    requires InWindow(u, a, b)
    ensures c == -1 || (a <= c && c + |lit| <= b)
  {
    if |lit| > b - a then -1 else StrStr(Text(u), a, b, lit)
  }

  /** Where a string instruction that goes on leaves the position, or -1. */
  function Next(i: Instr, u: Url, a: int, b: int): (a': int)
    requires i.Str? && u.Valid() && InWindow(u, a, b)
    ensures a' == -1 || InWindow(u, a', b)
  {
    match i.kind
    case Exact => if a + |i.lit| == b && MemEq(Text(u), a, i.lit) then a + |i.lit| else -1
    case Begin => if MemEq(Text(u), a, i.lit) then a + |i.lit| else -1
    case Find => var c := FindIn(u, a, b, i.lit); if c == -1 then -1 else c + |i.lit|
    case End => -1
  }

  /** What running the instructions answers, with the window [a, b) of the text. */
  ghost predicate Run(code: Code, u: Url, a: int, b: int)
    requires u.Valid() && InWindow(u, a, b)
    decreases code
  {
    match code
    case Halt => true
    case Then(i, rest) =>
      match i
      case Search(p) => Run(rest, u, From(u, p), To(u, p))
      case Always => true
      case Str(k, l, _) =>
        if k.End? then |l| <= b - a && MemEq(Text(u), b - |l|, l)
        else Next(i, u, a, b) != -1 && Run(rest, u, Next(i, u, a, b), b)
  }

  /** Where the first instruction's parts are in the bytes. */
  ghost predicate Decoded(bin: seq<int>, s: nat, i: Instr, tail: seq<int>) {
    match i
    case Search(p) => s + 2 <= |bin| && bin[s] == UMEX_SEARCH && bin[s + 1] == PartCode(p) && bin[s + 2..] == tail
    case Always => s + 1 <= |bin| && bin[s] == UMEX_ALWAYSMATCH && bin[s + 1..] == tail
    case Str(k, l, w) =>
      var o := s + (if w then 2 else 1);
      && o + 1 + |l| <= |bin| && bin[s] == Op(k, w)
      && bin[o] == |l| % 256 && bin[o + 1..o + 1 + |l|] == l && bin[o + 1 + |l|..] == tail
  }

  lemma Slices(bin: seq<int>, s: nat, w: seq<int>, tail: seq<int>)
    requires s <= |bin| && bin[s..] == w + tail
    ensures s + |w| <= |bin| && bin[s..s + |w|] == w && bin[s + |w|..] == tail
    ensures forall k :: 0 <= k < |w| ==> bin[s + k] == w[k]
  {
    assert bin[s..][..|w|] == bin[s..s + |w|];
    assert bin[s..][|w|..] == bin[s + |w|..];
  }

  lemma DecodeStr(bin: seq<int>, s: nat, k: Kind, l: seq<int>, w: bool, tail: seq<int>)
    requires s <= |bin| && bin[s..] == StrHeader(k, |l|, w) + l + tail
    ensures Decoded(bin, s, Str(k, l, w), tail)
  {
    var h := StrHeader(k, |l|, w);
    assert bin[s..] == h + (l + tail);
    Slices(bin, s, h, l + tail);
    Slices(bin, s + |h|, l, tail);
    var o := |h| - 1;
    assert bin[s + 0] == h[0] == Op(k, w) && bin[s + o] == h[o] == |l| % 256;
  }

  lemma Decode(bin: seq<int>, s: nat, i: Instr, tail: seq<int>)
    requires s <= |bin| && bin[s..] == Assemble1(i) + tail
    ensures Decoded(bin, s, i, tail)
  {
    match i
    case Search(_) => Slices(bin, s, Assemble1(i), tail); assert bin[s + 0] == Assemble1(i)[0] && bin[s + 1] == Assemble1(i)[1];
    case Always => Slices(bin, s, Assemble1(i), tail); assert bin[s + 0] == Assemble1(i)[0];
    case Str(k, l, w) => DecodeStr(bin, s, k, l, w, tail);
  }

  lemma AssembleEmpty(code: Code)
    ensures Assemble(code) == [] <==> code.Halt?
  {}

  /** The bytes from s on are those of code, all lengths readable. */
  ghost predicate Standing(bin: seq<int>, s: nat, code: Code) {
    s <= |bin| && bin[s..] == Assemble(code) && AllEncodable(code)
  }

  lemma StandingDecodes(bin: seq<int>, s: nat, code: Code)
    requires code.Then? && Standing(bin, s, code)
    ensures Decoded(bin, s, code.i, Assemble(code.rest)) && Encodable(code.i) && AllEncodable(code.rest)
  {
    Decode(bin, s, code.i, Assemble(code.rest));
  }

  /** umex_match on a well-formed program: the bytes are decoded as written. */
  method Match(u: Url, bin: seq<int>, ghost code: Code) returns (r: bool)
    requires UrlOk(u) && code.Then? && code.i.Search?
    requires bin == Assemble(code) && AllEncodable(code)
    ensures r <==> Run(code, u, 0, 0)
  {
    var str, strEnd, s: nat, end := 0, 0, 0, |bin|;
    ghost var rest := code;
    assert bin[0..] == bin;
    while true
      invariant rest.Then? && Standing(bin, s, rest) && end == |bin| && InWindow(u, str, strEnd)
      invariant Run(code, u, 0, 0) <==> Run(rest, u, str, strEnd)
      decreases end - s
    {
      var ok, done;
      s, str, strEnd, ok, done := Step(u, bin, s, str, strEnd, rest);
      if done {
        return ok;
      }
      rest := rest.rest;
      AssembleEmpty(rest);
      if s >= end {
        return true;
      }
    }
  }

  /** The instruction at s0: either an answer, or the next instruction and window. */
  method Step(u: Url, bin: seq<int>, s0: nat, str0: int, strEnd0: int, ghost code: Code)
      returns (s: nat, str: int, strEnd: int, ok: bool, done: bool)
    requires UrlOk(u) && code.Then? && Standing(bin, s0, code) && InWindow(u, str0, strEnd0)
    ensures done ==> (ok <==> Run(code, u, str0, strEnd0))
    ensures !done ==> s0 < s && Standing(bin, s, code.rest) && InWindow(u, str, strEnd)
    ensures !done ==> (Run(code, u, str0, strEnd0) <==> Run(code.rest, u, str, strEnd))
  {
    StandingDecodes(bin, s0, code);
    ok, done := true, false;
    str, strEnd, s := str0, strEnd0, s0;
    if bin[s] == UMEX_SEARCH {
      str, strEnd := SearchPart(u, bin[s + 1], code.i.part);
      s := s + 2;
    } else if bin[s] == UMEX_ALWAYSMATCH {
      done := true;
    } else {
      s, str, ok, done := StrStep(u, bin, s, str, strEnd, code);
    }
  }

  /** A literal where the compiler put it. */
  lemma LiteralAt(bin: seq<int>, s: nat, i: Instr, tail: seq<int>)
    requires i.Str? && Decoded(bin, s, i, tail) && Encodable(i)
    ensures var o := s + (if i.wide then 2 else 1);
      && o + 1 + |i.lit| <= |bin| && bin[s] == Op(i.kind, i.wide)
      && ReadLen(bin[o]) == |i.lit| && bin[o + 1..o + 1 + |i.lit|] == i.lit && bin[o + 1 + |i.lit|..] == tail
  {
  }

  /** An instruction with a literal. */
  method StrStep(u: Url, bin: seq<int>, s0: nat, str0: int, strEnd: int, ghost code: Code)
      returns (s: nat, str: int, ok: bool, done: bool)
    requires UrlOk(u) && code.Then? && code.i.Str? && InWindow(u, str0, strEnd)
    requires Decoded(bin, s0, code.i, Assemble(code.rest)) && Encodable(code.i) && AllEncodable(code.rest)
    ensures done ==> (ok <==> Run(code, u, str0, strEnd))
    ensures !done ==> s0 < s && Standing(bin, s, code.rest) && InWindow(u, str, strEnd)
    ensures !done ==> (Run(code, u, str0, strEnd) <==> Run(code.rest, u, str, strEnd))
  {
    LiteralAt(bin, s0, code.i, Assemble(code.rest));
    var op := bin[s0];
    OpKind(code.i.kind, code.i.wide);
    var wide := op in {UMEX_STRMATCH16, UMEX_STREND16, UMEX_STRBEGIN16, UMEX_STRFIND16};
    s := if wide then s0 + 2 else s0 + 1;   // the high byte is overwritten
    var len := ReadLen(bin[s]);
    s := s + 1;
    var lit := bin[s..s + len];
    assert code == Then(Str(code.i.kind, lit, code.i.wide), code.rest);
    ok, done, str := Compare(u, str0, strEnd, op, lit, code.i.kind, code.i.wide, code.rest);
    s := s + len;
  }

  /** The UMEX_SEARCH case of umex_match. */
  method SearchPart(u: Url, c: int, ghost p: Part) returns (str: int, strEnd: int)
    requires c == PartCode(p) && u.Valid()
    ensures str == From(u, p) && strEnd == To(u, p)
  {
    match c {
      case 2 => str, strEnd := u.hostO, u.hostO + u.hostL;
      case 4 => str, strEnd := u.fileO + 1, |u.str|;
      case 0 => str, strEnd := 0, |u.str|;
      case _ => str, strEnd := u.hostL + u.hostO, |u.str|;
    }
  }

  /** The string cases of umex_match: either an answer, or the new position. */
  method Compare(u: Url, str: int, strEnd: int, op: int, lit: seq<int>, ghost k: Kind, ghost w: bool, ghost rest: Code)
    returns (ok: bool, done: bool, str': int)
    requires u.Valid() && InWindow(u, str, strEnd) && op == Op(k, w)
    ensures !done ==> InWindow(u, str', strEnd)
    ensures Run(Then(Str(k, lit, w), rest), u, str, strEnd) <==>
      if done then ok else Run(rest, u, str', strEnd)
  {
    OpKind(k, w);
    var t, len := Text(u), |lit|;
    ok, done, str' := false, true, str;
    if op in {UMEX_STRMATCH8, UMEX_STRMATCH16} {
      if str + len == strEnd && MemEq(t, str, lit) {
        done, str' := false, str + len;
      }
    } else if op in {UMEX_STREND8, UMEX_STREND16} {
      ok := len <= strEnd - str && MemEq(t, strEnd - len, lit);
    } else if op in {UMEX_STRBEGIN8, UMEX_STRBEGIN16} {
      if MemEq(t, str, lit) {
        done, str' := false, str + len;
      }
    } else if len <= strEnd - str {
      var ret := FindIn(u, str, strEnd, lit);
      if ret != -1 {
        done, str' := false, ret + len;
      }
    }
  }

  lemma OpKind(k: Kind, w: bool)
    ensures var op := Op(k, w);
      && (op in {UMEX_STRMATCH8, UMEX_STRMATCH16} <==> k.Exact?)
      && (op in {UMEX_STREND8, UMEX_STREND16} <==> k.End?)
      && (op in {UMEX_STRBEGIN8, UMEX_STRBEGIN16} <==> k.Begin?)
      && (op in {UMEX_STRMATCH16, UMEX_STREND16, UMEX_STRBEGIN16, UMEX_STRFIND16} <==> w)
  {}

  // ---- The compiler preserves meaning ----------------------------------------------

  /** The window of a part holds what the pattern, from i on, matches. */
  ghost predicate Matches(p: seq<int>, i: nat, u: Url, a: int, b: int)
    requires i <= |p| && 0 <= a <= b <= |u.str|
  {
    GlobAt(p, i, Text(u), a, b)
  }

  lemma EndMeaning(p: seq<int>, i: nat, u: Url, a: int, b: int)
    requires u.Valid() && 0 <= a <= b <= |u.str| && i < |p| && p[i] == STAR && NoStar(p, i + 1, |p|)
    ensures Run(Literal(End, p[i + 1..|p|], Halt), u, a, b) <==> Matches(p, i, u, a, b)
  {
    GlobSuffix(p, i, Text(u), a, b);
    var n := |p| - i - 1;
    if n <= b - a {
      LitOccurs(p, i + 1, |p|, Text(u), b - n, |Text(u)|);
    }
  }

  lemma FindNext(l: seq<int>, wide: bool, rest: Code, u: Url, a: int, b: int, c: int)
    requires u.Valid() && 0 <= a <= b <= |u.str| && c == StrStr(Text(u), a, b, l)
    ensures c != -1 ==> a <= c && c + |l| <= b
    ensures c != -1 ==> (Run(Then(Str(Find, l, wide), rest), u, a, b) <==> Run(rest, u, c + |l|, b))
    ensures c == -1 ==> !Run(Then(Str(Find, l, wide), rest), u, a, b)
  {
    assert FindIn(u, a, b, l) == c;
  }

  /** A literal between two stars is searched for. */
  lemma FindRuns(p: seq<int>, i: nat, k: nat, u: Url, a: int, b: int, c: int)
    requires u.Valid() && 0 <= a <= b <= |u.str| && i < |p| && k == FirstStar(p, i + 1) && i + 1 < k < |p|
    requires c == StrStr(Text(u), a, b, p[i + 1..k])
    ensures c != -1 ==> a <= c && c + (k - i - 1) <= b
    ensures c != -1 ==> (Run(Segments(p, i + 1, true), u, a, b) <==> Run(Segments(p, k + 1, true), u, c + (k - i - 1), b))
    ensures c == -1 ==> !Run(Segments(p, i + 1, true), u, a, b)
  {
    var l, rest := p[i + 1..k], Segments(p, k + 1, true);
    FindCode(p, i, k);
    FindNext(l, |l| > 255, rest, u, a, b, c);
  }

  lemma FindCode(p: seq<int>, i: nat, k: nat)
    requires i < |p| && k == FirstStar(p, i + 1) && i + 1 < k < |p|
    ensures Segments(p, i + 1, true) == Then(Str(Find, p[i + 1..k], k - i - 1 > 255), Segments(p, k + 1, true))
  {
  }

  lemma StarStar(p: seq<int>, i: nat, u: Url, a: int, b: int)
    requires u.Valid() && 0 <= a <= b <= |u.str| && i + 1 < |p| && p[i] == STAR && p[i + 1] == STAR
    ensures Segments(p, i + 1, true) == Segments(p, i + 2, true)
    ensures Matches(p, i, u, a, b) <==> Matches(p, i + 1, u, a, b)
  {
    GreedyFind(p, i, i + 1, Text(u), a, b);
    assert p[i + 1..i + 1] == [] && StrStr(Text(u), a, b, []) == a;
  }

  lemma FindMatches(p: seq<int>, i: nat, k: nat, u: Url, a: int, b: int, c: int)
    requires u.Valid() && 0 <= a <= b <= |u.str| && i < k < |p| && p[i] == STAR && p[k] == STAR && NoStar(p, i + 1, k)
    requires c == StrStr(Text(u), a, b, p[i + 1..k])
    ensures Matches(p, i, u, a, b) <==> c != -1 && Matches(p, k, u, c + (k - i - 1), b)
  {
    GreedyFind(p, i, k, Text(u), a, b);
  }

  /** After the star at i: the rest of the code accepts the window iff the glob does. */
  lemma {:induction false} WildSegments(p: seq<int>, i: nat, u: Url, a: int, b: int)
    requires u.Valid() && 0 <= a <= b <= |u.str| && i < |p| && p[i] == STAR
    ensures Run(Segments(p, i + 1, true), u, a, b) <==> Matches(p, i, u, a, b)
    decreases |p| - i
  {
    var k := FirstStar(p, i + 1);
    if k == |p| {
      EndMeaning(p, i, u, a, b);
    } else if k == i + 1 {
      StarStar(p, i, u, a, b);
      WildSegments(p, k, u, a, b);
    } else {
      var c := StrStr(Text(u), a, b, p[i + 1..k]);
      FindMatches(p, i, k, u, a, b, c);
      FindRuns(p, i, k, u, a, b, c);
      if c != -1 {
        WildSegments(p, k, u, c + (k - i - 1), b);
      }
    }
  }

  /** Only stars are left. */
  predicate AllStars(p: seq<int>, i: nat) { forall x :: i <= x < |p| ==> p[x] == STAR }

  lemma {:induction false} StarsRun(p: seq<int>, i: nat, u: Url, a: int, b: int)
    requires u.Valid() && 0 <= b < a <= |Text(u)| && b <= |u.str| && i <= |p|
    ensures Run(Segments(p, i, true), u, a, b) <==> AllStars(p, i)
    decreases |p| - i
  {
    var k := FirstStar(p, i);
    if k == i && i < |p| {
      assert p[i..k] == [];
      StarsRun(p, i + 1, u, a, b);
    }
  }

  /** A literal that starts the pattern, is longer than the window, and is followed by
      stars only: the comparison runs over the window's end, up to the text's NUL. */
  ghost predicate Overrun(p: seq<int>, u: Url, a: int, b: int)
    requires 0 <= a <= b <= |u.str|
  {
    var k, t := FirstStar(p, 0), u.str + [0];
    b - a < k < |p| && a + k <= |t| && p[..k] == t[a..a + k] && AllStars(p, k)
  }

  lemma MemEqIs(u: Url, a: nat, lit: seq<int>)
    ensures MemEq(Text(u), a, lit) <==> a + |lit| <= |u.str| + 1 && lit == (u.str + [0])[a..a + |lit|]
  {
    if a + |lit| <= |u.str| + 1 && lit == (u.str + [0])[a..a + |lit|] {
      forall x | 0 <= x < |lit| ensures Text(u)[a + x] == lit[x] {
        assert lit[x] == (u.str + [0])[a..a + |lit|][x];
      }
    }
  }

  /** A literal at the start, then the code after the star. */
  lemma BeginRuns(p: seq<int>, u: Url, a: int, b: int, k: nat)
    requires u.Valid() && 0 <= a <= b <= |u.str| && k == FirstStar(p, 0) && 0 < k < |p|
    ensures MemEq(Text(u), a, p[..k]) ==>
      (Run(Segments(p, 0, false), u, a, b) <==> Run(Segments(p, k + 1, true), u, a + k, b))
    ensures !MemEq(Text(u), a, p[..k]) ==> !Run(Segments(p, 0, false), u, a, b)
  {
    assert p[0..k] == p[..k];
    assert Segments(p, 0, false) == Then(Str(Begin, p[..k], k > 255), Segments(p, k + 1, true));
  }

  lemma BeginMatches(p: seq<int>, u: Url, a: int, b: int, k: nat)
    requires u.Valid() && 0 <= a <= b <= |u.str| && k == FirstStar(p, 0) && 0 < k < |p|
    ensures Matches(p, 0, u, a, b) <==> a + k <= b && MemEq(Text(u), a, p[..k]) && Matches(p, k, u, a + k, b)
  {
    assert p[0..k] == p[..k];
    GlobLiteral(p, 0, k, Text(u), a, b);
    if a + k <= b {
      LitOccurs(p, 0, k, Text(u), a, |Text(u)|);
    }
  }

  lemma BeginFits(p: seq<int>, u: Url, a: int, b: int, k: nat)
    requires u.Valid() && 0 <= a <= b <= |u.str| && k == FirstStar(p, 0) && 0 < k < |p|
    requires MemEq(Text(u), a, p[..k]) && a + k <= b
    ensures Run(Segments(p, 0, false), u, a, b) <==> Matches(p, 0, u, a, b)
  {
    BeginRuns(p, u, a, b, k);
    BeginMatches(p, u, a, b, k);
    WildSegments(p, k, u, a + k, b);
  }

  lemma BeginOverruns(p: seq<int>, u: Url, a: int, b: int, k: nat)
    requires u.Valid() && 0 <= a <= b <= |u.str| && k == FirstStar(p, 0) && 0 < k < |p|
    requires MemEq(Text(u), a, p[..k]) && b < a + k
    ensures Run(Segments(p, 0, false), u, a, b) <==> Overrun(p, u, a, b)
  {
    BeginRuns(p, u, a, b, k);
    StarsRun(p, k + 1, u, a + k, b);
    MemEqIs(u, a, p[..k]);
  }

  lemma BeginMeaning(p: seq<int>, u: Url, a: int, b: int)
    requires u.Valid() && 0 <= a <= b <= |u.str| && 0 < FirstStar(p, 0) < |p|
    ensures Run(Segments(p, 0, false), u, a, b) <==> Matches(p, 0, u, a, b) || Overrun(p, u, a, b)
  {
    var k := FirstStar(p, 0);
    BeginMatches(p, u, a, b, k);
    MemEqIs(u, a, p[..k]);
    if !MemEq(Text(u), a, p[..k]) {
      BeginRuns(p, u, a, b, k);
    } else if a + k <= b {
      BeginFits(p, u, a, b, k);
    } else {
      BeginOverruns(p, u, a, b, k);
    }
  }

  lemma PartMatches(p: seq<int>, u: Url, a: int, b: int)
    requires UrlOk(u) && 0 <= a <= b <= |u.str|
    ensures Run(CompilePart(p), u, a, b) <==> p == [] || Matches(p, 0, u, a, b) || Overrun(p, u, a, b)
  {
    var k, t := FirstStar(p, 0), Text(u);
    if p == [STAR] {
      GlobSuffix(p, 0, t, a, b);
    } else if k == |p| {
      GlobLiteral(p, 0, k, t, a, b);
      if a + k <= b { LitOccurs(p, 0, k, t, a, |t|); }
    } else if k == 0 {
      assert p[0..k] == [];
      WildSegments(p, 0, u, a, b);
    } else {
      BeginMeaning(p, u, a, b);
    }
  }

  /** What the pattern of a part says of the URL's bytes from a to b: the empty pattern accepts
      everything, and a literal can overrun. */
  ghost predicate Holds(p: seq<int>, u: Url, a: int, b: int)
    requires 0 <= a <= b <= |u.str|
  {
    p == [] || Glob(p, u.str[a..b]) || Overrun(p, u, a, b)
  }

  /** The code of a part accepts a window iff the glob does, except for the
      empty pattern, which accepts everything, and for an overrun. */
  lemma PartMeaning(p: seq<int>, u: Url, a: int, b: int)
    requires UrlOk(u) && 0 <= a <= b <= |u.str|
    ensures Run(CompilePart(p), u, a, b) <==> Holds(p, u, a, b)
  {
    PartMatches(p, u, a, b);
    GlobAtIs(p, 0, Text(u), a, b);
    assert Text(u)[a..b] == u.str[a..b] && p[0..] == p;
  }

  /** A HOST pattern of "h", a slash and a star accepts the host h: the slash it compares
      with is that of the path. */
  lemma HostOverruns()
    ensures var u, p := Url(Bytes("ftp://h/"), 6, 1, 7), Bytes("h/*");
      UrlOk(u) && Plain(p) && Overrun(p, u, 6, 7)
      && Run(Then(Search(HOST), CompilePart(p)), u, 0, 0)
      && u.str[6..7] == Bytes("h") && !Glob(p, u.str[6..7])
  {
    var u, p := Url(Bytes("ftp://h/"), 6, 1, 7), Bytes("h/*");
    FirstStarIs(p, 0, 2);
    assert p[..2] == (u.str + [0])[6..8];
    PartMeaning(p, u, 6, 7);
    assert u.str[6..7] == [p[0]] && p[1] != STAR;
  }

  function Bytes(s: string): (b: seq<int>)
    ensures |b| == |s|
  {
    seq(|s|, i requires 0 <= i < |s| => s[i] as int)
  }

  lemma MemEqAt(t: seq<int>, a: int, lit: seq<int>, i: nat)
    requires MemEq(t, a, lit) && i < |lit|
    ensures t[a + i] == lit[i]
  {}

  /** No literal can overrun a window that reaches to the end of the URL. */
  lemma NoOverrun(p: seq<int>, u: Url, a: nat)
    requires UrlOk(u) && Plain(p) && a <= |u.str|
    ensures !Overrun(p, u, a, |u.str|)
  {
    var k, n := FirstStar(p, 0), |u.str| - a;
    if n < k && a + k <= |u.str| + 1 {
      assert (u.str + [0])[a..a + k][n] == 0 && p[..k][n] == p[n];
    }
  }

  lemma ToTheEnd(part: Part, p: seq<int>, u: Url, a: nat)
    requires UrlOk(u) && Plain(p) && p != [] && a == From(u, part) <= To(u, part) == |u.str|
    ensures Run(Then(Search(part), CompilePart(p)), u, 0, 0) <==> Glob(p, u.str[a..])
  {
    NoOverrun(p, u, a);
    PartMeaning(p, u, a, |u.str|);
    assert u.str[a..] == u.str[a..|u.str|];
  }

  /** A compiled FULL, FILE or PATH pattern accepts exactly the URLs of which the whole, the
      part after the last slash, or the part after the host matches its glob. */
  lemma SinglePart(p: seq<int>, u: Url)
    requires UrlOk(u) && Plain(p) && p != []
    ensures Run(Then(Search(FULL), CompilePart(p)), u, 0, 0) <==> Glob(p, u.str)
    ensures Run(Then(Search(FILE), CompilePart(p)), u, 0, 0) <==> Glob(p, u.str[u.fileO + 1..])
    ensures Run(Then(Search(PATH), CompilePart(p)), u, 0, 0) <==> Glob(p, u.str[u.hostO + u.hostL..])
  {
    ToTheEnd(FULL, p, u, 0);
    ToTheEnd(FILE, p, u, u.fileO + 1);
    ToTheEnd(PATH, p, u, u.hostO + u.hostL);
    assert u.str[0..] == u.str;
  }

  // ---- Literal lengths ---------------------------------------------------------------

  /** Every run of characters between stars has a length that survives its
      one or two bytes of bytecode. */
  predicate Readable(p: seq<int>, i: nat)
    requires i <= |p|
    decreases |p| - i
  {
    var k := FirstStar(p, i);
    ReadLen((k - i) % 256) == k - i && (k < |p| ==> Readable(p, k + 1))
  }

  lemma LiteralEncodable(k: Kind, l: seq<int>, rest: Code)
    ensures AllEncodable(Literal(k, l, rest)) <==> ReadLen(|l| % 256) == |l| && AllEncodable(rest)
  {
  }

  lemma {:induction false} ReadableEncodable(p: seq<int>, i: nat, wild: bool)
    requires i <= |p|
    ensures AllEncodable(Segments(p, i, wild)) <==> Readable(p, i)
    decreases |p| - i
  {
    var k := FirstStar(p, i);
    if k < |p| {
      ReadableEncodable(p, k + 1, true);
      LiteralEncodable(if wild then Find else Begin, p[i..k], Segments(p, k + 1, true));
    } else {
      LiteralEncodable(if wild then End else Exact, p[i..k], Halt);
    }
  }

  // ---- Patterns of several parts --------------------------------------------------------

  datatype PartPattern = PartPattern(part: Part, pat: seq<int>)

  function Program(ps: seq<PartPattern>): Code {
    if ps == [] then Halt
    else Then(Search(ps[0].part), Join(CompilePart(ps[0].pat), Program(ps[1..])))
  }

  /** A part whose code answers before the next part is looked at: a lone star,
      or a pattern that ends in a literal after a star. */
  predicate AnswersEarly(p: seq<int>) {
    p == [STAR] || (FirstStar(p, 0) < |p| && p[|p| - 1] != STAR)
  }

  /** What each part of a URL is, and that it satisfies its pattern. */
  ghost predicate PartAccepts(pp: PartPattern, u: Url)
    requires UrlOk(u)
  {
    match pp.part
    case FULL => Holds(pp.pat, u, 0, |u.str|)
    case PATH => Holds(pp.pat, u, u.hostO + u.hostL, |u.str|)
    case HOST => Holds(pp.pat, u, u.hostO, u.hostO + u.hostL)
    case FILE => Holds(pp.pat, u, u.fileO + 1, |u.str|)
  }

  /** Code that starts with a search does not depend on the window before it. */
  predicate Restarts(d: Code) { d.Halt? || d.i.Search? }

  predicate SearchFree(c: Code) { c.Then? ==> !c.i.Search? && SearchFree(c.rest) }

  /** The code holds an instruction that answers at once. */
  predicate Early(c: Code) {
    c.Then? && (c.i.Always? || (c.i.Str? && c.i.kind.End?) || Early(c.rest))
  }

  lemma RunRestart(d: Code, u: Url, a: int, b: int, a': int, b': int)
    requires u.Valid() && InWindow(u, a, b) && InWindow(u, a', b') && Restarts(d)
    ensures Run(d, u, a, b) <==> Run(d, u, a', b')
  {}

  /** Code followed by code that searches anew. */
  lemma {:induction false} RunJoin(c: Code, d: Code, u: Url, a: int, b: int)
    requires u.Valid() && InWindow(u, a, b) && Restarts(d) && SearchFree(c)
    ensures Run(Join(c, d), u, a, b) <==> Run(c, u, a, b) && (Early(c) || Run(d, u, 0, 0))
    decreases c
  {
    if c.Halt? {
      RunRestart(d, u, a, b, 0, 0);
    } else if c.i.Str? && Next(c.i, u, a, b) != -1 {
      RunJoin(c.rest, d, u, Next(c.i, u, a, b), b);
    }
  }

  lemma {:induction false} EarlySegments(p: seq<int>, i: nat, wild: bool)
    requires i <= |p|
    ensures SearchFree(Segments(p, i, wild))
    ensures Early(Segments(p, i, wild)) <==> i < |p| && p[|p| - 1] != STAR && (wild || FirstStar(p, i) < |p|)
    decreases |p| - i
  {
    var k := FirstStar(p, i);
    if k < |p| { EarlySegments(p, k + 1, true); }
  }

  /** How many parts of a pattern are consulted. */
  function Consulted(ps: seq<PartPattern>): (n: nat)
    ensures n <= |ps|
  {
    if ps == [] then 0
    else if AnswersEarly(ps[0].pat) then 1
    else 1 + Consulted(ps[1..])
  }

  ghost predicate Accepts(ps: seq<PartPattern>, u: Url)
    requires UrlOk(u)
  {
    forall i :: 0 <= i < Consulted(ps) ==> PartAccepts(ps[i], u)
  }

  lemma AcceptsFirst(ps: seq<PartPattern>, u: Url)
    requires UrlOk(u) && ps != []
    ensures Accepts(ps, u) <==> PartAccepts(ps[0], u) && (AnswersEarly(ps[0].pat) || Accepts(ps[1..], u))
  {
    var qs := ps[1..];
    if !AnswersEarly(ps[0].pat) {
      assert forall i :: 0 <= i < |qs| ==> qs[i] == ps[i + 1];
      if Accepts(ps, u) {
        forall i | 0 <= i < Consulted(qs) ensures PartAccepts(qs[i], u) { assert PartAccepts(ps[i + 1], u); }
      }
      if PartAccepts(ps[0], u) && Accepts(qs, u) {
        forall i | 0 <= i < Consulted(ps) ensures PartAccepts(ps[i], u) {
          if i > 0 { assert PartAccepts(qs[i - 1], u); }
        }
      }
    }
  }

  lemma EarlyPart(p: seq<int>)
    ensures SearchFree(CompilePart(p)) && (Early(CompilePart(p)) <==> AnswersEarly(p))
  {
    EarlySegments(p, 0, false);
  }

  lemma FirstPartRuns(ps: seq<PartPattern>, u: Url, a: int, b: int)
    requires UrlOk(u) && InWindow(u, a, b) && ps != []
    ensures Run(Program(ps), u, a, b) <==>
      PartAccepts(ps[0], u) && (AnswersEarly(ps[0].pat) || Run(Program(ps[1..]), u, 0, 0))
  {
    var p, f, t := ps[0].pat, From(u, ps[0].part), To(u, ps[0].part);
    EarlyPart(p);
    RunJoin(CompilePart(p), Program(ps[1..]), u, f, t);
    PartMeaning(p, u, f, t);
  }

  /** A pattern accepts a URL iff every part up to the first one that answers
      early accepts; later parts are never looked at. */
  lemma {:induction false} ProgramMeaning(ps: seq<PartPattern>, u: Url, a: int, b: int)
    requires UrlOk(u) && InWindow(u, a, b)
    ensures Run(Program(ps), u, a, b) <==> Accepts(ps, u)
    decreases |ps|
  {
    if ps != [] {
      FirstPartRuns(ps, u, a, b);
      AcceptsFirst(ps, u);
      ProgramMeaning(ps[1..], u, 0, 0);
    }
  }

  /** The parts of a pattern compiled one after the other, as umex_compile does
      once it has found the part identifiers and delimiters. */
  method CompileParts(ps: seq<PartPattern>) returns (x: Umex)
    requires forall i :: 0 <= i < |ps| ==> Plain(ps[i].pat)
    ensures fresh(x) && x.bin == Assemble(Program(ps))
  {
    x := new Umex();
    assert ps[0..] == ps && [] + Assemble(Program(ps)) == Assemble(Program(ps));
    for i := 0 to |ps|
      invariant fresh(x) && x.bin + Assemble(Program(ps[i..])) == Assemble(Program(ps))
    {
      ghost var b0, rest := x.bin, Program(ps[i + 1..]);
      assert ps[i..][1..] == ps[i + 1..];
      AssembleJoin(CompilePart(ps[i].pat), rest);
      x.bin := x.bin + [UMEX_SEARCH, PartCode(ps[i].part)];
      x.CompileStr(ps[i].pat);
      Assoc4(b0, [UMEX_SEARCH, PartCode(ps[i].part)], Assemble(CompilePart(ps[i].pat)), Assemble(rest));
    }
    assert ps[|ps|..] == [];
  }

  lemma {:induction false} EncodableJoin(a: Code, b: Code)
    ensures AllEncodable(Join(a, b)) <==> AllEncodable(a) && AllEncodable(b)
    decreases a
  {
    if a.Then? {
      EncodableJoin(a.rest, b);
    }
  }

  /** Every literal of every part has a length that survives the bytecode. */
  predicate AllReadable(ps: seq<PartPattern>) { forall i :: 0 <= i < |ps| ==> Readable(ps[i].pat, 0) }

  lemma {:induction false} ReadableProgram(ps: seq<PartPattern>)
    requires AllReadable(ps)
    ensures AllEncodable(Program(ps))
    decreases |ps|
  {
    if ps != [] {
      ReadableEncodable(ps[0].pat, 0, false);
      ReadableProgram(ps[1..]);
      EncodableJoin(CompilePart(ps[0].pat), Program(ps[1..]));
    }
  }

  /** From the bytes of a pattern to the answer: compiled and run, it accepts a URL iff the
      parts up to the first early answer accept it. */
  method CompileAndMatch(ps: seq<PartPattern>, u: Url) returns (r: bool)
    requires UrlOk(u) && ps != [] && AllReadable(ps) && forall i :: 0 <= i < |ps| ==> Plain(ps[i].pat)
    ensures r <==> Accepts(ps, u)
    ensures |ps| == 1 && ps[0].pat != [] ==>
      match ps[0].part
      case FULL => r <==> Glob(ps[0].pat, u.str)
      case PATH => r <==> Glob(ps[0].pat, u.str[u.hostO + u.hostL..])
      case HOST => r <==> Holds(ps[0].pat, u, u.hostO, u.hostO + u.hostL)
      case FILE => r <==> Glob(ps[0].pat, u.str[u.fileO + 1..])
  {
    var x := CompileParts(ps);
    ReadableProgram(ps);
    r := Match(u, x.bin, Program(ps));
    ProgramMeaning(ps, u, 0, 0);
    if |ps| == 1 && ps[0].pat != [] {
      OnlyPart(ps[0], u);
      assert ps == [ps[0]];
    }
  }

  lemma OnlyPart(pp: PartPattern, u: Url)
    requires UrlOk(u) && Plain(pp.pat) && pp.pat != []
    ensures match pp.part
      case FULL => Accepts([pp], u) <==> Glob(pp.pat, u.str)
      case PATH => Accepts([pp], u) <==> Glob(pp.pat, u.str[u.hostO + u.hostL..])
      case HOST => Accepts([pp], u) <==> Holds(pp.pat, u, u.hostO, u.hostO + u.hostL)
      case FILE => Accepts([pp], u) <==> Glob(pp.pat, u.str[u.fileO + 1..])
  {
    AcceptsFirst([pp], u);
    NoOverrun(pp.pat, u, 0);
    NoOverrun(pp.pat, u, u.hostO + u.hostL);
    NoOverrun(pp.pat, u, u.fileO + 1);
    assert u.str[0..|u.str|] == u.str;
  }

  lemma Assoc4(a: seq<int>, b: seq<int>, c: seq<int>, d: seq<int>)
    ensures a + (b + (c + d)) == a + b + c + d
  {}

  // ---- robots.txt prefixes -----------------------------------------------------------------

  function PrefixCode(str: seq<int>): Code {
    Then(Search(PATH), Then(Str(Begin, str, true), Halt))
  }

  /** umex_explicit_strstart: PATH<str*> without going through the compiler. */
  method ExplicitStrStart(str: seq<int>) returns (bin: seq<int>)
    requires |str| <= 0xFFFF
    ensures bin == Assemble(PrefixCode(str))
  {
    bin := [UMEX_SEARCH, 1, UMEX_STRBEGIN16, |str| / 256, |str| % 256];
    bin := bin + str;
    assert StrHeader(Begin, |str|, true) == [UMEX_STRBEGIN16, |str| / 256, |str| % 256];
    assert Assemble(PrefixCode(str).rest) == (StrHeader(Begin, |str|, true) + str) + [];
    assert Assemble(PrefixCode(str)) == [UMEX_SEARCH, 1] + ((StrHeader(Begin, |str|, true) + str) + []);
  }

  /** The path of a URL, from the '/' after the host. */
  function PathOf(u: Url): seq<int>
    requires u.Valid()
  {
    u.str[u.hostO + u.hostL..]
  }

  /** A prefix program accepts exactly the URLs whose path starts with the prefix. */
  lemma PrefixMeaning(str: seq<int>, u: Url)
    requires UrlOk(u) && forall k :: 0 <= k < |str| ==> 1 <= str[k] <= 0xFF
    ensures Run(PrefixCode(str), u, 0, 0) <==> str <= u.str[u.hostO + u.hostL..]
  {
    var a, t := From(u, PATH), Text(u);
    assert Run(PrefixCode(str), u, 0, 0) <==> MemEq(t, a, str) by {
      assert Run(PrefixCode(str).rest, u, a, To(u, PATH)) <==> MemEq(t, a, str);
    }
    if MemEq(t, a, str) {
      if a + |str| > |u.str| { MemEqAt(t, a, str, |u.str| - a); }
      assert forall x :: 0 <= x < |str| ==> PathOf(u)[x] == t[a + x];
    }
    if str <= PathOf(u) {
      assert forall x :: 0 <= x < |str| ==> t[a + x] == PathOf(u)[x] == str[x];
    }
  }
}
