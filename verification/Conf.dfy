/** conf.c: the configuration parser.  One loop looks at a character at a time; blanks and
    comments are skipped in every state, and anything else is handled by the state. */
module Confs {
  import opened Helpers

  datatype ValType = UINT | ARRAY | STRING | EXTRA | FLAG

  /** An option; `stored` says that its table entry has a place or a callback. */
  datatype Opt = Opt(name: string, typ: ValType, stored: bool)

  /** A class; `flags` says that its objects have a flags member. */
  datatype Class = Class(name: string, opts: seq<Opt>, flags: bool)

  datatype Scope = Scope(name: string, opts: seq<Opt>)

  /** What the parser does to the outside, on the object at hand. */
  datatype Call =
    | Construct(cls: nat, name: string)
    | Find(cls: nat, name: string)
    | Zero(cls: nat)
    | Copy(cls: nat)
    | Add(cls: nat)
    | Store(opt: nat, text: string)
    | Set(opt: nat, text: string)
    | StoreUint(opt: nat, n: nat)
    | SetFlag(opt: nat)
    | SetArray(opt: nat, items: seq<string>)
    | Directive(dir: nat, arg: string)

  /** The registered names, and whether the last of the calls so far succeeds. */
  datatype Env = Env(classes: seq<Class>, scopes: seq<Scope>, directives: seq<string>, ok: seq<Call> -> bool)

  datatype State = ROOT | PRE_NAME | NAME | POST_NAME | END_NAME | PRE_OBJ | OBJ | PRE_VAL | VAL | POST_VAL
    | ARRAY_VAL | ARRAY_PRE_VAL | DIRECTIVE_ARG

  /** The variables of lmc_parse. */
  datatype Ctx = Ctx(state: State, extend: bool, override: bool, copy: bool, scope: bool,
                     curr: nat, opt: nat, dir: nat, items: seq<string>, calls: seq<Call>)

  const START := Ctx(ROOT, false, false, false, false, 0, 0, 0, [], [])

  datatype Status = OK | FAILED | ABORTED

  /** Go on at an index, or return. */
  datatype Next = Go(p: nat, c: Ctx) | Stop(status: Status, calls: seq<Call>)

  // Characters; the buffer is followed by a NUL.

  function At(buf: string, i: nat): char { if i < |buf| then buf[i] else '\0' }

  predicate IsSpace(c: char) { c == ' ' || '\t' <= c <= '\r' }
  predicate IsDigit(c: char) { '0' <= c <= '9' }
  predicate IsAlnum(c: char) { IsDigit(c) || 'a' <= c <= 'z' || 'A' <= c <= 'Z' }
  predicate IsWordChar(c: char) { IsAlnum(c) || c == '_' }
  predicate IsOptChar(c: char) { IsAlnum(c) || c == '-' || c == '_' }
  predicate EndsString(c: char) { c == '"' || c == '\n' || c == '\0' }

  function WordEnd(buf: string, i: nat): (k: nat)
    requires i <= |buf|
    ensures i <= k <= |buf|
    decreases |buf| - i
  {
    if i < |buf| && IsWordChar(buf[i]) then WordEnd(buf, i + 1) else i
  }

  function OptEnd(buf: string, i: nat): (k: nat)
    requires i <= |buf|
    ensures i <= k <= |buf|
    decreases |buf| - i
  {
    if i < |buf| && IsOptChar(buf[i]) then OptEnd(buf, i + 1) else i
  }

  function DigitEnd(buf: string, i: nat): (k: nat)
    requires i <= |buf|
    ensures i <= k <= |buf|
    decreases |buf| - i
  {
    if i < |buf| && IsDigit(buf[i]) then DigitEnd(buf, i + 1) else i
  }

  /** strcspn for a quote or a newline. */
  function StringEnd(buf: string, i: nat): (k: nat)
    requires i <= |buf|
    ensures i <= k <= |buf|
    decreases |buf| - i
  {
    if i < |buf| && !EndsString(buf[i]) then StringEnd(buf, i + 1) else i
  }

  function DigitOf(c: char): nat
    requires IsDigit(c)
  {
    c as int - '0' as int
  }

  function NumberOf(s: string): nat
    requires forall i :: 0 <= i < |s| ==> IsDigit(s[i])
  {
    if s == "" then 0 else NumberOf(s[..|s| - 1]) * 10 + DigitOf(s[|s| - 1])
  }

  lemma NumberOfSnoc(s: string, n: nat)
    requires (forall i :: 0 <= i < |s| ==> IsDigit(s[i])) && n < 10
    ensures var c := ('0' as int + n) as char; IsDigit(c) && NumberOf(s + [c]) == NumberOf(s) * 10 + n
  {
    var c := ('0' as int + n) as char;
    assert (s + [c])[..|s|] == s;
  }

  lemma {:induction false} NumberOfZeros(zeros: string)
    requires forall i :: 0 <= i < |zeros| ==> zeros[i] == '0'
    ensures NumberOf(zeros) == 0
    decreases |zeros|
  {
    if zeros != "" {
      NumberOfZeros(zeros[..|zeros| - 1]);
    }
  }

  /** A printed number is read back, with zeros before it or without. */
  lemma {:induction false} NumberOfDecimal(zeros: string, n: nat)
    requires forall i :: 0 <= i < |zeros| ==> zeros[i] == '0'
    ensures NumberOf(zeros + Decimal(n)) == n
    decreases n
  {
    var c := ('0' as int + n % 10) as char;
    if n < 10 {
      NumberOfZeros(zeros);
      NumberOfSnoc(zeros, n);
    } else {
      NumberOfDecimal(zeros, n / 10);
      NumberOfSnoc(zeros + Decimal(n / 10), n % 10);
      assert zeros + Decimal(n) == zeros + Decimal(n / 10) + [c];
    }
  }

  lemma DigitsTo(buf: string, i: nat)
    requires i <= |buf|
    ensures forall x :: i <= x < DigitEnd(buf, i) ==> IsDigit(buf[x])
    decreases |buf| - i
  {
  }

  /** atoi; no overflow. */
  function AtoI(buf: string, i: nat): nat
    requires i <= |buf|
  {
    DigitsTo(buf, i);
    NumberOf(buf[i..DigitEnd(buf, i)])
  }

  predicate Lower(c: char, l: char) { c == l || c as int == l as int - 32 }

  predicate IsTrue(buf: string, p: nat) {
    Lower(At(buf, p), 't') && Lower(At(buf, p + 1), 'r') && Lower(At(buf, p + 2), 'u') && Lower(At(buf, p + 3), 'e')
  }

  predicate IsFalse(buf: string, p: nat) {
    && Lower(At(buf, p), 'f') && Lower(At(buf, p + 1), 'a') && Lower(At(buf, p + 2), 'l')
    && Lower(At(buf, p + 3), 's') && Lower(At(buf, p + 4), 'e')
  }

  predicate IsCopy(buf: string, p: nat) {
    At(buf, p) == 'c' && At(buf, p + 1) == 'o' && At(buf, p + 2) == 'p' && At(buf, p + 3) == 'y'
  }

  // Tables.  A registered name answers to each of its prefixes, the first one first.

  predicate Answers(name: string, w: string) { |w| <= |name| && name[..|w|] == w }

  function FindClass(classes: seq<Class>, w: string, i: nat): (k: nat)
    requires i <= |classes|
    ensures i <= k <= |classes|
    ensures k < |classes| ==> w <= classes[k].name
    ensures forall j :: i <= j < k ==> !(w <= classes[j].name)
    decreases |classes| - i
  {
    if i == |classes| || Answers(classes[i].name, w) then i else FindClass(classes, w, i + 1)
  }

  /** A class can be named only if no earlier class has a name that starts with its own. */
  lemma OwnName(classes: seq<Class>, k: nat)
    requires k < |classes|
    ensures FindClass(classes, classes[k].name, 0) == k <==>
      forall j :: 0 <= j < k ==> !(classes[k].name <= classes[j].name)
  {
    var w := classes[k].name;
    var f := FindClass(classes, w, 0);
    assert forall j :: 0 <= j < |classes| ==> (Answers(classes[j].name, w) <==> w <= classes[j].name);
    if f < k {
      assert w <= classes[f].name;
    }
  }

  function FindScope(scopes: seq<Scope>, w: string, i: nat): (k: nat)
    requires i <= |scopes|
    ensures i <= k <= |scopes|
    ensures k < |scopes| ==> w <= scopes[k].name
    ensures forall j :: i <= j < k ==> !(w <= scopes[j].name)
    decreases |scopes| - i
  {
    if i == |scopes| || Answers(scopes[i].name, w) then i else FindScope(scopes, w, i + 1)
  }

  function FindDirective(directives: seq<string>, w: string, i: nat): (k: nat)
    requires i <= |directives|
    ensures i <= k <= |directives|
    ensures k < |directives| ==> w <= directives[k]
    ensures forall j :: i <= j < k ==> !(w <= directives[j])
    decreases |directives| - i
  {
    if i == |directives| || Answers(directives[i], w) then i else FindDirective(directives, w, i + 1)
  }

  function FindOpt(opts: seq<Opt>, w: string, i: nat): (k: nat)
    requires i <= |opts|
    ensures i <= k <= |opts|
    ensures k < |opts| ==> opts[k].name == w
    ensures forall j :: i <= j < k ==> opts[j].name != w
    decreases |opts| - i
  {
    if i == |opts| || opts[i].name == w then i else FindOpt(opts, w, i + 1)
  }

  function Opts(env: Env, c: Ctx): seq<Opt> {
    if c.scope then (if c.curr < |env.scopes| then env.scopes[c.curr].opts else [])
    else if c.curr < |env.classes| then env.classes[c.curr].opts else []
  }

  predicate HasFlags(env: Env, c: Ctx) { !c.scope && c.curr < |env.classes| && env.classes[c.curr].flags }

  function Fail(c: Ctx): Next { Stop(FAILED, c.calls) }

  function Called(c: Ctx, call: Call): Ctx { c.(calls := c.calls + [call]) }

  // The states, at a character p that starts no blank and no comment.

  function AtRoot(env: Env, buf: string, p: nat, c: Ctx): Next
    requires p < |buf|
  {
    var s := WordEnd(buf, p);
    var w := buf[p..s];
    if s == p then Fail(c)
    else if w == "extend" then (if At(buf, s) == ':' then Go(s + 1, c.(extend := true)) else Fail(c))
    else if w == "override" then
      (if At(buf, s) == ':' then Go(s + 1, c.(extend := true, override := true)) else Fail(c))
    else
      var k := FindClass(env.classes, w, 0);
      if k < |env.classes| then Go(s, c.(state := PRE_NAME, curr := k)) else
      var k := FindScope(env.scopes, w, 0);
      if k < |env.scopes| then Go(s, c.(state := PRE_OBJ, curr := k, scope := true)) else
      var k := FindDirective(env.directives, w, 0);
      if k < |env.directives| then Go(s + 1, c.(state := DIRECTIVE_ARG, dir := k)) else Fail(c)
  }

  /** A string constant that starts at p: where its closing quote is, if it has one. */
  function Quoted(buf: string, p: nat): (t: nat)
    requires p < |buf|
    ensures t == 0 || p < t < |buf|
  {
    if buf[p] != '"' then 0
    else
      var t := StringEnd(buf, p + 1);
      if At(buf, t) == '"' then t else 0
  }

  function AtDirective(env: Env, buf: string, p: nat, c: Ctx): Next
    requires p < |buf|
  {
    var t := Quoted(buf, p);
    if t == 0 then Fail(c) else
    var c1 := Called(c, Directive(c.dir, buf[p + 1..t]));
    if env.ok(c1.calls) then Go(t + 1, c1.(state := ROOT)) else Fail(c1)
  }

  /** The object of that name is made, or found to be extended. */
  function NameObject(env: Env, name: string, p: nat, c: Ctx): Next {
    if !c.extend then Go(p, Called(c, Construct(c.curr, name)).(state := POST_NAME))
    else
      var c1 := Called(c, Find(c.curr, name));
      if !env.ok(c1.calls) then Fail(c1)
      else if c.override then Go(p, Called(c1, Zero(c.curr)).(state := POST_NAME))
      else Go(p, c1.(state := POST_NAME))
  }

  function CopyObject(env: Env, name: string, p: nat, c: Ctx): Next {
    var c1 := Called(c, Find(c.curr, name));
    if !env.ok(c1.calls) then Fail(c1) else
    var c2 := Called(c1, Copy(c.curr));
    if !env.ok(c2.calls) then Fail(c2) else Go(p, c2.(copy := false, state := END_NAME))
  }

  function AtName(env: Env, buf: string, p: nat, c: Ctx): Next
    requires p < |buf|
  {
    var t := Quoted(buf, p);
    if t == 0 || t == p + 1 then Fail(c)
    else if c.copy then CopyObject(env, buf[p + 1..t], t + 1, c)
    else NameObject(env, buf[p + 1..t], t + 1, c)
  }

  function AtPostName(buf: string, p: nat, c: Ctx): Next
    requires p < |buf|
  {
    if c.state == POST_NAME && IsCopy(buf, p) then Go(p + 4, c.(copy := true, state := NAME))
    else if buf[p] == ']' then Go(p + 1, c.(state := PRE_OBJ))
    else Fail(c)
  }

  function EndObject(env: Env, p: nat, c: Ctx): Next {
    if c.scope then Go(p, c.(scope := false, state := ROOT))
    else if c.extend then Go(p, c.(extend := false, override := false, state := ROOT))
    else
      var c1 := Called(c, Add(c.curr));
      if env.ok(c1.calls) then Go(p, c1.(state := ROOT)) else Stop(ABORTED, c1.calls)
  }

  function AtObj(env: Env, buf: string, p: nat, c: Ctx): Next
    requires p < |buf|
  {
    if buf[p] == '}' then EndObject(env, p + 1, c) else
    var e := OptEnd(buf, p + 1);
    var k := FindOpt(Opts(env, c), buf[p..e], 0);
    if k < |Opts(env, c)| then Go(e, c.(opt := k, state := PRE_VAL)) else Fail(c)
  }

  function StringValue(o: Opt, text: string, p: nat, c: Ctx): Next {
    if o.typ == EXTRA then Go(p, (if o.stored then Called(c, Set(c.opt, text)) else c).(state := POST_VAL))
    else if o.typ == STRING then Go(p, (if o.stored then Called(c, Store(c.opt, text)) else c).(state := POST_VAL))
    else Fail(c)
  }

  function NumberValue(o: Opt, flags: bool, n: nat, p: nat, c: Ctx): Next {
    if o.typ == UINT then Go(p, (if o.stored then Called(c, StoreUint(c.opt, n)) else c).(state := POST_VAL))
    else if o.typ == FLAG && !c.scope then
      Go(p, (if n != 0 && flags then Called(c, SetFlag(c.opt)) else c).(state := POST_VAL))
    else Fail(c)
  }

  function AtVal(env: Env, buf: string, p: nat, c: Ctx): Next
    requires p < |buf|
  {
    if c.opt >= |Opts(env, c)| then Fail(c) else
    var o := Opts(env, c)[c.opt];
    if buf[p] == '{' then (if !c.scope && o.typ == ARRAY then Go(p + 1, c.(state := ARRAY_VAL)) else Fail(c))
    else if buf[p] == '"' then
      (if (o.typ != STRING && o.typ != EXTRA) || Quoted(buf, p) == 0 then Fail(c)
       else StringValue(o, buf[p + 1..Quoted(buf, p)], Quoted(buf, p) + 1, c))
    else if IsDigit(buf[p]) then NumberValue(o, HasFlags(env, c), AtoI(buf, p), DigitEnd(buf, p), c)
    else if o.typ != FLAG || c.scope then Fail(c)
    else if IsTrue(buf, p) then Go(p + 4, (if HasFlags(env, c) then Called(c, SetFlag(c.opt)) else c).(state := POST_VAL))
    else if IsFalse(buf, p) then Go(p + 5, c.(state := POST_VAL))
    else Fail(c)
  }

  function AtArray(env: Env, buf: string, p: nat, c: Ctx): Next
    requires p < |buf|
  {
    if c.opt >= |Opts(env, c)| then Fail(c) else
    var o := Opts(env, c)[c.opt];
    if c.state == ARRAY_VAL then
      (var t := Quoted(buf, p);
       if t == 0 then Fail(c)
       else Go(t + 1, c.(items := (if o.stored then c.items + [buf[p + 1..t]] else c.items), state := ARRAY_PRE_VAL)))
    else if buf[p] == ',' then Go(p + 1, c.(state := ARRAY_VAL))
    else if buf[p] == '}' then
      Go(p + 1, (if o.stored then Called(c, SetArray(c.opt, c.items)) else c).(items := [], state := POST_VAL))
    else Fail(c)
  }

  /** A state that waits for one character. */
  function AtSign(buf: string, p: nat, sign: char, state: State, c: Ctx): Next
    requires p < |buf|
  {
    if buf[p] == sign then Go(p + 1, c.(state := state)) else Fail(c)
  }

  function Token(env: Env, buf: string, p: nat, c: Ctx): Next
    requires p < |buf|
  {
    if buf[p] == '/' then Fail(c) else
    match c.state
    case ROOT => AtRoot(env, buf, p, c)
    case DIRECTIVE_ARG => AtDirective(env, buf, p, c)
    case PRE_NAME => AtSign(buf, p, '[', NAME, c)
    case NAME => AtName(env, buf, p, c)
    case POST_NAME => AtPostName(buf, p, c)
    case END_NAME => AtPostName(buf, p, c)
    case PRE_OBJ => if buf[p] == ';' then Go(p + 1, c.(state := ROOT)) else AtSign(buf, p, '{', OBJ, c)
    case OBJ => AtObj(env, buf, p, c)
    case PRE_VAL => AtSign(buf, p, '=', VAL, c)
    case VAL => AtVal(env, buf, p, c)
    case POST_VAL => AtSign(buf, p, ';', OBJ, c)
    case ARRAY_VAL => AtArray(env, buf, p, c)
    case ARRAY_PRE_VAL => AtArray(env, buf, p, c)
  }

  // Blanks and comments.

  function LineEnd(buf: string, i: nat): (k: nat)
    requires i <= |buf|
    ensures i <= k <= |buf|
    decreases |buf| - i
  {
    if i < |buf| && buf[i] != '\n' then LineEnd(buf, i + 1) else i
  }

  /** The star that ends a comment, or the end. */
  function CommentEnd(buf: string, i: nat): (k: nat)
    requires i <= |buf|
    ensures i <= k <= |buf|
    decreases |buf| - i
  {
    if i < |buf| && !(buf[i] == '*' && i + 1 < |buf| && buf[i + 1] == '/') then CommentEnd(buf, i + 1) else i
  }

  /** Past a blank or a comment at p, or p itself. */
  function Skip(buf: string, p: nat): (k: nat)
    requires p < |buf|
    ensures p <= k
  {
    if IsSpace(buf[p]) then p + 1
    else if buf[p] == '#' then LineEnd(buf, p + 1) + 1
    else if buf[p] == '/' && p + 1 < |buf| && buf[p + 1] == '*' then
      (if CommentEnd(buf, p + 1) < |buf| then CommentEnd(buf, p + 1) + 2 else |buf| + 1)
    else p
  }

  function Finish(c: Ctx): (Status, seq<Call>) {
    (if c.state == ROOT then OK else FAILED, c.calls)
  }

  /** The token at p goes forward. */
  lemma TokenAdvances(env: Env, buf: string, p: nat, c: Ctx)
    requires p < |buf| && Skip(buf, p) == p
    ensures Token(env, buf, p, c).Go? ==> p < Token(env, buf, p, c).p
  {
  }

  /** The loop from p on. */
  function Run(env: Env, buf: string, p: nat, c: Ctx): (Status, seq<Call>)
    decreases |buf| - p
  {
    if p >= |buf| then Finish(c)
    else if Skip(buf, p) != p then Run(env, buf, Skip(buf, p), c)
    else
      TokenAdvances(env, buf, p, c);
      match Token(env, buf, p, c)
      case Go(q, next) => Run(env, buf, q, next)
      case Stop(status, calls) => (status, calls)
  }

  // What the parser reads: tokens, with anything it skips between them.

  datatype Unit = Blank(c: char) | Line(text: string) | Block(text: string)

  ghost predicate UnitOk(u: Unit) {
    match u
    case Blank(c) => c == ' ' || '\t' <= c <= '\r'
    case Line(text) => '\n' !in text
    case Block(text) => CommentEnd("*" + text + "*/", 0) == |text| + 1
  }

  function UnitText(u: Unit): string {
    match u
    case Blank(c) => [c]
    case Line(text) => "#" + text + "\n"
    case Block(text) => "/*" + text + "*/"
  }

  function GapText(gap: seq<Unit>): string {
    if gap == [] then "" else UnitText(gap[0]) + GapText(gap[1..])
  }

  datatype Lex = Word(w: string) | OptName(w: string) | Sign(c: char) | Quote(s: string) | Number(s: string)
    | True(w: string) | False(w: string) | Extend | Override | CopyWord | Dir(w: string)

  function LexText(l: Lex): string {
    match l
    case Word(w) => w
    case OptName(w) => w
    case Sign(c) => [c]
    case Quote(s) => "\"" + s + "\""
    case Number(s) => s
    case True(w) => w
    case False(w) => w
    case Extend => "extend:"
    case Override => "override:"
    case CopyWord => "copy"
    case Dir(w) => w + " "
  }

  /** A token and what is skipped before it. */
  datatype Spaced = Spaced(gap: seq<Unit>, lex: Lex)

  function TextOf(ls: seq<Spaced>, last: seq<Unit>): string {
    if ls == [] then GapText(last) else GapText(ls[0].gap) + LexText(ls[0].lex) + TextOf(ls[1..], last)
  }

  ghost predicate ShowText(text: string, z: int) { true }

  /** HasText, hidden until ShowText is mentioned for the text. */
  ghost predicate Stands(buf: string, i: nat, text: string) {
    forall z {:trigger ShowText(text, z)} :: ShowText(text, z) ==> HasText(buf, i, text)
  }

  lemma StandsParts(buf: string, i: nat, text: string, a: string, b: string)
    requires Stands(buf, i, text) && text == a + b
    ensures Stands(buf, i, a) && Stands(buf, i + |a|, b)
  {
    assert ShowText(text, 0);
    HasParts(buf, i, a, b);
  }

  lemma {:induction false} LineEndIs(buf: string, i: nat, k: nat)
    requires i <= k < |buf| && buf[k] == '\n' && forall x :: i <= x < k ==> buf[x] != '\n'
    ensures LineEnd(buf, i) == k
    decreases k - i
  {
    if i < k {
      LineEndIs(buf, i + 1, k);
    }
  }

  /** A comment ends where its own text does. */
  lemma {:induction false} CommentEndIs(buf: string, i: nat, text: string, j: nat)
    requires j < |text| && HasText(buf, i, text) && CommentEnd(text, j) + 1 < |text|
    ensures CommentEnd(buf, i + j) == i + CommentEnd(text, j)
    decreases |text| - j
  {
    assert buf[i + j] == text[j];
    if j + 1 < |text| {
      assert buf[i + (j + 1)] == text[j + 1];
      if !(text[j] == '*' && text[j + 1] == '/') {
        CommentEndIs(buf, i, text, j + 1);
      }
    }
  }

  lemma SkipUnit(buf: string, p: nat, u: Unit)
    requires UnitOk(u) && HasText(buf, p, UnitText(u))
    ensures p < |buf| && p < Skip(buf, p) == p + |UnitText(u)|
  {
    var text := UnitText(u);
    assert buf[p + 0] == text[0];
    match u {
      case Blank(c) =>
      case Line(s) =>
        assert forall x :: p + 1 <= x < p + 1 + |s| ==> buf[x] == text[x - p] == s[x - p - 1];
        assert buf[p + (|s| + 1)] == text[|s| + 1];
        LineEndIs(buf, p + 1, p + 1 + |s|);
      case Block(s) =>
        assert buf[p + 1] == text[1];
        assert text == "/" + ("*" + s + "*/");
        HasParts(buf, p, "/", "*" + s + "*/");
        CommentEndIs(buf, p + 1, "*" + s + "*/", 0);
    }
  }

  ghost predicate ShowRun(p: nat, z: int) { true }

  /** The loop ends with that result; hidden until ShowRun is mentioned for p. */
  ghost predicate Ends(env: Env, buf: string, p: nat, c: Ctx, out: (Status, seq<Call>)) {
    forall z {:trigger ShowRun(p, z)} :: ShowRun(p, z) ==> Run(env, buf, p, c) == out
  }

  lemma EndsSkip(env: Env, buf: string, p: nat, c: Ctx, out: (Status, seq<Call>))
    requires p < |buf| && Skip(buf, p) != p && Ends(env, buf, Skip(buf, p), c, out)
    ensures Ends(env, buf, p, c, out)
  {
    assert ShowRun(Skip(buf, p), 0);
  }

  lemma EndsToken(env: Env, buf: string, p: nat, c: Ctx, q: nat, next: Ctx, out: (Status, seq<Call>))
    requires p < |buf| && Skip(buf, p) == p && Token(env, buf, p, c) == Go(q, next) && Ends(env, buf, q, next, out)
    ensures Ends(env, buf, p, c, out)
  {
    assert ShowRun(q, 0);
  }

  lemma EndsUnit(env: Env, buf: string, p: nat, c: Ctx, u: Unit, out: (Status, seq<Call>))
    requires UnitOk(u) && Stands(buf, p, UnitText(u)) && Ends(env, buf, p + |UnitText(u)|, c, out)
    ensures Ends(env, buf, p, c, out)
  {
    assert ShowText(UnitText(u), 0);
    SkipUnit(buf, p, u);
    EndsSkip(env, buf, p, c, out);
  }

  ghost predicate GapOk(gap: seq<Unit>) { forall k :: 0 <= k < |gap| ==> UnitOk(gap[k]) }

  lemma GapFirst(gap: seq<Unit>)
    requires gap != [] && GapOk(gap)
    ensures GapText(gap) == UnitText(gap[0]) + GapText(gap[1..])
    ensures UnitOk(gap[0]) && GapOk(gap[1..])
  {
  }

  lemma GapSplits(buf: string, p: nat, q: nat, gap: seq<Unit>) returns (m: nat)
    requires gap != [] && GapOk(gap) && Stands(buf, p, GapText(gap)) && q == p + |GapText(gap)|
    ensures UnitOk(gap[0]) && Stands(buf, p, UnitText(gap[0])) && m == p + |UnitText(gap[0])|
    ensures GapOk(gap[1..]) && Stands(buf, m, GapText(gap[1..])) && q == m + |GapText(gap[1..])|
  {
    var text, a, b := GapText(gap), UnitText(gap[0]), GapText(gap[1..]);
    GapFirst(gap);
    m := p + |a|;
    StandsParts(buf, p, text, a, b);
  }

  lemma {:induction false} EndsGap(env: Env, buf: string, p: nat, q: nat, c: Ctx, gap: seq<Unit>, out: (Status, seq<Call>))
    requires GapOk(gap) && Stands(buf, p, GapText(gap)) && q == p + |GapText(gap)| && Ends(env, buf, q, c, out)
    ensures Ends(env, buf, p, c, out)
    decreases |gap|
  {
    if gap != [] {
      var m := GapSplits(buf, p, q, gap);
      EndsGap(env, buf, m, q, c, gap[1..], out);
      EndsUnit(env, buf, p, c, gap[0], out);
    }
  }

  function Where(n: Next): Option<Ctx> { if n.Go? then Some(n.c) else None }

  function OptAt(env: Env, c: Ctx): Option<Opt> {
    if c.opt < |Opts(env, c)| then Some(Opts(env, c)[c.opt]) else None
  }

  function FeedWord(env: Env, c: Ctx, w: string): Option<Ctx> {
    var k := FindClass(env.classes, w, 0);
    if k < |env.classes| then Some(c.(state := PRE_NAME, curr := k)) else
    var k := FindScope(env.scopes, w, 0);
    if k < |env.scopes| then Some(c.(state := PRE_OBJ, curr := k, scope := true)) else None
  }

  function FeedDir(env: Env, c: Ctx, w: string): Option<Ctx> {
    var k := FindDirective(env.directives, w, 0);
    if FindClass(env.classes, w, 0) < |env.classes| || FindScope(env.scopes, w, 0) < |env.scopes| then None
    else if k < |env.directives| then Some(c.(state := DIRECTIVE_ARG, dir := k)) else None
  }

  function FeedOpt(env: Env, c: Ctx, w: string): Option<Ctx> {
    var k := FindOpt(Opts(env, c), w, 0);
    if k < |Opts(env, c)| then Some(c.(opt := k, state := PRE_VAL)) else None
  }

  function FeedQuote(env: Env, c: Ctx, s: string): Option<Ctx> {
    match c.state
    case NAME =>
      if s == "" then None else if c.copy then Where(CopyObject(env, s, 0, c)) else Where(NameObject(env, s, 0, c))
    case VAL =>
      if OptAt(env, c).Some? then Where(StringValue(OptAt(env, c).value, s, 0, c)) else None
    case DIRECTIVE_ARG =>
      var c1 := Called(c, Directive(c.dir, s));
      if env.ok(c1.calls) then Some(c1.(state := ROOT)) else None
    case ARRAY_VAL =>
      if OptAt(env, c).Some?
      then Some(c.(items := (if OptAt(env, c).value.stored then c.items + [s] else c.items), state := ARRAY_PRE_VAL))
      else None
    case _ => None
  }

  function FeedNumber(env: Env, c: Ctx, n: nat): Option<Ctx> {
    if c.state == VAL && OptAt(env, c).Some? then Where(NumberValue(OptAt(env, c).value, HasFlags(env, c), n, 0, c)) else None
  }

  function FeedTrue(env: Env, c: Ctx): Option<Ctx> {
    if c.state == VAL && !c.scope && OptAt(env, c).Some? && OptAt(env, c).value.typ == FLAG
    then Some((if HasFlags(env, c) then Called(c, SetFlag(c.opt)) else c).(state := POST_VAL)) else None
  }

  function FeedFalse(env: Env, c: Ctx): Option<Ctx> {
    if c.state == VAL && !c.scope && OptAt(env, c).Some? && OptAt(env, c).value.typ == FLAG
    then Some(c.(state := POST_VAL)) else None
  }

  function FeedSign(env: Env, c: Ctx, x: char): Option<Ctx> {
    match c.state
    case PRE_NAME => if x == '[' then Some(c.(state := NAME)) else None
    case POST_NAME => if x == ']' then Some(c.(state := PRE_OBJ)) else None
    case END_NAME => if x == ']' then Some(c.(state := PRE_OBJ)) else None
    case PRE_OBJ =>
      if x == '{' then Some(c.(state := OBJ)) else if x == ';' then Some(c.(state := ROOT)) else None
    case OBJ => if x == '}' then Where(EndObject(env, 0, c)) else None
    case PRE_VAL => if x == '=' then Some(c.(state := VAL)) else None
    case VAL =>
      if x == '{' && !c.scope && OptAt(env, c).Some? && OptAt(env, c).value.typ == ARRAY
      then Some(c.(state := ARRAY_VAL)) else None
    case POST_VAL => if x == ';' then Some(c.(state := OBJ)) else None
    case ARRAY_PRE_VAL =>
      if OptAt(env, c).None? then None
      else if x == ',' then Some(c.(state := ARRAY_VAL))
      else if x == '}' then
        Some((if OptAt(env, c).value.stored then Called(c, SetArray(c.opt, c.items)) else c).(items := [], state := POST_VAL))
      else None
    case _ => None
  }

  /** What a token does, whatever text it stands in; None when it is not taken. */
  function Feed(env: Env, c: Ctx, l: Lex): Option<Ctx> {
    match l
    case Word(w) => if c.state == ROOT then FeedWord(env, c, w) else None
    case OptName(w) => if c.state == OBJ then FeedOpt(env, c, w) else None
    case Quote(s) => FeedQuote(env, c, s)
    case Number(s) => if forall i :: 0 <= i < |s| ==> IsDigit(s[i]) then FeedNumber(env, c, NumberOf(s)) else None
    case True(_) => FeedTrue(env, c)
    case False(_) => FeedFalse(env, c)
    case Sign(x) => FeedSign(env, c, x)
    case Extend => if c.state == ROOT then Some(c.(extend := true)) else None
    case Override => if c.state == ROOT then Some(c.(extend := true, override := true)) else None
    case Dir(w) => if c.state == ROOT then FeedDir(env, c, w) else None
    case CopyWord => if c.state == POST_NAME then Some(c.(copy := true, state := NAME)) else None
  }

  /** The characters of names, and what an option's name may hold besides. */
  predicate NameText(w: string, more: string) {
    forall i :: 0 <= i < |w| ==>
      'a' <= w[i] <= 'z' || 'A' <= w[i] <= 'Z' || '0' <= w[i] <= '9' || w[i] == '_' || w[i] in more
  }

  predicate DigitText(s: string) { s != "" && forall i :: 0 <= i < |s| ==> '0' <= s[i] <= '9' }

  predicate NoBreak(s: string) { forall i :: 0 <= i < |s| ==> s[i] != '"' && s[i] != '\n' && s[i] != '\0' }

  /** The letters of a word, each in either case. */
  predicate Spells(w: string, small: string, large: string)
    requires |small| == |large|
  {
    |w| == |small| && forall i :: 0 <= i < |w| ==> w[i] == small[i] || w[i] == large[i]
  }

  ghost predicate LexOk(l: Lex)
    decreases l.Dir?
  {
    match l
    case Word(w) => w != "" && w != "extend" && w != "override" && NameText(w, "")
    case Dir(w) => LexOk(Word(w))
    case OptName(w) => w != "" && NameText(w, "-")
    case Quote(s) => NoBreak(s)
    case Number(s) => DigitText(s)
    case Sign(x) => x in "[]{}=;,"
    case True(w) => Spells(w, "true", "TRUE")
    case False(w) => Spells(w, "false", "FALSE")
    case _ => true
  }

  lemma {:induction false} WordEndIs(buf: string, i: nat, k: nat)
    requires i <= k <= |buf| && (forall x :: i <= x < k ==> IsWordChar(buf[x])) && !IsWordChar(At(buf, k))
    ensures WordEnd(buf, i) == k
    decreases k - i
  {
    if i < k {
      WordEndIs(buf, i + 1, k);
    }
  }

  lemma {:induction false} OptEndIs(buf: string, i: nat, k: nat)
    requires i <= k <= |buf| && (forall x :: i <= x < k ==> IsOptChar(buf[x])) && !IsOptChar(At(buf, k))
    ensures OptEnd(buf, i) == k
    decreases k - i
  {
    if i < k {
      OptEndIs(buf, i + 1, k);
    }
  }

  lemma {:induction false} DigitEndIs(buf: string, i: nat, k: nat)
    requires i <= k <= |buf| && (forall x :: i <= x < k ==> IsDigit(buf[x])) && !IsDigit(At(buf, k))
    ensures DigitEnd(buf, i) == k
    decreases k - i
  {
    if i < k {
      DigitEndIs(buf, i + 1, k);
    }
  }

  lemma {:induction false} StringEndIs(buf: string, i: nat, k: nat)
    requires i <= k < |buf| && (forall x :: i <= x < k ==> !EndsString(buf[x])) && EndsString(buf[k])
    ensures StringEnd(buf, i) == k
    decreases k - i
  {
    if i < k {
      StringEndIs(buf, i + 1, k);
    }
  }

  /** The token at p is l, and c becomes next. */
  ghost predicate Reads(env: Env, buf: string, p: nat, c: Ctx, l: Lex, next: Ctx) {
    p < |buf| && Skip(buf, p) == p && Token(env, buf, p, c) == Go(p + |LexText(l)|, next)
  }

  lemma TextAt(buf: string, p: nat, w: string)
    requires HasText(buf, p, w)
    ensures buf[p..p + |w|] == w && forall x :: p <= x < p + |w| ==> buf[x] == w[x - p]
  {
    forall x | p <= x < p + |w| ensures buf[x] == w[x - p] {
      var k := x - p;
      assert buf[p + k] == w[k];
    }
  }

  lemma ReadsWord(env: Env, buf: string, p: nat, c: Ctx, w: string, next: Ctx)
    requires LexOk(Word(w)) && c.state == ROOT && FeedWord(env, c, w) == Some(next)
    requires HasText(buf, p, w) && !IsWordChar(At(buf, p + |w|))
    ensures Reads(env, buf, p, c, Word(w), next)
  {
    TextAt(buf, p, w);
    WordEndIs(buf, p, p + |w|);
    assert IsWordChar(w[0]) && buf[p] == w[0];
  }

  /** The character after a directive's name is passed over, whatever it is. */
  lemma ReadsDir(env: Env, buf: string, p: nat, c: Ctx, w: string, next: Ctx)
    requires LexOk(Dir(w)) && c.state == ROOT && FeedDir(env, c, w) == Some(next) && HasText(buf, p, w + " ")
    ensures Reads(env, buf, p, c, Dir(w), next)
  {
    HasParts(buf, p, w, " ");
    TextAt(buf, p, w);
    TextAt(buf, p + |w|, " ");
    WordEndIs(buf, p, p + |w|);
    assert IsWordChar(w[0]) && buf[p] == w[0] && buf[p..p + |w|] == w;
    assert AtRoot(env, buf, p, c) == Go(p + |w| + 1, next);
  }

  lemma ReadsOpt(env: Env, buf: string, p: nat, c: Ctx, w: string, next: Ctx)
    requires LexOk(OptName(w)) && c.state == OBJ && FeedOpt(env, c, w) == Some(next)
    requires HasText(buf, p, w) && !IsOptChar(At(buf, p + |w|))
    ensures Reads(env, buf, p, c, OptName(w), next)
  {
    TextAt(buf, p, w);
    OptEndIs(buf, p + 1, p + |w|);
    assert IsOptChar(w[0]) && buf[p] == w[0];
  }

  lemma QuotedIs(buf: string, p: nat, s: string)
    requires LexOk(Quote(s)) && HasText(buf, p, LexText(Quote(s)))
    ensures p < |buf| && buf[p] == '"' && Quoted(buf, p) == p + 1 + |s| && buf[p + 1..p + 1 + |s|] == s
  {
    var text := "\"" + s + "\"";
    TextAt(buf, p, text);
    assert buf[p] == text[0] && buf[p + 1 + |s|] == text[1 + |s|] == '"';
    assert forall x :: p + 1 <= x < p + 1 + |s| ==> buf[x] == text[x - p] == s[x - p - 1];
    StringEndIs(buf, p + 1, p + 1 + |s|);
  }

  lemma ReadsName(env: Env, buf: string, p: nat, t: nat, c: Ctx, s: string, next: Ctx)
    requires p < |buf| && buf[p] == '"' && Quoted(buf, p) == t == p + 1 + |s| && buf[p + 1..t] == s
    requires c.state == NAME && FeedQuote(env, c, s) == Some(next)
    ensures Skip(buf, p) == p && Token(env, buf, p, c) == Go(t + 1, next)
  {
    assert AtName(env, buf, p, c) == if c.copy then CopyObject(env, s, t + 1, c) else NameObject(env, s, t + 1, c);
  }

  lemma ReadsArgument(env: Env, buf: string, p: nat, t: nat, c: Ctx, s: string, next: Ctx)
    requires p < |buf| && buf[p] == '"' && Quoted(buf, p) == t == p + 1 + |s| && buf[p + 1..t] == s
    requires c.state == DIRECTIVE_ARG && FeedQuote(env, c, s) == Some(next)
    ensures Skip(buf, p) == p && Token(env, buf, p, c) == Go(t + 1, next)
  {
  }

  lemma ReadsString(env: Env, buf: string, p: nat, t: nat, c: Ctx, s: string, next: Ctx)
    requires p < |buf| && buf[p] == '"' && Quoted(buf, p) == t == p + 1 + |s| && buf[p + 1..t] == s
    requires (c.state == VAL || c.state == ARRAY_VAL) && FeedQuote(env, c, s) == Some(next)
    ensures Skip(buf, p) == p && Token(env, buf, p, c) == Go(t + 1, next)
  {
  }

  lemma ReadsQuote(env: Env, buf: string, p: nat, c: Ctx, s: string, next: Ctx)
    requires LexOk(Quote(s)) && FeedQuote(env, c, s) == Some(next)
    requires HasText(buf, p, LexText(Quote(s)))
    ensures Reads(env, buf, p, c, Quote(s), next)
  {
    QuotedIs(buf, p, s);
    if c.state == NAME {
      ReadsName(env, buf, p, p + 1 + |s|, c, s, next);
    } else if c.state == DIRECTIVE_ARG {
      ReadsArgument(env, buf, p, p + 1 + |s|, c, s, next);
    } else {
      ReadsString(env, buf, p, p + 1 + |s|, c, s, next);
    }
  }

  lemma NumberIs(buf: string, p: nat, s: string) returns (k: nat, n: nat)
    requires LexOk(Number(s)) && HasText(buf, p, s) && !IsDigit(At(buf, p + |s|))
    ensures p < |buf| && IsDigit(buf[p]) && DigitEnd(buf, p) == k == p + |s|
    ensures AtoI(buf, p) == n == NumberOf(s)
  {
    TextAt(buf, p, s);
    forall x | p <= x < p + |s| ensures IsDigit(buf[x]) { assert IsDigit(s[x - p]); }
    DigitEndIs(buf, p, p + |s|);
    k, n := p + |s|, AtoI(buf, p);
  }

  lemma ReadsDigits(env: Env, buf: string, p: nat, k: nat, c: Ctx, n: nat, next: Ctx)
    requires p < |buf| && IsDigit(buf[p]) && DigitEnd(buf, p) == k && AtoI(buf, p) == n
    requires FeedNumber(env, c, n) == Some(next)
    ensures Skip(buf, p) == p && Token(env, buf, p, c) == Go(k, next)
  {
    assert AtVal(env, buf, p, c) == NumberValue(OptAt(env, c).value, HasFlags(env, c), n, k, c);
  }

  lemma ReadsNumber(env: Env, buf: string, p: nat, c: Ctx, s: string, next: Ctx)
    requires LexOk(Number(s)) && Feed(env, c, Number(s)) == Some(next)
    requires HasText(buf, p, s) && !IsDigit(At(buf, p + |s|))
    ensures Reads(env, buf, p, c, Number(s), next)
  {
    var k, n := NumberIs(buf, p, s);
    ReadsDigits(env, buf, p, k, c, n, next);
  }

  lemma ReadsListSign(env: Env, buf: string, p: nat, c: Ctx, x: char, next: Ctx)
    requires p < |buf| && buf[p] == x && x in "{,}" && (c.state == VAL || c.state == ARRAY_PRE_VAL)
    requires FeedSign(env, c, x) == Some(next)
    ensures Token(env, buf, p, c) == Go(p + 1, next)
  {
  }

  lemma ReadsObjectSign(env: Env, buf: string, p: nat, c: Ctx, x: char, next: Ctx)
    requires p < |buf| && buf[p] == x && x != '/' && c.state != VAL && c.state != ARRAY_PRE_VAL
    requires (c.state == POST_NAME ==> !IsCopy(buf, p)) && FeedSign(env, c, x) == Some(next)
    ensures Token(env, buf, p, c) == Go(p + 1, next)
  {
  }

  lemma ReadsSign(env: Env, buf: string, p: nat, c: Ctx, x: char, next: Ctx)
    requires LexOk(Sign(x)) && FeedSign(env, c, x) == Some(next) && HasText(buf, p, [x])
    ensures Reads(env, buf, p, c, Sign(x), next)
  {
    TextAt(buf, p, [x]);
    assert buf[p] == x && x in "[]{}=;,";
    if c.state == VAL || c.state == ARRAY_PRE_VAL {
      ReadsListSign(env, buf, p, c, x, next);
    } else {
      ReadsObjectSign(env, buf, p, c, x, next);
    }
  }

  lemma ReadsTrue(env: Env, buf: string, p: nat, c: Ctx, w: string, next: Ctx)
    requires LexOk(True(w)) && FeedTrue(env, c) == Some(next) && HasText(buf, p, w)
    ensures Reads(env, buf, p, c, True(w), next)
  {
    TextAt(buf, p, w);
    assert IsTrue(buf, p);
  }

  lemma ReadsFalse(env: Env, buf: string, p: nat, c: Ctx, w: string, next: Ctx)
    requires LexOk(False(w)) && FeedFalse(env, c) == Some(next) && HasText(buf, p, w)
    ensures Reads(env, buf, p, c, False(w), next)
  {
    TextAt(buf, p, w);
    assert IsFalse(buf, p);
  }

  lemma ReadsCopy(env: Env, buf: string, p: nat, c: Ctx)
    requires c.state == POST_NAME && HasText(buf, p, "copy")
    ensures Reads(env, buf, p, c, CopyWord, c.(copy := true, state := NAME))
  {
    TextAt(buf, p, "copy");
  }

  lemma ReadsExtend(env: Env, buf: string, p: nat, c: Ctx)
    requires c.state == ROOT && HasText(buf, p, "extend:")
    ensures Reads(env, buf, p, c, Extend, c.(extend := true))
  {
    TextAt(buf, p, "extend:");
    WordEndIs(buf, p, p + 6);
    assert buf[p..p + 6] == "extend";
  }

  lemma ReadsOverride(env: Env, buf: string, p: nat, c: Ctx)
    requires c.state == ROOT && HasText(buf, p, "override:")
    ensures Reads(env, buf, p, c, Override, c.(extend := true, override := true))
  {
    TextAt(buf, p, "override:");
    WordEndIs(buf, p, p + 8);
    assert buf[p..p + 8] == "override";
  }

  /** The tokens that a following character could prolong. */
  predicate Open(l: Lex) { l.Word? || l.OptName? || l.Number? }

  lemma ReadsLex(env: Env, buf: string, p: nat, c: Ctx, l: Lex, next: Ctx)
    requires LexOk(l) && Feed(env, c, l) == Some(next) && Stands(buf, p, LexText(l))
    requires Open(l) ==> !IsOptChar(At(buf, p + |LexText(l)|))
    ensures Reads(env, buf, p, c, l, next)
  {
    assert ShowText(LexText(l), 0);
    match l
    case Word(w) => ReadsWord(env, buf, p, c, w, next);
    case OptName(w) => ReadsOpt(env, buf, p, c, w, next);
    case Quote(s) => ReadsQuote(env, buf, p, c, s, next);
    case Number(s) => ReadsNumber(env, buf, p, c, s, next);
    case True(w) => ReadsTrue(env, buf, p, c, w, next);
    case False(w) => ReadsFalse(env, buf, p, c, w, next);
    case Sign(x) => ReadsSign(env, buf, p, c, x, next);
    case Extend => ReadsExtend(env, buf, p, c);
    case Override => ReadsOverride(env, buf, p, c);
    case CopyWord => ReadsCopy(env, buf, p, c);
    case Dir(w) => ReadsDir(env, buf, p, c, w, next);
  }

  function FeedAll(env: Env, c: Ctx, ls: seq<Lex>): Option<Ctx>
    decreases |ls|
  {
    if ls == [] then Some(c)
    else match Feed(env, c, ls[0]) case None => None case Some(next) => FeedAll(env, next, ls[1..])
  }

  function Lexes(ls: seq<Spaced>): seq<Lex> { seq(|ls|, k requires 0 <= k < |ls| => ls[k].lex) }

  /** Tokens that can stand in a text: those that could be prolonged come before a sign. */
  ghost predicate Printable(ls: seq<Lex>) {
    && (forall k :: 0 <= k < |ls| ==> LexOk(ls[k]))
    && (forall k :: 0 <= k < |ls| && Open(ls[k]) ==> k + 1 < |ls| && ls[k + 1].Sign?)
  }

  ghost predicate GapsOk(ls: seq<Spaced>) { forall k :: 0 <= k < |ls| ==> GapOk(ls[k].gap) }

  lemma PrintableTail(ls: seq<Spaced>, tail: seq<Spaced>)
    requires ls != [] && Printable(Lexes(ls)) && GapsOk(ls) && tail == ls[1..]
    ensures Printable(Lexes(tail)) && GapsOk(tail) && LexOk(ls[0].lex) && GapOk(ls[0].gap)
    ensures Open(ls[0].lex) ==> tail != [] && tail[0].lex.Sign? && LexOk(tail[0].lex) && GapOk(tail[0].gap)
    ensures Lexes(ls)[1..] == Lexes(tail)
  {
    var xs, ys := Lexes(ls), Lexes(tail);
    assert forall k :: 0 <= k < |ys| ==> ys[k] == xs[k + 1];
    assert LexOk(xs[0]);
    if Open(xs[0]) {
      assert xs[1].Sign? && LexOk(xs[1]);
    }
  }

  lemma GapStarts(gap: seq<Unit>)
    requires gap != [] && GapOk(gap)
    ensures GapText(gap) != "" && !IsOptChar(GapText(gap)[0])
  {
    assert UnitOk(gap[0]);
  }

  /** Nothing prolongs a token that a gap and a sign follow. */
  lemma SignFollows(buf: string, q: nat, text: string, gap: seq<Unit>, x: char, rest: string)
    requires LexOk(Sign(x)) && GapOk(gap) && Stands(buf, q, text) && text == GapText(gap) + [x] + rest
    ensures !IsOptChar(At(buf, q))
  {
    assert ShowText(text, 0);
    assert buf[q + 0] == text[0];
    if gap == [] {
      assert text[0] == x;
    } else {
      GapStarts(gap);
      assert text[0] == GapText(gap)[0];
    }
  }

  ghost predicate ShowFeed(l: Lex, z: int) { true }
  ghost predicate ShowFeeds(ls: seq<Lex>, z: int) { true }

  /** Feed and FeedAll, hidden until ShowFeed or ShowFeeds is mentioned. */
  ghost predicate Takes(env: Env, c: Ctx, l: Lex, next: Ctx) {
    forall z {:trigger ShowFeed(l, z)} :: ShowFeed(l, z) ==> Feed(env, c, l) == Some(next)
  }

  ghost predicate TakesAll(env: Env, c: Ctx, ls: seq<Lex>, end: Ctx) {
    forall z {:trigger ShowFeeds(ls, z)} :: ShowFeeds(ls, z) ==> FeedAll(env, c, ls) == Some(end)
  }

  lemma TakesFirst(env: Env, c: Ctx, ls: seq<Lex>, end: Ctx) returns (next: Ctx)
    requires ls != [] && TakesAll(env, c, ls, end)
    ensures Takes(env, c, ls[0], next) && TakesAll(env, next, ls[1..], end)
  {
    assert ShowFeeds(ls, 0);
    next := Feed(env, c, ls[0]).value;
  }

  lemma TakesNone(env: Env, c: Ctx, end: Ctx)
    requires TakesAll(env, c, [], end)
    ensures c == end
  {
    assert ShowFeeds([], 0);
  }

  lemma TextSplits(buf: string, p: nat, ls: seq<Spaced>, last: seq<Unit>) returns (q: nat, r: nat)
    requires ls != [] && Stands(buf, p, TextOf(ls, last))
    ensures q == p + |GapText(ls[0].gap)| && r == q + |LexText(ls[0].lex)|
    ensures Stands(buf, p, GapText(ls[0].gap)) && Stands(buf, q, LexText(ls[0].lex))
    ensures Stands(buf, r, TextOf(ls[1..], last)) && p + |TextOf(ls, last)| == r + |TextOf(ls[1..], last)|
  {
    var g, x, rest := GapText(ls[0].gap), LexText(ls[0].lex), TextOf(ls[1..], last);
    assert TextOf(ls, last) == g + x + rest;
    q := p + |g|;
    r := q + |x|;
    StandsParts(buf, p, TextOf(ls, last), g + x, rest);
    StandsParts(buf, p, g + x, g, x);
  }

  lemma TextStarts(buf: string, r: nat, ls: seq<Spaced>, last: seq<Unit>)
    requires ls != [] && ls[0].lex.Sign? && LexOk(ls[0].lex) && GapOk(ls[0].gap) && Stands(buf, r, TextOf(ls, last))
    ensures !IsOptChar(At(buf, r))
  {
    SignFollows(buf, r, TextOf(ls, last), ls[0].gap, ls[0].lex.c, TextOf(ls[1..], last));
  }

  /** Reading a text does what feeding its tokens does, whatever stands between them; then comes
      what its end e leads to. */
  lemma {:induction false} EndsText(env: Env, buf: string, p: nat, c: Ctx, ls: seq<Spaced>, last: seq<Unit>,
                                    e: nat, end: Ctx, out: (Status, seq<Call>))
    requires Printable(Lexes(ls)) && GapsOk(ls) && GapOk(last) && TakesAll(env, c, Lexes(ls), end)
    requires Stands(buf, p, TextOf(ls, last)) && e == p + |TextOf(ls, last)| && Ends(env, buf, e, end, out)
    ensures Ends(env, buf, p, c, out)
    decreases |ls|
  {
    if ls == [] {
      TakesNone(env, c, end);
      EndsGap(env, buf, p, e, c, last, out);
    } else {
      var l, tail := ls[0].lex, ls[1..];
      var next := TakesFirst(env, c, Lexes(ls), end);
      PrintableTail(ls, tail);
      var q, r := TextSplits(buf, p, ls, last);
      if Open(l) {
        TextStarts(buf, r, tail, last);
      }
      EndsText(env, buf, r, next, tail, last, e, end, out);
      EndsLex(env, buf, p, q, r, c, ls[0].gap, l, next, out);
    }
  }

  lemma EndsLex(env: Env, buf: string, p: nat, q: nat, r: nat, c: Ctx, gap: seq<Unit>, l: Lex, next: Ctx, out: (Status, seq<Call>))
    requires GapOk(gap) && LexOk(l) && Takes(env, c, l, next) && q == p + |GapText(gap)| && r == q + |LexText(l)|
    requires Stands(buf, p, GapText(gap)) && Stands(buf, q, LexText(l))
    requires (Open(l) ==> !IsOptChar(At(buf, r))) && Ends(env, buf, r, next, out)
    ensures Ends(env, buf, p, c, out)
  {
    LexEnds(env, buf, q, r, c, l, next, out);
    EndsGap(env, buf, p, q, c, gap, out);
  }

  lemma LexEnds(env: Env, buf: string, q: nat, r: nat, c: Ctx, l: Lex, next: Ctx, out: (Status, seq<Call>))
    requires LexOk(l) && Takes(env, c, l, next) && r == q + |LexText(l)| && Stands(buf, q, LexText(l))
    requires (Open(l) ==> !IsOptChar(At(buf, r))) && Ends(env, buf, r, next, out)
    ensures Ends(env, buf, q, c, out)
  {
    assert ShowFeed(l, 0);
    ReadsLex(env, buf, q, c, l, next);
    EndsToken(env, buf, q, c, r, next, out);
  }

  // What is printed: objects and scopes with their settings.

  datatype Value = Text(s: string) | Num(s: string) | Yes(w: string) | No(w: string) | Items(xs: seq<string>)
  datatype Setting = Setting(opt: nat, value: Value)
  datatype Mode = New | Extended | Overridden
  /** An object with its settings, or ended by a semicolon; a scope with its settings, or ended
      by a semicolon; a directive.  Each may stand after extend: or override:, which is meant
      for objects only. */
  datatype Item = Object(mode: Mode, cls: nat, name: string, from: Option<string>, settings: seq<Setting>)
    | Bare(mode: Mode, cls: nat, name: string, from: Option<string>)
    | Values(mode: Mode, sc: nat, settings: seq<Setting>)
    | BareScope(mode: Mode, sc: nat)
    | Direct(mode: Mode, dir: nat, arg: string)

  /** What stands set between items; of a scope, that it has been named and not ended by a brace. */
  datatype Flags = Flags(mode: Mode, scope: bool)

  const CLEAR := Flags(New, false)

  function ItemLexes(xs: seq<string>): seq<Lex> {
    if xs == [] then [] else [Quote(xs[0])] + ([Sign(if |xs| == 1 then '}' else ',')] + ItemLexes(xs[1..]))
  }

  function ValueLexes(v: Value): seq<Lex> {
    match v
    case Text(s) => [Quote(s)]
    case Num(s) => [Number(s)]
    case Yes(w) => [True(w)]
    case No(w) => [False(w)]
    case Items(xs) => [Sign('{')] + ItemLexes(xs)
  }

  function SettingLexes(name: string, v: Value): seq<Lex> {
    [OptName(name)] + ([Sign('=')] + (ValueLexes(v) + [Sign(';')]))
  }

  /** The value suits the option; scopes have neither arrays nor flags. */
  ghost predicate Suits(o: Opt, v: Value, scope: bool) {
    match v
    case Text(s) => (o.typ == STRING || o.typ == EXTRA) && NoBreak(s)
    case Num(s) => (o.typ == UINT || (o.typ == FLAG && !scope)) && LexOk(Number(s))
    case Yes(w) => o.typ == FLAG && !scope && LexOk(True(w))
    case No(w) => o.typ == FLAG && !scope && LexOk(False(w))
    case Items(xs) => o.typ == ARRAY && !scope && xs != [] && forall k :: 0 <= k < |xs| ==> NoBreak(xs[k])
  }

  /** The calls a setting stands for. */
  function ValueCalls(o: Opt, k: nat, v: Value, flags: bool): seq<Call> {
    match v
    case Text(s) => if !o.stored then [] else if o.typ == EXTRA then [Set(k, s)] else [Store(k, s)]
    case Num(s) =>
      if !(forall i :: 0 <= i < |s| ==> IsDigit(s[i])) then []
      else if o.typ == UINT then (if o.stored then [StoreUint(k, NumberOf(s))] else [])
      else if NumberOf(s) != 0 && flags then [SetFlag(k)] else []
    case Yes(_) => if flags then [SetFlag(k)] else []
    case No(_) => []
    case Items(xs) => if o.stored then [SetArray(k, xs)] else []
  }

  lemma TakesMore(env: Env, c: Ctx, l: Lex, next: Ctx, ls: seq<Lex>, end: Ctx)
    requires Takes(env, c, l, next) && TakesAll(env, next, ls, end)
    ensures TakesAll(env, c, [l] + ls, end)
  {
    assert ShowFeed(l, 0) && ShowFeeds(ls, 0);
    assert ([l] + ls)[1..] == ls;
  }

  lemma {:induction false} TakesBoth(env: Env, c: Ctx, a: seq<Lex>, mid: Ctx, b: seq<Lex>, end: Ctx)
    requires TakesAll(env, c, a, mid) && TakesAll(env, mid, b, end)
    ensures TakesAll(env, c, a + b, end)
    decreases |a|
  {
    if a == [] {
      TakesNone(env, c, mid);
      assert a + b == b;
    } else {
      var next := TakesFirst(env, c, a, mid);
      TakesBoth(env, next, a[1..], mid, b, end);
      TakesMore(env, c, a[0], next, a[1..] + b, end);
      assert [a[0]] + (a[1..] + b) == a + b;
    }
  }

  lemma TakesOne(env: Env, c: Ctx, l: Lex, next: Ctx)
    requires Feed(env, c, l) == Some(next)
    ensures Takes(env, c, l, next) && TakesAll(env, c, [l], next)
  {
    assert FeedAll(env, c, [l]) == Some(next) by { assert [l][1..] == []; }
  }

  /** The names of an array, after its opening brace or a comma. */
  lemma {:induction false} TakesItems(env: Env, c: Ctx, o: Opt, xs: seq<string>, end: Ctx)
    requires c.state == ARRAY_VAL && OptAt(env, c) == Some(o) && xs != []
    requires end == (if o.stored then Called(c, SetArray(c.opt, c.items + xs)) else c).(items := [], state := POST_VAL)
    requires !o.stored ==> c.items == []
    ensures TakesAll(env, c, ItemLexes(xs), end)
    decreases |xs|
  {
    var c1 := c.(items := (if o.stored then c.items + [xs[0]] else c.items), state := ARRAY_PRE_VAL);
    TakesOne(env, c, Quote(xs[0]), c1);
    if |xs| == 1 {
      assert c.items + [xs[0]] == c.items + xs;
      TakesOne(env, c1, Sign('}'), end);
      assert ItemLexes(xs) == [Quote(xs[0])] + [Sign('}')];
      TakesMore(env, c, Quote(xs[0]), c1, [Sign('}')], end);
    } else {
      var c2 := c1.(state := ARRAY_VAL);
      TakesOne(env, c1, Sign(','), c2);
      assert c.items + [xs[0]] + xs[1..] == c.items + xs;
      TakesItems(env, c2, o, xs[1..], end);
      TakesMore(env, c1, Sign(','), c2, ItemLexes(xs[1..]), end);
      TakesMore(env, c, Quote(xs[0]), c1, [Sign(',')] + ItemLexes(xs[1..]), end);
    }
  }

  lemma TakesValue(env: Env, c: Ctx, o: Opt, v: Value, end: Ctx)
    requires c.state == VAL && c.items == [] && OptAt(env, c) == Some(o) && Suits(o, v, c.scope)
    requires end == c.(calls := c.calls + ValueCalls(o, c.opt, v, HasFlags(env, c)), state := POST_VAL)
    ensures TakesAll(env, c, ValueLexes(v), end)
  {
    assert c.calls + [] == c.calls;
    match v
    case Text(s) => TakesOne(env, c, Quote(s), end);
    case Num(s) => TakesOne(env, c, Number(s), end);
    case Yes(w) => TakesOne(env, c, True(w), end);
    case No(w) => TakesOne(env, c, False(w), end);
    case Items(xs) =>
      var c1 := c.(state := ARRAY_VAL);
      TakesOne(env, c, Sign('{'), c1);
      assert c1.items + xs == xs;
      TakesItems(env, c1, o, xs, end);
      TakesMore(env, c, Sign('{'), c1, ItemLexes(xs), end);
  }

  /** An option of the object or scope at hand, under its own name. */
  ghost predicate SettingOk(opts: seq<Opt>, s: Setting, scope: bool) {
    && s.opt < |opts| && LexOk(OptName(opts[s.opt].name)) && Suits(opts[s.opt], s.value, scope)
    && FindOpt(opts, opts[s.opt].name, 0) == s.opt
  }

  lemma TakesSetting(env: Env, c: Ctx, s: Setting, end: Ctx)
    requires c.state == OBJ && c.items == [] && SettingOk(Opts(env, c), s, c.scope)
    requires var o := Opts(env, c)[s.opt];
      end == c.(opt := s.opt, calls := c.calls + ValueCalls(o, s.opt, s.value, HasFlags(env, c)))
    ensures TakesAll(env, c, SettingLexes(Opts(env, c)[s.opt].name, s.value), end)
  {
    var o := Opts(env, c)[s.opt];
    var c1 := c.(opt := s.opt, state := PRE_VAL);
    var c2 := c1.(state := VAL);
    var c3 := end.(state := POST_VAL);
    TakesOne(env, c, OptName(o.name), c1);
    TakesOne(env, c1, Sign('='), c2);
    TakesValue(env, c2, o, s.value, c3);
    TakesOne(env, c3, Sign(';'), end);
    TakesBoth(env, c2, ValueLexes(s.value), c3, [Sign(';')], end);
    TakesMore(env, c1, Sign('='), c2, ValueLexes(s.value) + [Sign(';')], end);
    TakesMore(env, c, OptName(o.name), c1, [Sign('=')] + (ValueLexes(s.value) + [Sign(';')]), end);
  }

  ghost predicate SettingsOk(opts: seq<Opt>, ss: seq<Setting>, scope: bool) {
    forall k :: 0 <= k < |ss| ==> SettingOk(opts, ss[k], scope)
  }

  function SettingsLexes(opts: seq<Opt>, ss: seq<Setting>): seq<Lex>
    requires forall k :: 0 <= k < |ss| ==> ss[k].opt < |opts|
  {
    if ss == [] then [] else SettingLexes(opts[ss[0].opt].name, ss[0].value) + SettingsLexes(opts, ss[1..])
  }

  function SettingsCalls(opts: seq<Opt>, ss: seq<Setting>, flags: bool): seq<Call>
    requires forall k :: 0 <= k < |ss| ==> ss[k].opt < |opts|
  {
    if ss == [] then []
    else ValueCalls(opts[ss[0].opt], ss[0].opt, ss[0].value, flags) + SettingsCalls(opts, ss[1..], flags)
  }

  /** The option last read stays in curr_opt. */
  function LastOpt(ss: seq<Setting>, k: nat): nat { if ss == [] then k else ss[|ss| - 1].opt }

  lemma SettingsFirst(opts: seq<Opt>, ss: seq<Setting>, flags: bool, calls: seq<Call>)
    requires ss != [] && forall k :: 0 <= k < |ss| ==> ss[k].opt < |opts|
    ensures SettingsLexes(opts, ss) == SettingLexes(opts[ss[0].opt].name, ss[0].value) + SettingsLexes(opts, ss[1..])
    ensures calls + SettingsCalls(opts, ss, flags)
      == calls + ValueCalls(opts[ss[0].opt], ss[0].opt, ss[0].value, flags) + SettingsCalls(opts, ss[1..], flags)
  {
    Regroup(calls, ValueCalls(opts[ss[0].opt], ss[0].opt, ss[0].value, flags), SettingsCalls(opts, ss[1..], flags));
  }

  lemma TakesNothing(env: Env, c: Ctx)
    ensures TakesAll(env, c, [], c)
  {
  }

  /** A context inside an object or a scope with those options. */
  ghost predicate Inside(env: Env, c: Ctx, opts: seq<Opt>, flags: bool) {
    c.state == OBJ && c.items == [] && opts == Opts(env, c) && flags == HasFlags(env, c)
  }

  lemma TakesFirstSetting(env: Env, c: Ctx, opts: seq<Opt>, flags: bool, ss: seq<Setting>, mid: Ctx)
    requires Inside(env, c, opts, flags) && ss != [] && SettingsOk(opts, ss, c.scope)
    requires mid == c.(opt := ss[0].opt,
                       calls := c.calls + ValueCalls(opts[ss[0].opt], ss[0].opt, ss[0].value, flags))
    ensures Inside(env, mid, opts, flags) && SettingsOk(opts, ss[1..], mid.scope)
    ensures TakesAll(env, c, SettingLexes(opts[ss[0].opt].name, ss[0].value), mid)
  {
    assert SettingOk(opts, ss[0], c.scope);
    TakesSetting(env, c, ss[0], mid);
  }

  lemma {:induction false} TakesSettings(env: Env, c: Ctx, opts: seq<Opt>, flags: bool, ss: seq<Setting>, end: Ctx)
    requires Inside(env, c, opts, flags) && SettingsOk(opts, ss, c.scope)
    requires end == c.(opt := LastOpt(ss, c.opt), calls := c.calls + SettingsCalls(opts, ss, flags))
    ensures TakesAll(env, c, SettingsLexes(opts, ss), end)
    decreases |ss|
  {
    if ss == [] {
      assert c.calls + [] == c.calls;
      TakesNothing(env, c);
    } else {
      var o, k, v := opts[ss[0].opt], ss[0].opt, ss[0].value;
      var mid := c.(opt := k, calls := c.calls + ValueCalls(o, k, v, flags));
      TakesFirstSetting(env, c, opts, flags, ss, mid);
      SettingsFirst(opts, ss, flags, c.calls);
      TakesSettings(env, mid, opts, flags, ss[1..], end);
      TakesBoth(env, c, SettingLexes(o.name, v), mid, SettingsLexes(opts, ss[1..]), end);
    }
  }

  function CopyLexes(from: Option<string>): seq<Lex> {
    match from case None => [] case Some(s) => [CopyWord, Quote(s)]
  }

  function ModeLexes(m: Mode): seq<Lex> {
    match m case New => [] case Extended => [Extend] case Overridden => [Override]
  }

  function ClassName(env: Env, cls: nat): string { if cls < |env.classes| then env.classes[cls].name else "" }
  function ScopeName(env: Env, sc: nat): string { if sc < |env.scopes| then env.scopes[sc].name else "" }
  function DirectiveName(env: Env, dir: nat): string { if dir < |env.directives| then env.directives[dir] else "" }
  function ClassOpts(env: Env, cls: nat): seq<Opt> { if cls < |env.classes| then env.classes[cls].opts else [] }
  function ScopeOpts(env: Env, sc: nat): seq<Opt> { if sc < |env.scopes| then env.scopes[sc].opts else [] }
  function ClassFlags(env: Env, cls: nat): bool { cls < |env.classes| && env.classes[cls].flags }

  /** [extend: or override:] class ["name" copy "from"] and what follows the bracket. */
  function HeadLexes(env: Env, mode: Mode, cls: nat, name: string, from: Option<string>, sign: char): seq<Lex> {
    ModeLexes(mode) + ([Word(ClassName(env, cls))] + NamedLexes(name, from, sign))
  }

  function BodyLexes(opts: seq<Opt>, ss: seq<Setting>): seq<Lex>
    requires forall k :: 0 <= k < |ss| ==> ss[k].opt < |opts|
  {
    SettingsLexes(opts, ss) + [Sign('}')]
  }

  ghost predicate NamedOk(env: Env, cls: nat, name: string, from: Option<string>) {
    && cls < |env.classes| && LexOk(Word(env.classes[cls].name))
    && FindClass(env.classes, env.classes[cls].name, 0) == cls
    && name != "" && NoBreak(name) && (from.Some? ==> from.value != "" && NoBreak(from.value))
  }

  ghost predicate ScopeOk(env: Env, sc: nat) {
    && sc < |env.scopes| && LexOk(Word(env.scopes[sc].name))
    && FindClass(env.classes, env.scopes[sc].name, 0) == |env.classes|
    && FindScope(env.scopes, env.scopes[sc].name, 0) == sc
  }

  /** The names stand for what is meant, and the values suit the options. */
  ghost predicate ItemOk(env: Env, item: Item) {
    match item
    case Object(_, cls, name, from, ss) => NamedOk(env, cls, name, from) && SettingsOk(ClassOpts(env, cls), ss, false)
    case Bare(_, cls, name, from) => NamedOk(env, cls, name, from)
    case Values(_, sc, ss) => ScopeOk(env, sc) && SettingsOk(ScopeOpts(env, sc), ss, true)
    case BareScope(_, sc) => ScopeOk(env, sc)
    case Direct(_, dir, arg) =>
      && dir < |env.directives| && LexOk(Word(env.directives[dir])) && NoBreak(arg)
      && FindClass(env.classes, env.directives[dir], 0) == |env.classes|
      && FindScope(env.scopes, env.directives[dir], 0) == |env.scopes|
      && FindDirective(env.directives, env.directives[dir], 0) == dir
  }

  /** Between items.  What ends in a semicolon leaves its flags behind. */
  ghost predicate Between(c: Ctx, f: Flags) {
    c.state == ROOT && !c.copy && c.scope == f.scope && c.items == [] && ModeOf(c, f.mode)
  }

  /** What becomes of an item that follows one whose flags are still set. */
  function Join(pending: Mode, mode: Mode): Mode {
    if pending.Overridden? || mode.New? then pending else mode
  }

  /** The callbacks find what they look for and report success. */
  ghost predicate Willing(env: Env) { forall calls :: env.ok(calls) }

  function ObjectCalls(mode: Mode, cls: nat, name: string): seq<Call> {
    match mode
    case New => [Construct(cls, name)]
    case Extended => [Find(cls, name)]
    case Overridden => [Find(cls, name), Zero(cls)]
  }

  function CopyCalls(cls: nat, from: Option<string>): seq<Call> {
    match from case None => [] case Some(s) => [Find(cls, s), Copy(cls)]
  }

  ghost predicate ModeOf(c: Ctx, mode: Mode) {
    c.extend == !mode.New? && c.override == mode.Overridden?
  }

  lemma TakesMode(env: Env, c: Ctx, f: Flags, mode: Mode) returns (mid: Ctx)
    requires Between(c, f)
    ensures TakesAll(env, c, ModeLexes(mode), mid) && Between(mid, f.(mode := Join(f.mode, mode)))
    ensures mid == c.(extend := mid.extend, override := mid.override)
  {
    var made := Join(f.mode, mode);
    mid := c.(extend := !made.New?, override := made.Overridden?);
    match mode
    case New => TakesNothing(env, c);
    case Extended => TakesOne(env, c, Extend, mid);
    case Overridden => TakesOne(env, c, Override, mid);
  }

  lemma TakesName(env: Env, c: Ctx, mode: Mode, name: string) returns (mid: Ctx)
    requires Willing(env) && c.state == NAME && !c.copy && name != "" && ModeOf(c, mode)
    ensures TakesAll(env, c, [Quote(name)], mid)
    ensures mid == c.(state := POST_NAME, calls := c.calls + ObjectCalls(mode, c.curr, name))
  {
    mid := c.(state := POST_NAME, calls := c.calls + ObjectCalls(mode, c.curr, name));
    assert env.ok(c.calls + [Find(c.curr, name)]);
    assert c.calls + [Find(c.curr, name)] + [Zero(c.curr)] == c.calls + [Find(c.curr, name), Zero(c.curr)];
    TakesOne(env, c, Quote(name), mid);
  }

  lemma TakesCopy(env: Env, c: Ctx, from: Option<string>) returns (mid: Ctx)
    requires Willing(env) && c.state == POST_NAME && !c.copy && (from.Some? ==> from.value != "")
    ensures TakesAll(env, c, CopyLexes(from) + [Sign(']')], mid)
    ensures mid == c.(state := PRE_OBJ, calls := c.calls + CopyCalls(c.curr, from))
  {
    mid := c.(state := PRE_OBJ, calls := c.calls + CopyCalls(c.curr, from));
    match from {
      case None =>
        assert c.calls + [] == c.calls;
        assert CopyLexes(from) + [Sign(']')] == [Sign(']')];
        TakesOne(env, c, Sign(']'), mid);
      case Some(s) =>
        var c1 := c.(copy := true, state := NAME);
        var c2 := mid.(state := END_NAME);
        var found := c.calls + [Find(c.curr, s)];
        assert env.ok(found) && env.ok(found + [Copy(c.curr)]);
        assert found + [Copy(c.curr)] == c.calls + CopyCalls(c.curr, from);
        TakesOne(env, c, CopyWord, c1);
        TakesOne(env, c1, Quote(s), c2);
        TakesOne(env, c2, Sign(']'), mid);
        TakesMore(env, c1, Quote(s), c2, [Sign(']')], mid);
        TakesMore(env, c, CopyWord, c1, [Quote(s)] + [Sign(']')], mid);
        assert [CopyWord] + ([Quote(s)] + [Sign(']')]) == CopyLexes(from) + [Sign(']')];
    }
  }

  function NamedLexes(name: string, from: Option<string>, sign: char): seq<Lex> {
    [Sign('[')] + ([Quote(name)] + ((CopyLexes(from) + [Sign(']')]) + [Sign(sign)]))
  }

  /** An object's name and what it is copied from, up to the brace or semicolon. */
  lemma TakesNamed(env: Env, c: Ctx, mode: Mode, name: string, from: Option<string>, sign: char) returns (mid: Ctx)
    requires Willing(env) && c.state == PRE_NAME && !c.copy && name != "" && ModeOf(c, mode)
    requires (from.Some? ==> from.value != "") && (sign == '{' || sign == ';')
    ensures TakesAll(env, c, NamedLexes(name, from, sign), mid)
    ensures mid == c.(state := if sign == '{' then OBJ else ROOT,
                      calls := c.calls + (ObjectCalls(mode, c.curr, name) + CopyCalls(c.curr, from)))
  {
    var c1 := c.(state := NAME);
    TakesOne(env, c, Sign('['), c1);
    var c2 := TakesName(env, c1, mode, name);
    var c3 := TakesCopy(env, c2, from);
    mid := c3.(state := if sign == '{' then OBJ else ROOT);
    TakesOne(env, c3, Sign(sign), mid);
    assert c.calls + ObjectCalls(mode, c.curr, name) + CopyCalls(c.curr, from)
      == c.calls + (ObjectCalls(mode, c.curr, name) + CopyCalls(c.curr, from));
    TakesBoth(env, c2, CopyLexes(from) + [Sign(']')], c3, [Sign(sign)], mid);
    TakesBoth(env, c1, [Quote(name)], c2, CopyLexes(from) + [Sign(']')] + [Sign(sign)], mid);
    TakesMore(env, c, Sign('['), c1, [Quote(name)] + ((CopyLexes(from) + [Sign(']')]) + [Sign(sign)]), mid);
  }

  /** The same, from the class's name on. */
  lemma TakesHead(env: Env, c: Ctx, f: Flags, mode: Mode, cls: nat, name: string, from: Option<string>, sign: char)
      returns (mid: Ctx)
    requires Willing(env) && Between(c, f) && NamedOk(env, cls, name, from) && (sign == '{' || sign == ';')
    ensures TakesAll(env, c, HeadLexes(env, mode, cls, name, from, sign), mid) && ModeOf(mid, Join(f.mode, mode))
    ensures mid == c.(state := if sign == '{' then OBJ else ROOT, curr := cls, extend := mid.extend, override := mid.override,
                      calls := c.calls + (ObjectCalls(Join(f.mode, mode), cls, name) + CopyCalls(cls, from)))
  {
    var w := env.classes[cls].name;
    var c1 := TakesMode(env, c, f, mode);
    var c2 := c1.(state := PRE_NAME, curr := cls);
    TakesOne(env, c1, Word(w), c2);
    mid := TakesNamed(env, c2, Join(f.mode, mode), name, from, sign);
    TakesMore(env, c1, Word(w), c2, NamedLexes(name, from, sign), mid);
    TakesBoth(env, c, ModeLexes(mode), c1, [Word(w)] + NamedLexes(name, from, sign), mid);
  }

  /** A new object is added when it is complete. */
  function AddCalls(mode: Mode, cls: nat): seq<Call> { if mode.New? then [Add(cls)] else [] }

  function ItemLexesOf(env: Env, item: Item): seq<Lex>
    requires ItemOk(env, item)
  {
    match item
    case Object(mode, cls, name, from, ss) => HeadLexes(env, mode, cls, name, from, '{') + BodyLexes(ClassOpts(env, cls), ss)
    case Bare(mode, cls, name, from) => HeadLexes(env, mode, cls, name, from, ';')
    case Values(mode, sc, ss) =>
      ModeLexes(mode) + ([Word(ScopeName(env, sc))] + ([Sign('{')] + BodyLexes(ScopeOpts(env, sc), ss)))
    case BareScope(mode, sc) => ModeLexes(mode) + ([Word(ScopeName(env, sc))] + [Sign(';')])
    case Direct(mode, dir, arg) => ModeLexes(mode) + ([Dir(DirectiveName(env, dir))] + [Quote(arg)])
  }

  /** An object read while a scope's flag stands has no settings: the code would look them up in
      its class as if that were a scope. */
  predicate Fits(f: Flags, item: Item) { item.Object? && f.scope ==> item.settings == [] }

  /** The calls an item makes, in order.  An object read while a scope's flag stands is not added. */
  function ItemCalls(env: Env, f: Flags, item: Item): seq<Call>
    requires ItemOk(env, item)
  {
    match item
    case Object(mode, cls, name, from, ss) =>
      var made := Join(f.mode, mode);
      (ObjectCalls(made, cls, name) + CopyCalls(cls, from))
      + if f.scope then [] else SettingsCalls(ClassOpts(env, cls), ss, ClassFlags(env, cls)) + AddCalls(made, cls)
    case Bare(mode, cls, name, from) => ObjectCalls(Join(f.mode, mode), cls, name) + CopyCalls(cls, from)
    case Values(_, sc, ss) => SettingsCalls(ScopeOpts(env, sc), ss, false)
    case BareScope(_, _) => []
    case Direct(_, dir, arg) => [Directive(dir, arg)]
  }

  /** The flags an item leaves set: a closing brace clears the scope's flag if it stands, else
      the others. */
  function Left(f: Flags, item: Item): Flags {
    var more := f.(mode := Join(f.mode, item.mode));
    match item
    case Object(_, _, _, _, _) => if f.scope then more.(scope := false) else CLEAR
    case Bare(_, _, _, _) => more
    case Values(_, _, _) => more.(scope := false)
    case BareScope(_, _) => more.(scope := true)
    case Direct(_, _, _) => more
  }

  /** The settings and the closing brace. */
  lemma TakesBody(env: Env, c: Ctx, opts: seq<Opt>, flags: bool, ss: seq<Setting>, end: Ctx)
    requires Willing(env) && Inside(env, c, opts, flags) && SettingsOk(opts, ss, c.scope)
    requires var made := c.calls + SettingsCalls(opts, ss, flags);
      end == c.(opt := LastOpt(ss, c.opt), state := ROOT, scope := false,
                extend := c.extend && c.scope, override := c.override && (c.scope || !c.extend),
                calls := if c.scope || c.extend then made else made + [Add(c.curr)])
    ensures TakesAll(env, c, BodyLexes(opts, ss), end)
  {
    var c2 := c.(opt := LastOpt(ss, c.opt), calls := c.calls + SettingsCalls(opts, ss, flags));
    TakesSettings(env, c, opts, flags, ss, c2);
    assert env.ok(c2.calls + [Add(c.curr)]);
    TakesOne(env, c2, Sign('}'), end);
    TakesBoth(env, c, SettingsLexes(opts, ss), c2, [Sign('}')], end);
  }

  lemma TakesObject(env: Env, c: Ctx, f: Flags, item: Item) returns (end: Ctx)
    requires Willing(env) && Between(c, f) && ItemOk(env, item) && item.Object? && !f.scope
    ensures TakesAll(env, c, ItemLexesOf(env, item), end) && Between(end, CLEAR)
    ensures end.calls == c.calls + ItemCalls(env, f, item)
  {
    var Object(mode, cls, name, from, ss) := item;
    var opts, flags, made := ClassOpts(env, cls), ClassFlags(env, cls), Join(f.mode, mode);
    var c1 := TakesHead(env, c, f, mode, cls, name, from, '{');
    var put := SettingsCalls(opts, ss, flags);
    end := c1.(opt := LastOpt(ss, c1.opt), state := ROOT, extend := false, override := false,
               calls := if c1.extend then c1.calls + put else c1.calls + put + [Add(cls)]);
    TakesBody(env, c1, opts, flags, ss, end);
    TakesBoth(env, c, HeadLexes(env, mode, cls, name, from, '{'), c1, BodyLexes(opts, ss), end);
    Assoc(c.calls, ObjectCalls(made, cls, name) + CopyCalls(cls, from), put, AddCalls(made, cls));
  }

  lemma Assoc(a: seq<Call>, b: seq<Call>, c: seq<Call>, d: seq<Call>)
    ensures a + b + c + d == a + (b + (c + d))
    ensures d == [] ==> a + b + c == a + (b + (c + d))
  {
  }

  /** An object whose closing brace ends a scope instead. */
  lemma TakesAsScope(env: Env, c: Ctx, f: Flags, item: Item) returns (end: Ctx)
    requires Willing(env) && Between(c, f) && ItemOk(env, item) && item.Object? && f.scope && item.settings == []
    ensures TakesAll(env, c, ItemLexesOf(env, item), end) && Between(end, Left(f, item))
    ensures end.calls == c.calls + ItemCalls(env, f, item)
  {
    var Object(mode, cls, name, from, ss) := item;
    var made := ObjectCalls(Join(f.mode, mode), cls, name) + CopyCalls(cls, from);
    var c1 := TakesHead(env, c, f, mode, cls, name, from, '{');
    end := c1.(state := ROOT, scope := false);
    assert c1.calls + [] == c1.calls && made + [] == made;
    TakesBody(env, c1, Opts(env, c1), false, [], end);
    assert BodyLexes(Opts(env, c1), []) == BodyLexes(ClassOpts(env, cls), ss);
    TakesBoth(env, c, HeadLexes(env, mode, cls, name, from, '{'), c1, BodyLexes(ClassOpts(env, cls), ss), end);
  }

  lemma TakesValues(env: Env, c: Ctx, f: Flags, sc: nat, ss: seq<Setting>) returns (end: Ctx)
    requires Willing(env) && Between(c, f) && ScopeOk(env, sc) && SettingsOk(ScopeOpts(env, sc), ss, true)
    ensures TakesAll(env, c, [Word(ScopeName(env, sc))] + ([Sign('{')] + BodyLexes(ScopeOpts(env, sc), ss)), end)
    ensures Between(end, f.(scope := false)) && end.calls == c.calls + SettingsCalls(ScopeOpts(env, sc), ss, false)
  {
    var opts, w := ScopeOpts(env, sc), env.scopes[sc].name;
    var c1 := c.(state := PRE_OBJ, curr := sc, scope := true);
    var c2 := c1.(state := OBJ);
    end := c.(curr := sc, scope := false, opt := LastOpt(ss, c.opt), calls := c.calls + SettingsCalls(opts, ss, false));
    TakesOne(env, c, Word(w), c1);
    TakesOne(env, c1, Sign('{'), c2);
    TakesBody(env, c2, opts, false, ss, end);
    TakesMore(env, c1, Sign('{'), c2, BodyLexes(opts, ss), end);
    TakesMore(env, c, Word(w), c1, [Sign('{')] + BodyLexes(opts, ss), end);
  }

  lemma TakesBareScope(env: Env, c: Ctx, f: Flags, sc: nat) returns (end: Ctx)
    requires Between(c, f) && ScopeOk(env, sc)
    ensures TakesAll(env, c, [Word(ScopeName(env, sc))] + [Sign(';')], end)
    ensures Between(end, f.(scope := true)) && end.calls == c.calls
  {
    var w := env.scopes[sc].name;
    var c1 := c.(state := PRE_OBJ, curr := sc, scope := true);
    end := c1.(state := ROOT);
    TakesOne(env, c, Word(w), c1);
    TakesOne(env, c1, Sign(';'), end);
    TakesMore(env, c, Word(w), c1, [Sign(';')], end);
  }

  lemma TakesDirect(env: Env, c: Ctx, f: Flags, dir: nat, arg: string) returns (end: Ctx)
    requires Willing(env) && Between(c, f) && ItemOk(env, Direct(New, dir, arg))
    ensures TakesAll(env, c, [Dir(DirectiveName(env, dir))] + [Quote(arg)], end)
    ensures Between(end, f) && end.calls == c.calls + [Directive(dir, arg)]
  {
    var c1 := c.(state := DIRECTIVE_ARG, dir := dir);
    end := Called(c1, Directive(dir, arg)).(state := ROOT);
    assert env.ok(c1.calls + [Directive(dir, arg)]);
    TakesOne(env, c, Dir(env.directives[dir]), c1);
    TakesOne(env, c1, Quote(arg), end);
    TakesMore(env, c, Dir(env.directives[dir]), c1, [Quote(arg)], end);
  }

  /** Scopes and directives, after a prefix or not. */
  lemma TakesOther(env: Env, c: Ctx, f: Flags, item: Item) returns (end: Ctx)
    requires Willing(env) && Between(c, f) && ItemOk(env, item) && !item.Object? && !item.Bare?
    ensures TakesAll(env, c, ItemLexesOf(env, item), end) && Between(end, Left(f, item))
    ensures end.calls == c.calls + ItemCalls(env, f, item)
  {
    var more := f.(mode := Join(f.mode, item.mode));
    var mid := TakesMode(env, c, f, item.mode);
    match item {
      case Values(mode, sc, ss) =>
        end := TakesValues(env, mid, more, sc, ss);
        TakesBoth(env, c, ModeLexes(mode), mid, [Word(ScopeName(env, sc))] + ([Sign('{')] + BodyLexes(ScopeOpts(env, sc), ss)), end);
      case BareScope(mode, sc) =>
        end := TakesBareScope(env, mid, more, sc);
        TakesBoth(env, c, ModeLexes(mode), mid, [Word(ScopeName(env, sc))] + [Sign(';')], end);
        assert c.calls + [] == c.calls;
      case Direct(mode, dir, arg) =>
        end := TakesDirect(env, mid, more, dir, arg);
        TakesBoth(env, c, ModeLexes(mode), mid, [Dir(DirectiveName(env, dir))] + [Quote(arg)], end);
    }
  }

  /** An item makes its calls; what it becomes depends on the flags left by those before. */
  lemma TakesItem(env: Env, c: Ctx, f: Flags, item: Item) returns (end: Ctx)
    requires Willing(env) && Between(c, f) && ItemOk(env, item) && Fits(f, item)
    ensures TakesAll(env, c, ItemLexesOf(env, item), end) && Between(end, Left(f, item))
    ensures end.calls == c.calls + ItemCalls(env, f, item)
  {
    if item.Object? {
      if f.scope {
        end := TakesAsScope(env, c, f, item);
      } else {
        end := TakesObject(env, c, f, item);
      }
    } else if item.Bare? {
      end := TakesHead(env, c, f, item.mode, item.cls, item.name, item.from, ';');
    } else {
      end := TakesOther(env, c, f, item);
    }
  }

  ghost predicate DocOk(env: Env, doc: seq<Item>) { forall k :: 0 <= k < |doc| ==> ItemOk(env, doc[k]) }

  ghost function DocLexes(env: Env, doc: seq<Item>): seq<Lex>
    requires DocOk(env, doc)
  {
    if doc == [] then [] else ItemLexesOf(env, doc[0]) + DocLexes(env, doc[1..])
  }

  predicate DocFits(f: Flags, doc: seq<Item>)
    decreases |doc|
  {
    doc != [] ==> Fits(f, doc[0]) && DocFits(Left(f, doc[0]), doc[1..])
  }

  ghost function DocCalls(env: Env, f: Flags, doc: seq<Item>): seq<Call>
    requires DocOk(env, doc)
    decreases |doc|
  {
    if doc == [] then []
    else ItemCalls(env, f, doc[0]) + DocCalls(env, Left(f, doc[0]), doc[1..])
  }

  lemma DocFirst(env: Env, f: Flags, doc: seq<Item>, calls: seq<Call>)
    requires doc != [] && DocOk(env, doc)
    ensures DocOk(env, doc[1..])
    ensures DocLexes(env, doc) == ItemLexesOf(env, doc[0]) + DocLexes(env, doc[1..])
    ensures calls + DocCalls(env, f, doc)
      == calls + ItemCalls(env, f, doc[0]) + DocCalls(env, Left(f, doc[0]), doc[1..])
  {
    Regroup(calls, ItemCalls(env, f, doc[0]), DocCalls(env, Left(f, doc[0]), doc[1..]));
  }

  lemma {:induction false} TakesDoc(env: Env, c: Ctx, f: Flags, doc: seq<Item>) returns (end: Ctx)
    requires Willing(env) && Between(c, f) && DocOk(env, doc) && DocFits(f, doc)
    ensures TakesAll(env, c, DocLexes(env, doc), end) && end.state == ROOT
    ensures end.calls == c.calls + DocCalls(env, f, doc)
    decreases |doc|
  {
    if doc == [] {
      end := c;
      TakesNothing(env, c);
      assert c.calls + [] == c.calls;
    } else {
      DocFirst(env, f, doc, c.calls);
      var mid := TakesItem(env, c, f, doc[0]);
      end := TakesDoc(env, mid, Left(f, doc[0]), doc[1..]);
      TakesBoth(env, c, ItemLexesOf(env, doc[0]), mid, DocLexes(env, doc[1..]), end);
    }
  }

  // What is printed can stand in a text.

  lemma PrintableBoth(a: seq<Lex>, b: seq<Lex>)
    requires Printable(a) && Printable(b)
    ensures Printable(a + b)
  {
  }

  lemma PrintableOpen(l: Lex, ls: seq<Lex>)
    requires LexOk(l) && Printable(ls) && ls != [] && ls[0].Sign?
    ensures Printable([l] + ls)
  {
  }

  lemma PrintableOne(l: Lex)
    requires LexOk(l) && !Open(l)
    ensures Printable([l])
  {
  }

  lemma {:induction false} PrintableItems(xs: seq<string>)
    requires forall k :: 0 <= k < |xs| ==> NoBreak(xs[k])
    ensures Printable(ItemLexes(xs))
    decreases |xs|
  {
    if xs != [] {
      var sign := Sign(if |xs| == 1 then '}' else ',');
      PrintableItems(xs[1..]);
      PrintableOne(Quote(xs[0]));
      PrintableOne(sign);
      PrintableBoth([sign], ItemLexes(xs[1..]));
      PrintableBoth([Quote(xs[0])], [sign] + ItemLexes(xs[1..]));
    }
  }

  lemma PrintableValue(o: Opt, v: Value, scope: bool)
    requires Suits(o, v, scope)
    ensures Printable(ValueLexes(v) + [Sign(';')])
  {
    PrintableOne(Sign(';'));
    match v
    case Text(s) => PrintableOne(Quote(s)); PrintableBoth([Quote(s)], [Sign(';')]);
    case Num(s) => PrintableOpen(Number(s), [Sign(';')]);
    case Yes(w) => PrintableOne(True(w)); PrintableBoth([True(w)], [Sign(';')]);
    case No(w) => PrintableOne(False(w)); PrintableBoth([False(w)], [Sign(';')]);
    case Items(xs) =>
      PrintableOne(Sign('{'));
      PrintableItems(xs);
      PrintableBoth([Sign('{')], ItemLexes(xs));
      PrintableBoth([Sign('{')] + ItemLexes(xs), [Sign(';')]);
  }

  lemma {:induction false} PrintableSettings(opts: seq<Opt>, ss: seq<Setting>, scope: bool)
    requires SettingsOk(opts, ss, scope)
    ensures Printable(SettingsLexes(opts, ss))
    decreases |ss|
  {
    if ss != [] {
      var o, v := opts[ss[0].opt], ss[0].value;
      PrintableSettings(opts, ss[1..], scope);
      PrintableValue(o, v, scope);
      PrintableOne(Sign('='));
      PrintableBoth([Sign('=')], ValueLexes(v) + [Sign(';')]);
      PrintableOpen(OptName(o.name), [Sign('=')] + (ValueLexes(v) + [Sign(';')]));
      PrintableBoth(SettingLexes(o.name, v), SettingsLexes(opts, ss[1..]));
    }
  }

  lemma PrintableNamed(name: string, from: Option<string>, sign: char)
    requires NoBreak(name) && (from.Some? ==> NoBreak(from.value)) && (sign == '{' || sign == ';')
    ensures Printable(NamedLexes(name, from, sign))
  {
    PrintableOne(Sign('['));
    PrintableOne(Sign(']'));
    PrintableOne(Sign(sign));
    PrintableOne(Quote(name));
    if from.Some? {
      PrintableOne(CopyWord);
      PrintableOne(Quote(from.value));
      PrintableBoth([CopyWord], [Quote(from.value)]);
      assert CopyLexes(from) == [CopyWord] + [Quote(from.value)];
    }
    PrintableBoth(CopyLexes(from), [Sign(']')]);
    PrintableBoth(CopyLexes(from) + [Sign(']')], [Sign(sign)]);
    PrintableBoth([Quote(name)], (CopyLexes(from) + [Sign(']')]) + [Sign(sign)]);
    PrintableBoth([Sign('[')], [Quote(name)] + ((CopyLexes(from) + [Sign(']')]) + [Sign(sign)]));
  }

  lemma PrintableHead(env: Env, mode: Mode, cls: nat, name: string, from: Option<string>, sign: char)
    requires NamedOk(env, cls, name, from) && (sign == '{' || sign == ';')
    ensures Printable(HeadLexes(env, mode, cls, name, from, sign))
  {
    var named := NamedLexes(name, from, sign);
    PrintableNamed(name, from, sign);
    PrintableOpen(Word(ClassName(env, cls)), named);
    PrintableAfterMode(mode, [Word(ClassName(env, cls))] + named);
  }

  lemma PrintableBody(opts: seq<Opt>, ss: seq<Setting>, scope: bool)
    requires SettingsOk(opts, ss, scope)
    ensures Printable(BodyLexes(opts, ss))
  {
    PrintableSettings(opts, ss, scope);
    PrintableOne(Sign('}'));
    PrintableBoth(SettingsLexes(opts, ss), [Sign('}')]);
  }

  lemma PrintableAfterMode(mode: Mode, ls: seq<Lex>)
    requires Printable(ls)
    ensures Printable(ModeLexes(mode) + ls)
  {
    PrintableOne(Extend);
    PrintableOne(Override);
    PrintableBoth(ModeLexes(mode), ls);
  }

  lemma PrintableItem(env: Env, item: Item)
    requires ItemOk(env, item)
    ensures Printable(ItemLexesOf(env, item))
  {
    match item
    case Object(mode, cls, name, from, ss) =>
      PrintableHead(env, mode, cls, name, from, '{');
      PrintableBody(ClassOpts(env, cls), ss, false);
      PrintableBoth(HeadLexes(env, mode, cls, name, from, '{'), BodyLexes(ClassOpts(env, cls), ss));
    case Bare(mode, cls, name, from) => PrintableHead(env, mode, cls, name, from, ';');
    case Values(mode, sc, ss) =>
      var body := BodyLexes(ScopeOpts(env, sc), ss);
      PrintableBody(ScopeOpts(env, sc), ss, true);
      PrintableOne(Sign('{'));
      PrintableBoth([Sign('{')], body);
      PrintableOpen(Word(ScopeName(env, sc)), [Sign('{')] + body);
      PrintableAfterMode(mode, [Word(ScopeName(env, sc))] + ([Sign('{')] + body));
    case BareScope(mode, sc) =>
      PrintableOne(Sign(';'));
      PrintableOpen(Word(ScopeName(env, sc)), [Sign(';')]);
      PrintableAfterMode(mode, [Word(ScopeName(env, sc))] + [Sign(';')]);
    case Direct(mode, dir, arg) =>
      PrintableOne(Dir(DirectiveName(env, dir)));
      PrintableOne(Quote(arg));
      PrintableBoth([Dir(DirectiveName(env, dir))], [Quote(arg)]);
      PrintableAfterMode(mode, [Dir(DirectiveName(env, dir))] + [Quote(arg)]);
  }

  lemma {:induction false} PrintableDoc(env: Env, doc: seq<Item>)
    requires DocOk(env, doc)
    ensures Printable(DocLexes(env, doc))
    decreases |doc|
  {
    if doc != [] {
      PrintableItem(env, doc[0]);
      PrintableDoc(env, doc[1..]);
      PrintableBoth(ItemLexesOf(env, doc[0]), DocLexes(env, doc[1..]));
    }
  }

  /** Parsing undoes printing: whatever blanks and comments stand between the tokens, the
      parser succeeds and makes exactly the calls of the items, in order. */
  lemma RoundTrip(env: Env, doc: seq<Item>, ls: seq<Spaced>, last: seq<Unit>)
    requires Willing(env) && DocOk(env, doc) && DocFits(CLEAR, doc)
    requires Lexes(ls) == DocLexes(env, doc) && GapsOk(ls) && GapOk(last)
    ensures Run(env, TextOf(ls, last), 0, START) == (OK, DocCalls(env, CLEAR, doc))
  {
    var buf := TextOf(ls, last);
    var end := TakesDoc(env, START, CLEAR, doc);
    PrintableDoc(env, doc);
    EndsText(env, buf, 0, START, ls, last, |buf|, end, Finish(end));
    assert ShowRun(0, 0);
    assert [] + DocCalls(env, CLEAR, doc) == DocCalls(env, CLEAR, doc);
  }

  // What is refused.

  /** A string constant from p to its quote at t. */
  predicate QuotedTo(buf: string, p: nat, t: nat) {
    p < t < |buf| && buf[p] == '"' && buf[t] == '"' && NoBreak(buf[p + 1..t])
  }

  /** A whole word from p to k. */
  predicate WordTo(buf: string, p: nat, k: nat, more: string) {
    p < k <= |buf| && NameText(buf[p..k], more) && (k < |buf| ==> !NameText(buf[k..k + 1], more))
  }

  predicate WordAt(buf: string, p: nat, small: string, large: string)
    requires |small| == |large|
  {
    p + |small| <= |buf| && Spells(buf[p..p + |small|], small, large)
  }

  /** The word stands for something at the root. */
  predicate Registered(env: Env, w: string) {
    || (exists k :: 0 <= k < |env.classes| && w <= env.classes[k].name)
    || (exists k :: 0 <= k < |env.scopes| && w <= env.scopes[k].name)
    || (exists k :: 0 <= k < |env.directives| && w <= env.directives[k])
  }

  ghost predicate RootExpects(env: Env, buf: string, p: nat) {
    exists k: nat :: WordTo(buf, p, k, "") &&
      if buf[p..k] == "extend" || buf[p..k] == "override" then k < |buf| && buf[k] == ':' else Registered(env, buf[p..k])
  }

  /** A whole option name from p to e, of which the first character may be any. */
  predicate OptTo(buf: string, p: nat, e: nat) {
    p < e <= |buf| && NameText(buf[p + 1..e], "-") && (e < |buf| ==> !NameText(buf[e..e + 1], "-"))
  }

  ghost predicate ObjExpects(opts: seq<Opt>, buf: string, p: nat)
    requires p < |buf|
  {
    buf[p] == '}' || exists e: nat :: OptTo(buf, p, e) && exists k :: 0 <= k < |opts| && opts[k].name == buf[p..e]
  }

  ghost predicate ValueExpects(o: Opt, scope: bool, buf: string, p: nat)
    requires p < |buf|
  {
    match o.typ
    case ARRAY => buf[p] == '{' && !scope
    case STRING => exists t: nat :: QuotedTo(buf, p, t)
    case EXTRA => exists t: nat :: QuotedTo(buf, p, t)
    case UINT => '0' <= buf[p] <= '9'
    case FLAG => !scope && ('0' <= buf[p] <= '9' || WordAt(buf, p, "true", "TRUE") || WordAt(buf, p, "false", "FALSE"))
  }

  /** What may stand at p, where no blank and no comment does. */
  ghost predicate Expected(env: Env, c: Ctx, buf: string, p: nat)
    requires p < |buf|
  {
    buf[p] != '/' &&
    match c.state
    case ROOT => RootExpects(env, buf, p)
    case DIRECTIVE_ARG => exists t: nat :: QuotedTo(buf, p, t)
    case PRE_NAME => buf[p] == '['
    case NAME => exists t: nat :: QuotedTo(buf, p, t) && t > p + 1
    case POST_NAME => buf[p] == ']' || WordAt(buf, p, "copy", "copy")
    case END_NAME => buf[p] == ']'
    case PRE_OBJ => buf[p] == '{' || buf[p] == ';'
    case OBJ => ObjExpects(Opts(env, c), buf, p)
    case PRE_VAL => buf[p] == '='
    case VAL => c.opt < |Opts(env, c)| && ValueExpects(Opts(env, c)[c.opt], c.scope, buf, p)
    case POST_VAL => buf[p] == ';'
    case ARRAY_VAL => c.opt < |Opts(env, c)| && exists t: nat :: QuotedTo(buf, p, t)
    case ARRAY_PRE_VAL => c.opt < |Opts(env, c)| && (buf[p] == ',' || buf[p] == '}')
  }

  ghost predicate Decides(next: Next, c: Ctx, expected: bool) {
    (next.Go? <==> expected) && (next.Stop? ==> next == Stop(FAILED, c.calls))
  }

  lemma {:induction false} StringEndStops(buf: string, i: nat)
    requires i <= |buf|
    ensures var t := StringEnd(buf, i); NoBreak(buf[i..t]) && (t < |buf| ==> EndsString(buf[t]))
    decreases |buf| - i
  {
    if i < |buf| && !EndsString(buf[i]) {
      StringEndStops(buf, i + 1);
      var t := StringEnd(buf, i);
      assert buf[i..t] == [buf[i]] + buf[i + 1..t];
    }
  }

  lemma QuotedExactly(buf: string, p: nat, t: nat)
    requires p < |buf|
    ensures QuotedTo(buf, p, t) <==> t != 0 && Quoted(buf, p) == t
  {
    if buf[p] == '"' {
      StringEndStops(buf, p + 1);
      if QuotedTo(buf, p, t) {
        forall x | p + 1 <= x < t ensures !EndsString(buf[x]) { assert buf[x] == buf[p + 1..t][x - p - 1]; }
        StringEndIs(buf, p + 1, t);
      }
    }
  }

  lemma QuotedSome(buf: string, p: nat)
    requires p < |buf|
    ensures (exists t: nat :: QuotedTo(buf, p, t)) <==> Quoted(buf, p) != 0
    ensures (exists t: nat :: QuotedTo(buf, p, t) && t > p + 1) <==> Quoted(buf, p) != 0 && Quoted(buf, p) != p + 1
  {
    var q := Quoted(buf, p);
    QuotedExactly(buf, p, q);
    forall t: nat | QuotedTo(buf, p, t) ensures t == q { QuotedExactly(buf, p, t); }
  }

  lemma {:induction false} WordEndStops(buf: string, i: nat)
    requires i <= |buf|
    ensures var k := WordEnd(buf, i); NameText(buf[i..k], "") && (k < |buf| ==> !NameText(buf[k..k + 1], ""))
    decreases |buf| - i
  {
    var k := WordEnd(buf, i);
    if i < |buf| && IsWordChar(buf[i]) {
      WordEndStops(buf, i + 1);
      assert buf[i..k] == [buf[i]] + buf[i + 1..k];
    } else if i < |buf| {
      assert buf[i..i + 1][0] == buf[i];
    }
  }

  lemma {:induction false} OptEndStops(buf: string, i: nat)
    requires i <= |buf|
    ensures var k := OptEnd(buf, i); NameText(buf[i..k], "-") && (k < |buf| ==> !NameText(buf[k..k + 1], "-"))
    decreases |buf| - i
  {
    var k := OptEnd(buf, i);
    if i < |buf| && IsOptChar(buf[i]) {
      OptEndStops(buf, i + 1);
      assert buf[i..k] == [buf[i]] + buf[i + 1..k];
    } else if i < |buf| {
      assert buf[i..i + 1][0] == buf[i];
    }
  }

  lemma WordIs(buf: string, p: nat, k: nat)
    requires p < |buf|
    ensures WordTo(buf, p, k, "") <==> p < k && WordEnd(buf, p) == k
  {
    WordEndStops(buf, p);
    if WordTo(buf, p, k, "") {
      forall x | p <= x < k ensures IsWordChar(buf[x]) { assert buf[x] == buf[p..k][x - p]; }
      assert k < |buf| ==> buf[k] == buf[k..k + 1][0];
      WordEndIs(buf, p, k);
    }
  }

  lemma RootDecides(env: Env, buf: string, p: nat, c: Ctx)
    requires p < |buf|
    ensures Decides(AtRoot(env, buf, p, c), c, RootExpects(env, buf, p))
  {
    var k := WordEnd(buf, p);
    WordIs(buf, p, k);
    forall j: nat | WordTo(buf, p, j, "") ensures j == k { WordIs(buf, p, j); }
    var w := buf[p..k];
    RegisteredIs(env, w);
  }

  lemma RegisteredIs(env: Env, w: string)
    ensures Registered(env, w) <==>
      || FindClass(env.classes, w, 0) < |env.classes|
      || FindScope(env.scopes, w, 0) < |env.scopes|
      || FindDirective(env.directives, w, 0) < |env.directives|
  {
  }

  lemma OptIs(buf: string, p: nat, e: nat)
    requires p < |buf|
    ensures OptTo(buf, p, e) <==> OptEnd(buf, p + 1) == e
  {
    OptEndStops(buf, p + 1);
    if OptTo(buf, p, e) {
      forall x | p + 1 <= x < e ensures IsOptChar(buf[x]) { assert buf[x] == buf[p + 1..e][x - p - 1]; }
      assert e < |buf| ==> buf[e] == buf[e..e + 1][0];
      OptEndIs(buf, p + 1, e);
    }
  }

  lemma ObjDecides(env: Env, buf: string, p: nat, c: Ctx)
    requires Willing(env) && p < |buf|
    ensures Decides(AtObj(env, buf, p, c), c, ObjExpects(Opts(env, c), buf, p))
  {
    if buf[p] == '}' {
      assert env.ok(c.calls + [Add(c.curr)]);
    } else {
      var e := OptEnd(buf, p + 1);
      OptIs(buf, p, e);
      forall j: nat | OptTo(buf, p, j) ensures j == e { OptIs(buf, p, j); }
    }
  }

  lemma DirectiveDecides(env: Env, buf: string, p: nat, c: Ctx)
    requires Willing(env) && p < |buf|
    ensures Decides(AtDirective(env, buf, p, c), c, exists t: nat :: QuotedTo(buf, p, t))
  {
    QuotedSome(buf, p);
    assert Quoted(buf, p) != 0 ==> env.ok(c.calls + [Directive(c.dir, buf[p + 1..Quoted(buf, p)])]);
  }

  lemma NameDecides(env: Env, buf: string, p: nat, c: Ctx)
    requires Willing(env) && p < |buf|
    ensures Decides(AtName(env, buf, p, c), c, exists t: nat :: QuotedTo(buf, p, t) && t > p + 1)
  {
    QuotedSome(buf, p);
    var t := Quoted(buf, p);
    if t != 0 && t != p + 1 {
      var found := c.calls + [Find(c.curr, buf[p + 1..t])];
      assert env.ok(found) && env.ok(found + [Copy(c.curr)]);
    }
  }

  lemma SpellsTrue(buf: string, p: nat)
    ensures IsTrue(buf, p) <==> WordAt(buf, p, "true", "TRUE")
    ensures IsCopy(buf, p) <==> WordAt(buf, p, "copy", "copy")
  {
    if p + 4 <= |buf| {
      var w := buf[p..p + 4];
      assert w[0] == buf[p] && w[1] == buf[p + 1] && w[2] == buf[p + 2] && w[3] == buf[p + 3];
    }
  }

  lemma SpellsFalse(buf: string, p: nat)
    ensures IsFalse(buf, p) <==> WordAt(buf, p, "false", "FALSE")
  {
    if p + 5 <= |buf| {
      var w := buf[p..p + 5];
      assert w[0] == buf[p] && w[1] == buf[p + 1] && w[2] == buf[p + 2] && w[3] == buf[p + 3] && w[4] == buf[p + 4];
    }
  }

  lemma ValueDecides(env: Env, buf: string, p: nat, c: Ctx)
    requires p < |buf|
    ensures Decides(AtVal(env, buf, p, c), c, c.opt < |Opts(env, c)| && ValueExpects(Opts(env, c)[c.opt], c.scope, buf, p))
  {
    SpellsTrue(buf, p);
    SpellsFalse(buf, p);
    QuotedSome(buf, p);
    assert (exists t: nat :: QuotedTo(buf, p, t)) ==> buf[p] == '"';
  }

  lemma ArrayDecides(env: Env, buf: string, p: nat, c: Ctx)
    requires p < |buf| && (c.state == ARRAY_VAL || c.state == ARRAY_PRE_VAL) && buf[p] != '/'
    ensures Decides(AtArray(env, buf, p, c), c, Expected(env, c, buf, p))
  {
    QuotedSome(buf, p);
  }

  lemma SignDecides(env: Env, buf: string, p: nat, c: Ctx)
    requires p < |buf| && c.state in {PRE_NAME, POST_NAME, END_NAME, PRE_OBJ, PRE_VAL, POST_VAL}
    ensures Decides(Token(env, buf, p, c), c, Expected(env, c, buf, p))
  {
    SpellsTrue(buf, p);
  }

  /** With willing callbacks the parser goes on exactly when what stands at p is expected, and else
      fails with the calls made so far. */
  lemma TokenDecides(env: Env, buf: string, p: nat, c: Ctx)
    requires Willing(env) && p < |buf|
    ensures Decides(Token(env, buf, p, c), c, Expected(env, c, buf, p))
  {
    if buf[p] != '/' {
      match c.state
      case ROOT => RootDecides(env, buf, p, c);
      case DIRECTIVE_ARG => DirectiveDecides(env, buf, p, c);
      case NAME => NameDecides(env, buf, p, c);
      case OBJ => ObjDecides(env, buf, p, c);
      case VAL => ValueDecides(env, buf, p, c);
      case ARRAY_VAL => ArrayDecides(env, buf, p, c);
      case ARRAY_PRE_VAL => ArrayDecides(env, buf, p, c);
      case _ => SignDecides(env, buf, p, c);
    }
  }

  /** What follows tokens that led to end is refused: something unexpected, or the end of the
      text anywhere but between items. */
  ghost predicate Refused(env: Env, end: Ctx, buf: string, p: nat) {
    if p < |buf| then Skip(buf, p) == p && !Expected(env, end, buf, p) else p == |buf| && end.state != ROOT
  }

  lemma RefusedEnds(env: Env, end: Ctx, buf: string, p: nat)
    requires Willing(env) && Refused(env, end, buf, p)
    ensures Ends(env, buf, p, end, (FAILED, end.calls))
  {
    if p < |buf| {
      TokenDecides(env, buf, p, end);
    }
  }

  /** Parsing stops at the first thing that is not expected, and fails, with the calls made by
      the tokens before it. */
  lemma StopsAtRefused(env: Env, ls: seq<Spaced>, last: seq<Unit>, end: Ctx, rest: string)
    requires Willing(env) && Printable(Lexes(ls)) && GapsOk(ls) && GapOk(last) && TakesAll(env, START, Lexes(ls), end)
    requires Refused(env, end, TextOf(ls, last) + rest, |TextOf(ls, last)|)
    ensures Run(env, TextOf(ls, last) + rest, 0, START) == (FAILED, end.calls)
  {
    var text := TextOf(ls, last);
    var buf := text + rest;
    RefusedEnds(env, end, buf, |text|);
    EndsText(env, buf, 0, START, ls, last, |text|, end, (FAILED, end.calls));
    assert ShowRun(0, 0);
  }

  // Callbacks that fail.

  predicate SameTables(env: Env, w: Env) {
    env.classes == w.classes && env.scopes == w.scopes && env.directives == w.directives
  }

  /** The n-th call is one whose result counts, and it fails. */
  predicate Fails(env: Env, calls: seq<Call>, n: nat)
    requires n < |calls|
  {
    (calls[n].Find? || calls[n].Copy? || calls[n].Add? || calls[n].Directive?) && !env.ok(calls[..n + 1])
  }

  /** The first call from i on that fails, or the number of calls. */
  function FirstFailure(env: Env, calls: seq<Call>, i: nat): (n: nat)
    requires i <= |calls|
    ensures i <= n <= |calls| && (n < |calls| ==> Fails(env, calls, n))
    ensures forall k :: i <= k < n ==> !Fails(env, calls, k)
    decreases |calls| - i
  {
    if i == |calls| || Fails(env, calls, i) then i else FirstFailure(env, calls, i + 1)
  }

  lemma {:induction false} FailureIs(env: Env, calls: seq<Call>, i: nat, n: nat)
    requires i <= n <= |calls| && (n < |calls| ==> Fails(env, calls, n))
    requires forall k :: i <= k < n ==> !Fails(env, calls, k)
    ensures FirstFailure(env, calls, i) == n
    decreases n - i
  {
    if i < n {
      FailureIs(env, calls, i + 1, n);
    }
  }

  /** What is left of a run when the n-th call fails: an object that can not be added aborts. */
  function CutShort(calls: seq<Call>, n: nat): (Status, seq<Call>)
    requires n < |calls|
  {
    (if calls[n].Add? then ABORTED else FAILED, calls[..n + 1])
  }

  function CallsOf(next: Next): seq<Call> { if next.Go? then next.c.calls else next.calls }

  /** A token's step e is its step w with willing callbacks, or is cut short. */
  ghost predicate CutStep(env: Env, c: Ctx, w: Next, e: Next) {
    forall z {:trigger Unfold(z)} :: Unfold(z) ==> CutsStep(env, c, w, e)
  }

  ghost predicate CutsStep(env: Env, c: Ctx, w: Next, e: Next) {
    && c.calls <= CallsOf(w)
    && var n := FirstFailure(env, CallsOf(w), |c.calls|);
       e == if n == |CallsOf(w)| then w else Stop(CutShort(CallsOf(w), n).0, CutShort(CallsOf(w), n).1)
  }

  lemma NoCalls(env: Env, c: Ctx, next: Next)
    requires CallsOf(next) == c.calls
    ensures CutStep(env, c, next, next)
  {
  }

  /** One call that does not count. */
  lemma OneCall(env: Env, c: Ctx, call: Call, next: Next)
    requires CallsOf(next) == c.calls + [call] && !call.Find? && !call.Copy? && !call.Add? && !call.Directive?
    ensures CutStep(env, c, next, next)
  {
    FailureIs(env, CallsOf(next), |c.calls|, |c.calls| + 1);
  }

  /** One call that counts. */
  lemma OneCheck(env: Env, c: Ctx, call: Call, next: Next, fail: Next)
    requires CallsOf(next) == c.calls + [call] && (call.Find? || call.Copy? || call.Add? || call.Directive?)
    requires fail == Stop(if call.Add? then ABORTED else FAILED, c.calls + [call])
    ensures CutStep(env, c, next, if env.ok(c.calls + [call]) then next else fail)
  {
    var calls, i := c.calls + [call], |c.calls|;
    assert calls[..i + 1] == calls;
    FailureIs(env, calls, i, if env.ok(calls) then i + 1 else i);
  }

  /** A call that counts and another one, after it. */
  lemma TwoChecks(env: Env, c: Ctx, first: Call, second: Call, next: Next, e: Next)
    requires CallsOf(next) == c.calls + [first] + [second] && first.Find? && (second.Copy? || second.Zero?)
    requires e == if !env.ok(c.calls + [first]) then Stop(FAILED, c.calls + [first])
      else if second.Copy? && !env.ok(c.calls + [first] + [second]) then Stop(FAILED, c.calls + [first] + [second])
      else next
    ensures CutStep(env, c, next, e)
  {
    var calls, i := c.calls + [first] + [second], |c.calls|;
    assert calls[..i + 1] == c.calls + [first] && calls[..i + 2] == calls;
    if !env.ok(c.calls + [first]) {
      FailureIs(env, calls, i, i);
    } else if second.Copy? && !env.ok(calls) {
      FailureIs(env, calls, i, i + 1);
    } else {
      FailureIs(env, calls, i, i + 2);
    }
  }

  lemma NameCut(env: Env, w: Env, name: string, p: nat, c: Ctx)
    requires Willing(w)
    ensures CutStep(env, c, NameObject(w, name, p, c), NameObject(env, name, p, c))
    ensures CutStep(env, c, CopyObject(w, name, p, c), CopyObject(env, name, p, c))
  {
    var found := c.calls + [Find(c.curr, name)];
    assert w.ok(found) && w.ok(found + [Copy(c.curr)]);
    TwoChecks(env, c, Find(c.curr, name), Copy(c.curr), CopyObject(w, name, p, c), CopyObject(env, name, p, c));
    var next, e := NameObject(w, name, p, c), NameObject(env, name, p, c);
    if !c.extend {
      OneCall(env, c, Construct(c.curr, name), next);
    } else if c.override {
      TwoChecks(env, c, Find(c.curr, name), Zero(c.curr), next, e);
    } else {
      OneCheck(env, c, Find(c.curr, name), next, Stop(FAILED, found));
    }
  }

  lemma EndCut(env: Env, w: Env, p: nat, c: Ctx)
    requires Willing(w)
    ensures CutStep(env, c, EndObject(w, p, c), EndObject(env, p, c))
  {
    var next := EndObject(w, p, c);
    if c.scope || c.extend {
      NoCalls(env, c, next);
    } else {
      assert w.ok(c.calls + [Add(c.curr)]);
      OneCheck(env, c, Add(c.curr), next, Stop(ABORTED, c.calls + [Add(c.curr)]));
    }
  }

  lemma DirectiveCut(env: Env, w: Env, buf: string, p: nat, c: Ctx)
    requires Willing(w) && p < |buf|
    ensures CutStep(env, c, AtDirective(w, buf, p, c), AtDirective(env, buf, p, c))
  {
    var next, t := AtDirective(w, buf, p, c), Quoted(buf, p);
    if t == 0 {
      NoCalls(env, c, next);
    } else {
      var call := Directive(c.dir, buf[p + 1..t]);
      assert w.ok(c.calls + [call]);
      OneCheck(env, c, call, next, Stop(FAILED, c.calls + [call]));
    }
  }

  /** At most one more call, whose result does not count. */
  predicate Quiet(c: Ctx, next: Next) {
    var calls := CallsOf(next);
    || calls == c.calls
    || (|calls| == |c.calls| + 1 && calls == c.calls + [calls[|c.calls|]]
        && var x := calls[|c.calls|]; x.Store? || x.Set? || x.StoreUint? || x.SetFlag? || x.SetArray?)
  }

  lemma QuietCut(env: Env, c: Ctx, next: Next)
    requires Quiet(c, next)
    ensures CutStep(env, c, next, next)
  {
    if CallsOf(next) == c.calls {
      NoCalls(env, c, next);
    } else {
      OneCall(env, c, CallsOf(next)[|c.calls|], next);
    }
  }

  lemma ValuesQuiet(o: Opt, text: string, flags: bool, n: nat, p: nat, c: Ctx)
    ensures Quiet(c, StringValue(o, text, p, c)) && Quiet(c, NumberValue(o, flags, n, p, c))
  {
  }

  lemma ValueQuiet(env: Env, buf: string, p: nat, c: Ctx)
    requires p < |buf|
    ensures Quiet(c, AtVal(env, buf, p, c))
  {
    if c.opt < |Opts(env, c)| && buf[p] != '{' {
      var o := Opts(env, c)[c.opt];
      if buf[p] == '"' {
        if Quoted(buf, p) != 0 {
          ValuesQuiet(o, buf[p + 1..Quoted(buf, p)], false, 0, Quoted(buf, p) + 1, c);
        }
      } else if IsDigit(buf[p]) {
        ValuesQuiet(o, "", HasFlags(env, c), AtoI(buf, p), DigitEnd(buf, p), c);
      }
    }
  }

  lemma SameValue(env: Env, w: Env, buf: string, p: nat, c: Ctx)
    requires SameTables(env, w) && p < |buf|
    ensures AtVal(env, buf, p, c) == AtVal(w, buf, p, c)
  {
    assert Opts(env, c) == Opts(w, c) && HasFlags(env, c) == HasFlags(w, c);
  }

  lemma ArrayQuiet(env: Env, w: Env, buf: string, p: nat, c: Ctx)
    requires SameTables(env, w) && p < |buf|
    ensures AtArray(env, buf, p, c) == AtArray(w, buf, p, c) && Quiet(c, AtArray(w, buf, p, c))
  {
  }

  lemma RootQuiet(env: Env, w: Env, buf: string, p: nat, c: Ctx)
    requires SameTables(env, w) && p < |buf|
    ensures AtRoot(env, buf, p, c) == AtRoot(w, buf, p, c) && Quiet(c, AtRoot(w, buf, p, c))
  {
  }

  lemma ObjCut(env: Env, w: Env, buf: string, p: nat, c: Ctx)
    requires SameTables(env, w) && Willing(w) && p < |buf|
    ensures CutStep(env, c, AtObj(w, buf, p, c), AtObj(env, buf, p, c))
  {
    if buf[p] == '}' {
      EndCut(env, w, p + 1, c);
    } else {
      QuietCut(env, c, AtObj(w, buf, p, c));
    }
  }

  lemma AtNameCut(env: Env, w: Env, buf: string, p: nat, c: Ctx)
    requires Willing(w) && p < |buf|
    ensures CutStep(env, c, AtName(w, buf, p, c), AtName(env, buf, p, c))
  {
    var t := Quoted(buf, p);
    if t == 0 || t == p + 1 {
      NoCalls(env, c, AtName(w, buf, p, c));
    } else {
      NameCut(env, w, buf[p + 1..t], t + 1, c);
    }
  }

  lemma SignQuiet(env: Env, w: Env, buf: string, p: nat, c: Ctx)
    requires p < |buf|
    requires buf[p] != '/' ==> c.state in {PRE_NAME, POST_NAME, END_NAME, PRE_OBJ, PRE_VAL, POST_VAL}
    ensures Token(env, buf, p, c) == Token(w, buf, p, c) && Quiet(c, Token(w, buf, p, c))
  {
  }

  lemma TokenQuiet(env: Env, w: Env, buf: string, p: nat, c: Ctx)
    requires SameTables(env, w) && p < |buf|
    requires buf[p] != '/' ==> c.state != DIRECTIVE_ARG && c.state != NAME && c.state != OBJ
    ensures Token(env, buf, p, c) == Token(w, buf, p, c) && Quiet(c, Token(w, buf, p, c))
  {
    if buf[p] == '/' {
      SignQuiet(env, w, buf, p, c);
    } else if c.state == ROOT {
      RootQuiet(env, w, buf, p, c);
    } else if c.state == VAL {
      ValueQuiet(w, buf, p, c);
      SameValue(env, w, buf, p, c);
    } else if c.state == ARRAY_VAL || c.state == ARRAY_PRE_VAL {
      ArrayQuiet(env, w, buf, p, c);
    } else {
      SignQuiet(env, w, buf, p, c);
    }
  }

  lemma TokenCut(env: Env, w: Env, buf: string, p: nat, c: Ctx)
    requires SameTables(env, w) && Willing(w) && p < |buf|
    ensures CutStep(env, c, Token(w, buf, p, c), Token(env, buf, p, c))
  {
    if buf[p] != '/' && c.state == DIRECTIVE_ARG {
      DirectiveCut(env, w, buf, p, c);
    } else if buf[p] != '/' && c.state == NAME {
      AtNameCut(env, w, buf, p, c);
    } else if buf[p] != '/' && c.state == OBJ {
      ObjCut(env, w, buf, p, c);
    } else {
      TokenQuiet(env, w, buf, p, c);
      QuietCut(env, c, Token(w, buf, p, c));
    }
  }

  /** e is the result r, or r cut short at the first call from i on that fails. */
  ghost predicate CutRun(env: Env, i: nat, r: (Status, seq<Call>), e: (Status, seq<Call>)) {
    && i <= |r.1|
    && var n := FirstFailure(env, r.1, i);
       e == if n == |r.1| then r else CutShort(r.1, n)
  }

  lemma CutLater(env: Env, i: nat, j: nat, calls: seq<Call>, r: (Status, seq<Call>), e: (Status, seq<Call>))
    requires i <= j == |calls| && calls <= r.1 && FirstFailure(env, calls, i) == j && CutRun(env, j, r, e)
    ensures CutRun(env, i, r, e)
  {
    forall k | i <= k < j ensures !Fails(env, r.1, k) {
      assert !Fails(env, calls, k) && calls[..k + 1] == r.1[..k + 1];
    }
    FailureIs(env, r.1, i, FirstFailure(env, r.1, j));
  }

  lemma CutNow(env: Env, i: nat, calls: seq<Call>, r: (Status, seq<Call>))
    requires i <= |calls| && calls <= r.1 && FirstFailure(env, calls, i) < |calls|
    ensures CutRun(env, i, r, CutShort(calls, FirstFailure(env, calls, i)))
  {
    var n := FirstFailure(env, calls, i);
    forall k | i <= k < |calls| ensures Fails(env, r.1, k) <==> Fails(env, calls, k) {
      assert calls[..k + 1] == r.1[..k + 1];
    }
    FailureIs(env, r.1, i, n);
    assert calls[..n + 1] == r.1[..n + 1];
  }

  /** A run with callbacks that may fail is the run of the same text with willing ones, up to
      and with the first call that counts and fails. */
  lemma {:induction false} RunCut(env: Env, w: Env, buf: string, p: nat, c: Ctx)
    requires SameTables(env, w) && Willing(w)
    ensures c.calls <= Run(w, buf, p, c).1 && CutRun(env, |c.calls|, Run(w, buf, p, c), Run(env, buf, p, c))
    decreases |buf| - p
  {
    if p < |buf| {
      if Skip(buf, p) != p {
        RunCut(env, w, buf, Skip(buf, p), c);
      } else {
        var next := Token(w, buf, p, c);
        TokenCut(env, w, buf, p, c);
        TokenAdvances(w, buf, p, c);
        assert Unfold(0);
        if next.Go? {
          RunCut(env, w, buf, next.p, next.c);
          if FirstFailure(env, next.c.calls, |c.calls|) == |next.c.calls| {
            CutLater(env, |c.calls|, |next.c.calls|, next.c.calls, Run(w, buf, p, c), Run(env, buf, p, c));
          } else {
            CutNow(env, |c.calls|, next.c.calls, Run(w, buf, p, c));
          }
        }
      }
    }
  }

  /** A printed document makes its calls up to and with the first lookup, copy, addition or
      directive that fails; then parsing fails, and aborts if it was an addition. */
  lemma RoundTripFails(env: Env, w: Env, doc: seq<Item>, ls: seq<Spaced>, last: seq<Unit>)
    requires SameTables(env, w) && Willing(w) && DocOk(w, doc) && DocFits(CLEAR, doc)
    requires Lexes(ls) == DocLexes(w, doc) && GapsOk(ls) && GapOk(last)
    ensures var calls := DocCalls(w, CLEAR, doc);
      var n := FirstFailure(env, calls, 0);
      Run(env, TextOf(ls, last), 0, START)
        == if n == |calls| then (OK, calls) else (if calls[n].Add? then ABORTED else FAILED, calls[..n + 1])
  {
    RoundTrip(w, doc, ls, last);
    CutFromStart(env, w, TextOf(ls, last), DocCalls(w, CLEAR, doc));
  }

  lemma CutFromStart(env: Env, w: Env, buf: string, calls: seq<Call>)
    requires SameTables(env, w) && Willing(w) && Run(w, buf, 0, START) == (OK, calls)
    ensures var n := FirstFailure(env, calls, 0);
      Run(env, buf, 0, START)
        == if n == |calls| then (OK, calls) else (if calls[n].Add? then ABORTED else FAILED, calls[..n + 1])
  {
    RunCut(env, w, buf, 0, START);
  }

  // What was meant.

  /** A new object is constructed, and added when it is complete, also when it is bare; what
      an item becomes is what it says. */
  function MeantItem(env: Env, item: Item): seq<Call>
    requires ItemOk(env, item)
  {
    ItemCalls(env, CLEAR, item) + if item.Bare? then AddCalls(item.mode, item.cls) else []
  }

  ghost function MeantCalls(env: Env, doc: seq<Item>): seq<Call>
    requires DocOk(env, doc)
  {
    if doc == [] then [] else MeantItem(env, doc[0]) + MeantCalls(env, doc[1..])
  }

  /** No flags stand that change the item, and it is not a new object without braces. */
  predicate Kept(f: Flags, item: Item) {
    && (item.Object? || item.Bare? ==> Join(f.mode, item.mode) == item.mode)
    && (item.Object? && item.mode.New? ==> !f.scope)
    && !(item.Bare? && item.mode.New?)
  }

  predicate Orderly(f: Flags, doc: seq<Item>)
    decreases |doc|
  {
    doc != [] ==> Kept(f, doc[0]) && Orderly(Left(f, doc[0]), doc[1..])
  }

  /** Constructions and additions, less what was zeroed. */
  function Weight(calls: seq<Call>): int { if calls == [] then 0 else WeightOf(calls[0]) + Weight(calls[1..]) }

  function WeightOf(call: Call): int {
    match call case Construct(_, _) => 1 case Add(_) => 1 case Zero(_) => -1 case _ => 0
  }

  lemma WeightOne(call: Call)
    ensures Weight([call]) == WeightOf(call)
  {
    assert [call][1..] == [];
  }

  lemma {:induction false} WeightBoth(a: seq<Call>, b: seq<Call>)
    ensures Weight(a + b) == Weight(a) + Weight(b)
    decreases |a|
  {
    if a == [] {
      assert a + b == b;
    } else {
      WeightBoth(a[1..], b);
      assert (a + b)[1..] == a[1..] + b;
    }
  }

  lemma WeightObject(mode: Mode, cls: nat, name: string)
    ensures Weight(ObjectCalls(mode, cls, name)) == (match mode case New => 1 case Extended => 0 case Overridden => -1)
    ensures Weight(AddCalls(mode, cls)) == if mode.New? then 1 else 0
  {
    WeightOne(Construct(cls, name));
    WeightOne(Find(cls, name));
    WeightOne(Zero(cls));
    WeightOne(Add(cls));
    WeightBoth([Find(cls, name)], [Zero(cls)]);
    assert mode.Overridden? ==> ObjectCalls(mode, cls, name) == [Find(cls, name)] + [Zero(cls)];
  }

  ghost predicate WeighsKept(env: Env, f: Flags, item: Item)
    requires ItemOk(env, item)
  {
    && Weight(ItemCalls(env, f, item)) <= Weight(MeantItem(env, item))
    && (Weight(ItemCalls(env, f, item)) == Weight(MeantItem(env, item)) <==> Kept(f, item))
    && (Kept(f, item) ==> ItemCalls(env, f, item) == MeantItem(env, item))
  }

  lemma WeightOfObject(env: Env, f: Flags, item: Item)
    requires ItemOk(env, item) && Fits(f, item) && item.Object?
    ensures WeighsKept(env, f, item)
  {
    var Object(mode, cls, name, from, ss) := item;
    var put, made := SettingsCalls(ClassOpts(env, cls), ss, ClassFlags(env, cls)), Join(f.mode, mode);
    WeightParts(made, cls, name, from, put);
    WeightParts(mode, cls, name, from, put);
    WeightHead(made, cls, name, from);
    assert Join(New, mode) == mode && MeantItem(env, item) == ItemCalls(env, CLEAR, item);
    if f.scope {
      var head := ObjectCalls(mode, cls, name) + CopyCalls(cls, from);
      assert put == [] && (!mode.New? ==> put + AddCalls(mode, cls) == []);
      assert head + [] == head;
      assert ItemCalls(env, f, item) == ObjectCalls(made, cls, name) + CopyCalls(cls, from);
    }
  }

  lemma WeightHead(mode: Mode, cls: nat, name: string, from: Option<string>)
    ensures Weight(ObjectCalls(mode, cls, name) + CopyCalls(cls, from))
      == Weight(CopyCalls(cls, from)) + match mode case New => 1 case Extended => 0 case Overridden => -1
  {
    WeightObject(mode, cls, name);
    WeightBoth(ObjectCalls(mode, cls, name), CopyCalls(cls, from));
  }

  lemma WeightOfBare(env: Env, f: Flags, item: Item)
    requires ItemOk(env, item) && item.Bare?
    ensures WeighsKept(env, f, item)
  {
    var Bare(mode, cls, name, from) := item;
    WeightHead(Join(f.mode, mode), cls, name, from);
    WeightHead(mode, cls, name, from);
    WeightObject(mode, cls, name);
    WeightBoth(ItemCalls(env, CLEAR, item), AddCalls(mode, cls));
  }

  lemma WeightItem(env: Env, f: Flags, item: Item)
    requires ItemOk(env, item) && Fits(f, item)
    ensures WeighsKept(env, f, item)
  {
    if item.Object? {
      WeightOfObject(env, f, item);
    } else if item.Bare? {
      WeightOfBare(env, f, item);
    } else {
      assert MeantItem(env, item) == ItemCalls(env, f, item);
    }
  }

  lemma WeightParts(mode: Mode, cls: nat, name: string, from: Option<string>, put: seq<Call>)
    ensures Weight((ObjectCalls(mode, cls, name) + CopyCalls(cls, from)) + (put + AddCalls(mode, cls)))
      == Weight(CopyCalls(cls, from)) + Weight(put) + match mode case New => 2 case Extended => 0 case Overridden => -1
  {
    WeightHead(mode, cls, name, from);
    WeightObject(mode, cls, name);
    WeightBoth(put, AddCalls(mode, cls));
    WeightBoth(ObjectCalls(mode, cls, name) + CopyCalls(cls, from), put + AddCalls(mode, cls));
  }

  lemma {:induction false} WeightDoc(env: Env, f: Flags, doc: seq<Item>)
    requires DocOk(env, doc) && DocFits(f, doc)
    ensures Weight(DocCalls(env, f, doc)) <= Weight(MeantCalls(env, doc))
    ensures Weight(DocCalls(env, f, doc)) == Weight(MeantCalls(env, doc)) ==> Orderly(f, doc)
    ensures Orderly(f, doc) ==> DocCalls(env, f, doc) == MeantCalls(env, doc)
    decreases |doc|
  {
    if doc != [] {
      WeightItem(env, f, doc[0]);
      WeightDoc(env, Left(f, doc[0]), doc[1..]);
      WeightBoth(ItemCalls(env, f, doc[0]), DocCalls(env, Left(f, doc[0]), doc[1..]));
      WeightBoth(MeantItem(env, doc[0]), MeantCalls(env, doc[1..]));
    }
  }

  /** A printed document does what was meant exactly when no new object is bare or follows a
      bare scope whose flag still stands, and no flags of a bare object or a stray prefix stand
      that change a later object. */
  lemma MeantExactly(env: Env, doc: seq<Item>, ls: seq<Spaced>, last: seq<Unit>)
    requires Willing(env) && DocOk(env, doc) && DocFits(CLEAR, doc)
    requires Lexes(ls) == DocLexes(env, doc) && GapsOk(ls) && GapOk(last)
    ensures Run(env, TextOf(ls, last), 0, START) == (OK, MeantCalls(env, doc)) <==> Orderly(CLEAR, doc)
  {
    RoundTrip(env, doc, ls, last);
    WeightDoc(env, CLEAR, doc);
  }

  /** extend: class["x"]; other["y"] { } looks y up instead of making it, and adds nothing. */
  lemma ExtendLeaks(env: Env, cls: nat, x: string, other: nat, y: string, ls: seq<Spaced>, last: seq<Unit>)
    requires Willing(env) && NamedOk(env, cls, x, None) && NamedOk(env, other, y, None)
    requires GapsOk(ls) && GapOk(last)
    requires Lexes(ls) == HeadLexes(env, Extended, cls, x, None, ';')
      + (HeadLexes(env, New, other, y, None, '{') + BodyLexes(ClassOpts(env, other), []))
    ensures Run(env, TextOf(ls, last), 0, START) == (OK, [Find(cls, x)] + [Find(other, y)])
  {
    var item, next := Bare(Extended, cls, x, None), Object(New, other, y, None, []);
    DocTwo(env, item, next);
    FindsOnly(env, cls, x);
    FindsOnly(env, other, y);
    RoundTrip(env, [item] + [next], ls, last);
  }

  /** scope; class["x"] { } makes an object that is never added. */
  lemma ScopeLeaks(env: Env, sc: nat, cls: nat, x: string, ls: seq<Spaced>, last: seq<Unit>)
    requires Willing(env) && ScopeOk(env, sc) && NamedOk(env, cls, x, None) && GapsOk(ls) && GapOk(last)
    requires Lexes(ls) == ModeLexes(New) + ([Word(ScopeName(env, sc))] + [Sign(';')])
      + (HeadLexes(env, New, cls, x, None, '{') + BodyLexes(ClassOpts(env, cls), []))
    ensures Run(env, TextOf(ls, last), 0, START) == (OK, [Construct(cls, x)])
  {
    var item, next := BareScope(New, sc), Object(New, cls, x, None, []);
    DocTwo(env, item, next);
    assert [Construct(cls, x)] + [] + [] == [Construct(cls, x)];
    assert ItemCalls(env, Flags(New, true), next) == [Construct(cls, x)];
    assert [] + [Construct(cls, x)] == [Construct(cls, x)];
    RoundTrip(env, [item] + [next], ls, last);
  }

  lemma FindsOnly(env: Env, cls: nat, x: string)
    requires NamedOk(env, cls, x, None)
    ensures ItemCalls(env, CLEAR, Bare(Extended, cls, x, None)) == [Find(cls, x)]
    ensures ItemCalls(env, Flags(Extended, false), Object(New, cls, x, None, [])) == [Find(cls, x)]
  {
    assert [Find(cls, x)] + [] == [Find(cls, x)] && [Find(cls, x)] + ([] + []) == [Find(cls, x)];
  }

  lemma DocTwo(env: Env, item: Item, next: Item)
    requires ItemOk(env, item) && ItemOk(env, next) && Fits(CLEAR, item) && Fits(Left(CLEAR, item), next)
    ensures var doc := [item] + [next];
      && DocOk(env, doc) && DocFits(CLEAR, doc) && DocLexes(env, doc) == ItemLexesOf(env, item) + ItemLexesOf(env, next)
      && DocCalls(env, CLEAR, doc) == ItemCalls(env, CLEAR, item) + ItemCalls(env, Left(CLEAR, item), next)
  {
    var doc := [item] + [next];
    assert doc[1..] == [next];
    DocOne(env, Left(CLEAR, item), next);
    DocFirst(env, CLEAR, doc, []);
  }

  lemma DocOne(env: Env, f: Flags, item: Item)
    requires ItemOk(env, item) && Fits(f, item)
    ensures DocOk(env, [item]) && DocFits(f, [item]) && DocLexes(env, [item]) == ItemLexesOf(env, item)
    ensures DocCalls(env, f, [item]) == ItemCalls(env, f, item)
  {
    assert [item][1..] == [];
    assert ItemLexesOf(env, item) + [] == ItemLexesOf(env, item);
    assert ItemCalls(env, f, item) + [] == ItemCalls(env, f, item);
  }

  /** class["x"]; makes an object that is never added. */
  lemma BareForgotten(env: Env, cls: nat, x: string, ls: seq<Spaced>, last: seq<Unit>)
    requires Willing(env) && NamedOk(env, cls, x, None) && GapsOk(ls) && GapOk(last)
    requires Lexes(ls) == HeadLexes(env, New, cls, x, None, ';')
    ensures Run(env, TextOf(ls, last), 0, START) == (OK, [Construct(cls, x)])
  {
    var item := Bare(New, cls, x, None);
    DocOne(env, CLEAR, item);
    assert ItemCalls(env, CLEAR, item) == [Construct(cls, x)];
    RoundTrip(env, [item], ls, last);
  }

  lemma SkipOn(env: Env, buf: string, p: nat, c: Ctx, out: (Status, seq<Call>))
    requires p < |buf| && Skip(buf, p) != p && Ends(env, buf, p, c, out)
    ensures Ends(env, buf, Skip(buf, p), c, out)
  {
    assert ShowRun(p, 0);
  }

  lemma TokenOn(env: Env, buf: string, p: nat, c: Ctx, next: Next, out: (Status, seq<Call>))
    requires p < |buf| && Skip(buf, p) == p && next == Token(env, buf, p, c) && Ends(env, buf, p, c, out)
    ensures next.Go? ==> p < next.p && Ends(env, buf, next.p, next.c, out)
    ensures next.Stop? ==> out == (next.status, next.calls)
  {
    assert ShowRun(p, 0);
    TokenAdvances(env, buf, p, c);
  }

  lemma EndOn(env: Env, buf: string, p: nat, c: Ctx, out: (Status, seq<Call>))
    requires p >= |buf| && Ends(env, buf, p, c, out)
    ensures out == Finish(c)
  {
    assert ShowRun(p, 0);
  }

  /** One blank, or one comment. */
  method SkipAt(buf: string, p0: nat) returns (p: nat)
    requires p0 < |buf|
    ensures p == Skip(buf, p0)
  {
    p := p0;
    if IsSpace(buf[p]) {
      return p + 1;
    }
    if buf[p] == '#' {
      p := p + 1;
      while p < |buf| && buf[p] != '\n'
        invariant p0 < p <= |buf| && LineEnd(buf, p) == LineEnd(buf, p0 + 1)
      {
        p := p + 1;
      }
      return p + 1;
    }
    if buf[p] == '/' && p + 1 < |buf| && buf[p + 1] == '*' {
      p := p + 1;
      while p < |buf|
        invariant p0 < p <= |buf| && CommentEnd(buf, p) == CommentEnd(buf, p0 + 1)
      {
        if buf[p] == '*' && p + 1 < |buf| && buf[p + 1] == '/' {
          p := p + 1;
          break;
        }
        p := p + 1;
      }
      return p + 1;
    }
  }

  /** lmc_parse. */
  method Parse(env: Env, buf: string) returns (status: Status, calls: seq<Call>)
    ensures env.classes == [] && env.scopes == [] && env.directives == [] ==> (status, calls) == (FAILED, [])
    ensures env.classes != [] || env.scopes != [] || env.directives != [] ==> (status, calls) == Run(env, buf, 0, START)
  {
    if |env.scopes| == 0 && |env.directives| == 0 && |env.classes| == 0 {
      return FAILED, [];
    }
    var p, c := 0, START;
    ghost var out := Run(env, buf, 0, START);
    while p < |buf|
      invariant 0 <= p && Ends(env, buf, p, c, out)
    {
      var k := SkipAt(buf, p);
      if k != p {
        SkipOn(env, buf, p, c, out);
        p := k;
        continue;
      }
      var next := Token(env, buf, p, c);
      TokenOn(env, buf, p, c, next, out);
      match next {
        case Go(q, c1) => p, c := q, c1;
        case Stop(st, cs) => return st, cs;
      }
    }
    EndOn(env, buf, p, c, out);
    if c.state != ROOT {
      return FAILED, c.calls;
    }
    return OK, c.calls;
  }
}
