/** filter.c: ALLOW and DENY rules, and what they decide for a URL. */
module Filters {
  import opened Umexes
  import opened Urls

  datatype Verdict = ALLOW | DENY

  /** struct rule: the bytes are what is stored, the code what they encode. */
  datatype Rule = Rule(allow: Verdict, bin: seq<int>, code: Code) {
    ghost predicate Ok() {
      code.Then? && code.i.Search? && AllEncodable(code) && bin == Assemble(code)
    }
  }

  ghost predicate Hits(r: Rule, u: Url)
    requires UrlOk(u)
  {
    Run(r.code, u, 0, 0)
  }

  /** All ALLOW rules stand before all DENY rules. */
  ghost predicate AllowFirst(rs: seq<Rule>) {
    forall i, j :: 0 <= i < j < |rs| && rs[i].allow.DENY? ==> rs[j].allow.DENY?
  }

  /** The list after lm_filter_add_rule: a new ALLOW rule takes the place of the
      first DENY rule, which moves to the end. */
  function Added(rs: seq<Rule>, r: Rule): seq<Rule> {
    var x := FirstDeny(rs, 0);
    if r.allow.DENY? || x == |rs| then rs + [r] else rs[x := r] + [rs[x]]
  }

  function FirstDeny(rs: seq<Rule>, from: nat): (x: nat)
    requires from <= |rs|
    ensures from <= x <= |rs|
    ensures forall i :: from <= i < x ==> rs[i].allow.ALLOW?
    ensures x < |rs| ==> rs[x].allow.DENY?
    decreases |rs| - from
  {
    if from == |rs| || rs[from].allow.DENY? then from else FirstDeny(rs, from + 1)
  }

  predicate IsFirstDeny(rs: seq<Rule>, x: nat)
    requires x < |rs|
  {
    rs[x].allow.DENY? && forall i :: 0 <= i < x ==> rs[i].allow.ALLOW?
  }

  lemma FirstDenyIs(rs: seq<Rule>, x: nat)
    requires x <= |rs| && (forall i :: 0 <= i < x ==> rs[i].allow.ALLOW?)
    requires x < |rs| ==> rs[x].allow.DENY?
    ensures FirstDeny(rs, 0) == x
  {
    var f := FirstDeny(rs, 0);
    assert forall i :: 0 <= i < |rs| ==> rs[i].allow.ALLOW? || rs[i].allow.DENY?;
  }

  class Filter {
    var rules: seq<Rule>

    constructor ()
      ensures rules == []
    {
      rules := [];
    }

    /** lm_filter_add_rule. */
    method AddRule(r: Rule)
      modifies this
      ensures rules == Added(old(rules), r)
      ensures forall x | 0 <= x < |old(rules)| && IsFirstDeny(old(rules), x) ::
        rules == if r.allow.ALLOW? then old(rules)[x := r] + [old(rules)[x]] else old(rules) + [r]
      ensures (forall i :: 0 <= i < |old(rules)| ==> old(rules)[i].allow.ALLOW?) ==> rules == old(rules) + [r]
    {
      var n, x := |rules|, |rules|;
      var grown := rules + [r];
      if r.allow == ALLOW {
        x := 0;
        while x < n
          invariant 0 <= x <= n && grown == rules + [r]
          invariant forall i :: 0 <= i < x ==> rules[i].allow.ALLOW?
        {
          if rules[x].allow == DENY {
            grown := grown[n := rules[x]];
            break;
          }
          x := x + 1;
        }
        FirstDenyIs(rules, x);
      }
      rules := grown[x := r];
    }

    /** lm_filter_eval_url: the first rule that matches decides, ALLOW if none. */
    method EvalUrl(u: Url) returns (v: Verdict)
      requires UrlOk(u) && forall i :: 0 <= i < |rules| ==> rules[i].Ok()
      ensures v == Decide(rules, u, 0)
    {
      var x := 0;
      while x < |rules|
        invariant 0 <= x <= |rules|
        invariant Decide(rules, u, 0) == Decide(rules, u, x)
      {
        var hit := Match(u, rules[x].bin, rules[x].code);
        if hit {
          return if rules[x].allow == ALLOW then ALLOW else DENY;
        }
        x := x + 1;
      }
      return ALLOW;
    }
  }

  /** The verdict of the first matching rule from x on. */
  ghost function Decide(rs: seq<Rule>, u: Url, x: nat): Verdict
    requires UrlOk(u) && x <= |rs|
    decreases |rs| - x
  {
    if x == |rs| then ALLOW
    else if Hits(rs[x], u) then rs[x].allow
    else Decide(rs, u, x + 1)
  }

  // ---- Any sequence of additions ---------------------------------------------------

  function AddAll(rs: seq<Rule>): seq<Rule> {
    if rs == [] then [] else Added(AddAll(rs[..|rs| - 1]), rs[|rs| - 1])
  }

  lemma AddedInOrder(rs: seq<Rule>, r: Rule)
    requires AllowFirst(rs)
    ensures AllowFirst(Added(rs, r))
  {
  }

  lemma AddedAll(rs: seq<Rule>, r: Rule)
    ensures multiset(Added(rs, r)) == multiset(rs) + multiset{r}
  {
    var x := FirstDeny(rs, 0);
    if r.allow.ALLOW? && x < |rs| {
      var first, m := rs[x], rs[x := r];
      assert multiset(m) == multiset(rs) - multiset{first} + multiset{r};
      assert first in multiset(rs);
      assert multiset(m + [first]) == multiset(m) + multiset{first};
    }
  }

  lemma AddedKeeps(rs: seq<Rule>, r: Rule)
    requires AllowFirst(rs)
    ensures AllowFirst(Added(rs, r))
    ensures multiset(Added(rs, r)) == multiset(rs) + multiset{r}
  {
    AddedInOrder(rs, r);
    AddedAll(rs, r);
  }

  /** After any additions the list is all ALLOW rules, then all DENY rules, and
      holds every added rule as often as it was added. */
  lemma {:induction false} AddAllKeeps(rs: seq<Rule>)
    ensures AllowFirst(AddAll(rs))
    ensures multiset(AddAll(rs)) == multiset(rs)
    decreases |rs|
  {
    if rs != [] {
      var init, last := rs[..|rs| - 1], rs[|rs| - 1];
      AddAllKeeps(init);
      AddedKeeps(AddAll(init), last);
      assert rs == init + [last];
    }
  }

  ghost predicate SomeHit(rs: seq<Rule>, v: Verdict, u: Url)
    requires UrlOk(u)
  {
    exists r :: r in rs && r.allow == v && Hits(r, u)
  }

  lemma {:induction false} DecideMeaning(rs: seq<Rule>, u: Url, x: nat)
    requires UrlOk(u) && x <= |rs| && AllowFirst(rs)
    ensures Decide(rs, u, x).ALLOW? <==>
      (exists i :: x <= i < |rs| && rs[i].allow.ALLOW? && Hits(rs[i], u)) ||
      !(exists i :: x <= i < |rs| && rs[i].allow.DENY? && Hits(rs[i], u))
    decreases |rs| - x
  {
    if x < |rs| { DecideMeaning(rs, u, x + 1); }
  }

  /** The verdict depends only on which rules were added: a URL is allowed iff
      some ALLOW rule hits it or no DENY rule does. */
  lemma VerdictMeaning(rs: seq<Rule>, u: Url)
    requires UrlOk(u)
    ensures Decide(AddAll(rs), u, 0).ALLOW? <==> SomeHit(rs, ALLOW, u) || !SomeHit(rs, DENY, u)
  {
    var l := AddAll(rs);
    AddAllKeeps(rs);
    DecideMeaning(l, u, 0);
    forall r ensures r in l <==> r in rs {
      assert r in l <==> r in multiset(l);
      assert r in rs <==> r in multiset(rs);
    }
  }

  /** Two orders of the same additions decide alike. */
  lemma OrderIrrelevant(rs: seq<Rule>, qs: seq<Rule>, u: Url)
    requires UrlOk(u) && multiset(rs) == multiset(qs)
    ensures Decide(AddAll(rs), u, 0) == Decide(AddAll(qs), u, 0)
  {
    VerdictMeaning(rs, u);
    VerdictMeaning(qs, u);
    forall r ensures r in rs <==> r in qs {
      assert r in rs <==> r in multiset(rs);
      assert r in qs <==> r in multiset(qs);
    }
  }

  /** robots.txt rules: each line adds a prefix with its verdict. */
  datatype Line = Line(v: Verdict, prefix: seq<int>)

  function RuleOf(l: Line): Rule { Rule(l.v, Assemble(PrefixCode(l.prefix)), PrefixCode(l.prefix)) }

  function RulesOf(ls: seq<Line>): (rs: seq<Rule>)
    ensures |rs| == |ls|
  {
    seq(|ls|, i requires 0 <= i < |ls| => RuleOf(ls[i]))
  }

  predicate ProperLines(ls: seq<Line>) {
    forall i, k :: 0 <= i < |ls| && 0 <= k < |ls[i].prefix| ==> 1 <= ls[i].prefix[k] <= 0xFF
  }

  ghost predicate Started(ls: seq<Line>, v: Verdict, u: Url)
    requires u.Valid()
  {
    exists l :: l in ls && l.v == v && l.prefix <= PathOf(u)
  }

  lemma HitsStarted(ls: seq<Line>, v: Verdict, u: Url)
    requires UrlOk(u) && ProperLines(ls)
    ensures SomeHit(RulesOf(ls), v, u) <==> Started(ls, v, u)
  {
    var rs := RulesOf(ls);
    forall i | 0 <= i < |ls| ensures rs[i] == RuleOf(ls[i]) && (Hits(rs[i], u) <==> ls[i].prefix <= PathOf(u)) {
      PrefixMeaning(ls[i].prefix, u);
    }
    if SomeHit(rs, v, u) {
      var r :| r in rs && r.allow == v && Hits(r, u);
      var i :| 0 <= i < |rs| && rs[i] == r;
      assert ls[i] in ls;
    }
    if l :| l in ls && l.v == v && l.prefix <= PathOf(u) {
      var i :| 0 <= i < |ls| && ls[i] == l;
      assert rs[i] in rs;
    }
  }

  /** A path is allowed iff some Allow prefix starts it or no Disallow prefix does. */
  lemma RobotsMeaning(ls: seq<Line>, u: Url)
    requires UrlOk(u) && ProperLines(ls)
    ensures Decide(AddAll(RulesOf(ls)), u, 0).ALLOW? <==> Started(ls, ALLOW, u) || !Started(ls, DENY, u)
  {
    VerdictMeaning(RulesOf(ls), u);
    HitsStarted(ls, ALLOW, u);
    HitsStarted(ls, DENY, u);
  }

  /** A prefix rule of at most 127 bytes is one the matcher decodes as written. */
  lemma PrefixOk(l: Line)
    requires |l.prefix| <= 127
    ensures RuleOf(l).Ok()
  {
    assert AllEncodable(Then(Str(Begin, l.prefix, true), Halt));
  }

  /** From the lines of a robots.txt to a verdict: the filter built from them allows a URL iff
      some Allow prefix starts its path or no Disallow prefix does. */
  method Robots(ls: seq<Line>, u: Url) returns (v: Verdict)
    requires UrlOk(u) && ProperLines(ls) && forall i :: 0 <= i < |ls| ==> |ls[i].prefix| <= 127
    ensures v.ALLOW? <==> Started(ls, ALLOW, u) || !Started(ls, DENY, u)
  {
    var f := new Filter();
    ghost var rs := RulesOf(ls);
    for i := 0 to |ls|
      invariant f.rules == AddAll(rs[..i])
    {
      var bin := ExplicitStrStart(ls[i].prefix);
      f.AddRule(Rule(ls[i].v, bin, PrefixCode(ls[i].prefix)));
      assert rs[..i + 1][..i] == rs[..i];
    }
    assert rs[..|ls|] == rs;
    AllOk(ls);
    RobotsMeaning(ls, u);
    v := f.EvalUrl(u);
  }

  lemma AllOk(ls: seq<Line>)
    requires forall i :: 0 <= i < |ls| ==> |ls[i].prefix| <= 127
    ensures var rs := AddAll(RulesOf(ls)); forall i :: 0 <= i < |rs| ==> rs[i].Ok()
  {
    var rs, added := RulesOf(ls), AddAll(RulesOf(ls));
    AddAllKeeps(rs);
    forall i | 0 <= i < |added| ensures added[i].Ok() {
      assert added[i] in multiset(added);
      assert added[i] in rs;
      var k :| 0 <= k < |rs| && rs[k] == added[i];
      PrefixOk(ls[k]);
    }
  }
}
