/**
 The lowering of authorization logic to Datalog: what each construct is
 translated to, and the stateful pass that produces it.
 */
module Lowering {
  import opened Names
  import opened Datalog
  import opened AuthLogic

  // ---------- Predicates ----------

  function PushOntoPredicate(modifier: string, newArgs: seq<string>, p: Predicate): Predicate {
    Predicate(modifier + p.name, newArgs + p.args, p.sign)
  }

  function PushPrincipal(modifier: string, principal: string, p: Predicate): Predicate {
    PushOntoPredicate(modifier, [principal], p)
  }

  function AttributeToDlir(principal: string, p: Predicate): Predicate {
    PushPrincipal("", principal, p)
  }

  function CanActAsToDlir(left: string, right: string): Predicate {
    Predicate(CAN_ACT_AS, [left, right], Positive)
  }

  function BasePredicate(b: BaseFact): Predicate {
    match b
    case PredicateFact(p) => p
    case AttributeFact(prin, p) => AttributeToDlir(prin, p)
    case CanActAs(l, r) => CanActAsToDlir(l, r)
  }

  /** `d_n canSay ... d_1 canSay p` as a predicate. */
  function Nest(p: Predicate, chain: seq<string>): Predicate {
    if chain == [] then p else PushPrincipal(CAN_SAY, chain[|chain| - 1], Nest(p, chain[..|chain| - 1]))
  }

  function FactPredicate(f: Fact): Predicate {
    Nest(BasePredicate(f.base), f.delegationChain)
  }

  function SaidPredicate(speaker: string, p: Predicate): Predicate {
    PushPrincipal(SAYS, speaker, p)
  }

  // ---------- Generated rules ----------

  /** `speaker says y p :- speaker says y canActAs x, speaker says x p`. */
  function SpokenAttributeRule(speaker: string, x: string, p: Predicate, y: string): Rule {
    Rule(SaidPredicate(speaker, AttributeToDlir(y, p)),
         [SaidPredicate(speaker, CanActAsToDlir(y, x)), SaidPredicate(speaker, AttributeToDlir(x, p))])
  }

  /** `speaker says y canActAs z :- speaker says y canActAs x, speaker says x canActAs z`. */
  function SpokenCanActAsRule(speaker: string, x: string, z: string, y: string): Rule {
    Rule(SaidPredicate(speaker, CanActAsToDlir(y, z)),
         [SaidPredicate(speaker, CanActAsToDlir(y, x)), SaidPredicate(speaker, CanActAsToDlir(x, z))])
  }

  /** `speaker says inner :- y says inner, speaker says y canSay inner`. */
  function DelegationRule(speaker: string, inner: Predicate, y: string): Rule {
    Rule(SaidPredicate(speaker, inner),
         [SaidPredicate(y, inner), SaidPredicate(speaker, PushPrincipal(CAN_SAY, y, inner))])
  }

  /** How many variables the translation of a base fact invents. */
  function BaseDemand(b: BaseFact): nat {
    if b.PredicateFact? then 0 else 1
  }

  /** The rules generated for a base fact when `n` variables have been invented so far. */
  function BaseRules(speaker: string, b: BaseFact, n: nat): seq<Rule> {
    match b
    case PredicateFact(_) => []
    case AttributeFact(prin, p) => [SpokenAttributeRule(speaker, prin, p, FreshName(n + 1))]
    case CanActAs(l, r) => [SpokenCanActAsRule(speaker, l, r, FreshName(n + 1))]
  }

  function DelegationRules(speaker: string, base: Predicate, chain: seq<string>, n: nat): (r: seq<Rule>)
    ensures |r| == |chain|
  {
    seq(|chain|, k requires 0 <= k < |chain| => DelegationRule(speaker, Nest(base, chain[..k]), FreshName(n + k + 1)))
  }

  function FactDemand(f: Fact): nat {
    BaseDemand(f.base) + |f.delegationChain|
  }

  function FactRules(speaker: string, f: Fact, n: nat): seq<Rule> {
    BaseRules(speaker, f.base, n) +
    DelegationRules(speaker, BasePredicate(f.base), f.delegationChain, n + BaseDemand(f.base))
  }

  /** One variable is invented for every rule that is generated for a fact. */
  lemma DemandIsNumberOfRules(speaker: string, f: Fact, n: nat)
    ensures |FactRules(speaker, f, n)| == FactDemand(f)
    ensures FactDemand(f) == |f.delegationChain| + if f.base.PredicateFact? then 0 else 1
  {
  }

  function BodyDemand(body: seq<BaseFact>): nat {
    if body == [] then 0 else BodyDemand(body[..|body| - 1]) + BaseDemand(body[|body| - 1])
  }

  function BodyPredicates(speaker: string, body: seq<BaseFact>): (r: seq<Predicate>)
    ensures |r| == |body|
  {
    seq(|body|, i requires 0 <= i < |body| => SaidPredicate(speaker, BasePredicate(body[i])))
  }

  function AssertionDemand(a: Assertion): nat {
    BodyDemand(a.Body()) + FactDemand(a.Head())
  }

  function MainRule(s: Spoken): Rule {
    Rule(SaidPredicate(s.speaker, FactPredicate(s.assertion.Head())), BodyPredicates(s.speaker, s.assertion.Body()))
  }

  /** The conditions are translated before the head, so their variables are numbered first. */
  function AssertionRules(s: Spoken, n: nat): seq<Rule> {
    FactRules(s.speaker, s.assertion.Head(), n + BodyDemand(s.assertion.Body())) + [MainRule(s)]
  }

  function Demand(said: seq<Spoken>): nat {
    if said == [] then 0 else AssertionDemand(said[0].assertion) + Demand(said[1..])
  }

  function SpokenRules(said: seq<Spoken>, n: nat): seq<Rule> {
    if said == [] then []
    else AssertionRules(said[0], n) + SpokenRules(said[1..], n + AssertionDemand(said[0].assertion))
  }

  const DUMMY_PREDICATE := Predicate(GROUNDED_DUMMY, [DUMMY_ARGUMENT], Positive)

  function QueryRule(q: Query): Rule {
    Rule(Predicate(q.name, [DUMMY_ARGUMENT], Positive),
         [SaidPredicate(q.principal, FactPredicate(q.fact)), DUMMY_PREDICATE])
  }

  function QueryRules(qs: seq<Query>): (r: seq<Rule>)
    ensures |r| == |qs|
  {
    seq(|qs|, i requires 0 <= i < |qs| => QueryRule(qs[i]))
  }

  function QueryDemand(qs: seq<Query>): nat {
    if qs == [] then 0 else QueryDemand(qs[..|qs| - 1]) + FactDemand(qs[|qs| - 1].fact)
  }

  /** All rules of the lowered program. */
  function LoweredRules(prog: AuthLogic.Program): seq<Rule> {
    SpokenRules(AllSpoken(prog.saysAssertions), 0) + QueryRules(prog.queries) + [Rule(DUMMY_PREDICATE, [])]
  }

  function ProgramDemand(prog: AuthLogic.Program): nat {
    Demand(AllSpoken(prog.saysAssertions)) + QueryDemand(prog.queries)
  }

  /** How generated predicates are spelled: prefixes from the outside in, each with its principal. */
  lemma SpelledPredicates(speaker: string, a: string, b: string, p: Predicate)
    ensures SaidPredicate(speaker, FactPredicate(Fact([a, b], PredicateFact(p)))) ==
      Predicate("says_canSay_canSay_" + p.name, [speaker, b, a] + p.args, p.sign)
  {
    assert [a, b][..1] == [a] && [a][..0] == [];
    assert Nest(p, [a]) == Predicate("canSay_" + p.name, [a] + p.args, p.sign);
    assert "says_" + ("canSay_" + ("canSay_" + p.name)) == "says_canSay_canSay_" + p.name;
    assert [speaker] + ([b] + ([a] + p.args)) == [speaker, b, a] + p.args;
  }

  lemma SpelledAttributes(speaker: string, prin: string, p: Predicate, l: string, r: string)
    ensures SaidPredicate(speaker, FactPredicate(Fact([], AttributeFact(prin, p)))) ==
      Predicate("says_" + p.name, [speaker, prin] + p.args, p.sign)
    ensures SaidPredicate(speaker, FactPredicate(Fact([], CanActAs(l, r)))) ==
      Predicate("says_canActAs", [speaker, l, r], Positive)
    ensures DUMMY_PREDICATE == Predicate("grounded_dummy", ["\"dummy_var\""], Positive)
  {
    assert "" + p.name == p.name;
    assert [speaker] + ([prin] + p.args) == [speaker, prin] + p.args;
  }
}
