/**
 The lowered Datalog program means what the authorization logic program means.

 The logic has universal rules for delegation and for acting as a principal;
 the pass emits one specialised rule per assertion.  The first half of this
 module shows that the specialised rules are enough: the lowered model is
 closed under the universal rules.  The second half concludes that the two
 meanings coincide.
 */
module LoweringCorrect {
  import opened Names
  import opened Seqs
  import opened Inference
  import opened Datalog
  import opened AuthLogic
  import opened Lowering
  import opened Encoding

  // ---------- The supported fragment ----------

  /** The head of an assertion uses no name that the pass could invent. */
  ghost predicate AvoidsFreshNames(s: Spoken) {
    var head := s.assertion.Head();
    !IsFreshName(s.speaker) &&
    (forall v :: v in head.delegationChain ==> !IsFreshName(v)) &&
    (forall v :: v in BasePredicate(head.base).args ==> !IsFreshName(v))
  }

  ghost predicate SpokenInFragment(attributes: set<string>, s: Spoken) {
    BaseInFragment(attributes, s.assertion.Head().base) &&
    (forall b :: b in s.assertion.Body() ==> BaseInFragment(attributes, b)) &&
    AvoidsFreshNames(s)
  }

  predicate QueryInFragment(attributes: set<string>, q: Query) {
    BaseInFragment(attributes, q.fact.base) && !StartsWith(q.name, SAYS)
  }

  ghost predicate InFragment(prog: AuthLogic.Program) {
    var attributes := AttributeNames(prog.declarations);
    (forall s :: s in AllSpoken(prog.saysAssertions) ==> SpokenInFragment(attributes, s)) &&
    (forall q :: q in prog.queries ==> QueryInFragment(attributes, q))
  }

  lemma GroundBaseInFragment(attributes: set<string>, sigma: Substitution, b: BaseFact)
    requires BaseInFragment(attributes, b)
    ensures ClaimInFragment(attributes, GroundBase(sigma, b))
  {
  }

  // ---------- Which rules the lowered program has ----------

  /** The rule that passes a property along canActAs, for the base fact of an assertion's head. */
  function ActingRule(s: Spoken, y: string): Rule
    requires !s.assertion.Head().base.PredicateFact?
  {
    match s.assertion.Head().base
    case AttributeFact(prin, p) => SpokenAttributeRule(s.speaker, prin, p, y)
    case CanActAs(l, r) => SpokenCanActAsRule(s.speaker, l, r, y)
  }

  /** The rule that passes the innermost `k` delegations of an assertion's head. */
  function LevelRule(s: Spoken, k: nat, y: string): Rule
    requires k <= |s.assertion.Head().delegationChain|
  {
    var head := s.assertion.Head();
    DelegationRule(s.speaker, FactPredicate(Fact(head.delegationChain[..k], head.base)), y)
  }

  /** Where a rule of the lowered assertions comes from. */
  datatype Origin =
    | Main(said: Spoken)
    | Acting(said: Spoken, counter: nat)
    | Level(said: Spoken, k: nat, counter: nat)
  {
    predicate Valid() {
      match this
      case Main(_) => true
      case Acting(s, _) => !s.assertion.Head().base.PredicateFact?
      case Level(s, k, _) => k < |s.assertion.Head().delegationChain|
    }

    function ToRule(): Rule
      requires Valid()
    {
      match this
      case Main(s) => MainRule(s)
      case Acting(s, n) => ActingRule(s, FreshName(n))
      case Level(s, k, n) => LevelRule(s, k, FreshName(n))
    }
  }

  lemma BaseRuleHasOrigin(s: Spoken, n: nat, rule: Rule)
    requires rule in BaseRules(s.speaker, s.assertion.Head().base, n)
    ensures Acting(s, n + 1).Valid() && rule == Acting(s, n + 1).ToRule()
  {
  }

  lemma LevelRuleHasOrigin(s: Spoken, n: nat, rule: Rule) returns (k: nat)
    requires rule in DelegationRules(s.speaker, BasePredicate(s.assertion.Head().base), s.assertion.Head().delegationChain, n)
    ensures Level(s, k, n + k + 1).Valid() && rule == Level(s, k, n + k + 1).ToRule()
  {
    var head := s.assertion.Head();
    k := IndexOf(DelegationRules(s.speaker, BasePredicate(head.base), head.delegationChain, n), rule);
  }

  lemma AssertionRuleHasOrigin(s: Spoken, n: nat, rule: Rule) returns (origin: Origin)
    requires rule in AssertionRules(s, n)
    ensures origin.Valid() && origin.said == s && rule == origin.ToRule()
  {
    var head := s.assertion.Head();
    var m := n + BodyDemand(s.assertion.Body());
    var m' := m + BaseDemand(head.base);
    var base := BaseRules(s.speaker, head.base, m);
    var levels := DelegationRules(s.speaker, BasePredicate(head.base), head.delegationChain, m');
    InConcat(base + levels, [MainRule(s)], rule);
    InConcat(base, levels, rule);
    if rule in base {
      BaseRuleHasOrigin(s, m, rule);
      origin := Acting(s, m + 1);
    } else if rule in levels {
      var k := LevelRuleHasOrigin(s, m', rule);
      origin := Level(s, k, m' + k + 1);
    } else {
      origin := Main(s);
    }
  }

  lemma {:induction false} SpokenRuleHasOrigin(said: seq<Spoken>, n: nat, rule: Rule) returns (origin: Origin)
    requires rule in SpokenRules(said, n)
    ensures origin.Valid() && origin.said in said && rule == origin.ToRule()
  {
    hide AssertionRules, AssertionDemand, Origin.ToRule;
    var rest, m := said[1..], n + AssertionDemand(said[0].assertion);
    InConcat(AssertionRules(said[0], n), SpokenRules(rest, m), rule);
    if rule in AssertionRules(said[0], n) {
      origin := AssertionRuleHasOrigin(said[0], n, rule);
    } else {
      origin := SpokenRuleHasOrigin(rest, m, rule);
    }
  }

  /** The rules of every assertion are there, for some numbering of the invented variables. */
  lemma {:induction false} EverySpokenIsLowered(said: seq<Spoken>, n: nat, s: Spoken) returns (m: nat)
    requires s in said
    ensures forall rule :: rule in AssertionRules(s, m) ==> rule in SpokenRules(said, n)
  {
    hide AssertionRules, AssertionDemand;
    var rest, n' := said[1..], n + AssertionDemand(said[0].assertion);
    if s == said[0] {
      m := n;
    } else {
      m := EverySpokenIsLowered(rest, n', s);
    }
    forall rule | rule in AssertionRules(s, m)
      ensures rule in SpokenRules(said, n)
    {
      InConcat(AssertionRules(said[0], n), SpokenRules(rest, n'), rule);
    }
  }

  lemma MainRuleIsLowered(said: seq<Spoken>, s: Spoken)
    requires s in said
    ensures MainRule(s) in SpokenRules(said, 0)
  {
    hide SpokenRules, MainRule, FactRules;
    var m := EverySpokenIsLowered(said, 0, s);
    InConcat(FactRules(s.speaker, s.assertion.Head(), m + BodyDemand(s.assertion.Body())), [MainRule(s)], MainRule(s));
  }

  /** The rules generated for the head of an assertion are there, for some numbering. */
  lemma EveryHeadIsLowered(said: seq<Spoken>, s: Spoken) returns (m: nat)
    requires s in said
    ensures forall rule :: rule in FactRules(s.speaker, s.assertion.Head(), m) ==> rule in SpokenRules(said, 0)
  {
    hide SpokenRules, MainRule, FactRules;
    var k := EverySpokenIsLowered(said, 0, s);
    m := k + BodyDemand(s.assertion.Body());
    forall rule | rule in FactRules(s.speaker, s.assertion.Head(), m)
      ensures rule in SpokenRules(said, 0)
    {
      InConcat(FactRules(s.speaker, s.assertion.Head(), m), [MainRule(s)], rule);
      assert rule in AssertionRules(s, k);
    }
  }

  lemma ActingRuleIsLowered(said: seq<Spoken>, s: Spoken) returns (n: nat)
    requires s in said && !s.assertion.Head().base.PredicateFact?
    ensures ActingRule(s, FreshName(n)) in SpokenRules(said, 0)
  {
    hide SpokenRules, DelegationRules, SpokenAttributeRule, SpokenCanActAsRule;
    var m := EveryHeadIsLowered(said, s);
    n := m + 1;
    var head := s.assertion.Head();
    var base := BaseRules(s.speaker, head.base, m);
    assert base[0] == ActingRule(s, FreshName(n));
    InConcat(base, DelegationRules(s.speaker, BasePredicate(head.base), head.delegationChain, m + BaseDemand(head.base)), base[0]);
    assert base[0] in FactRules(s.speaker, head, m);
  }

  lemma LevelRuleIsLowered(said: seq<Spoken>, s: Spoken, k: nat) returns (n: nat)
    requires s in said && k < |s.assertion.Head().delegationChain|
    ensures LevelRule(s, k, FreshName(n)) in SpokenRules(said, 0)
  {
    hide SpokenRules, DelegationRule, BasePredicate, BaseRules;
    var m := EveryHeadIsLowered(said, s);
    var head := s.assertion.Head();
    n := m + BaseDemand(head.base) + k + 1;
    var levels := DelegationRules(s.speaker, BasePredicate(head.base), head.delegationChain, m + BaseDemand(head.base));
    assert levels[k] == LevelRule(s, k, FreshName(n));
    InConcat(BaseRules(s.speaker, head.base, m), levels, levels[k]);
    assert levels[k] in FactRules(s.speaker, head, m);
  }

  // ---------- Ground instances of the lowered rules ----------

  lemma MainInstance(sigma: Substitution, s: Spoken)
    ensures GroundPredicate(sigma, MainRule(s).lhs) == Encode(GroundFact(sigma, s.speaker, s.assertion.Head()))
    ensures forall i :: 0 <= i < |s.assertion.Body()| ==>
      GroundPredicates(sigma, MainRule(s).rhs)[i] == Encode(GroundBody(sigma, s.speaker, s.assertion.Body())[i])
  {
    GroundSaid(sigma, s.speaker, s.assertion.Head());
    forall i | 0 <= i < |s.assertion.Body()|
      ensures GroundPredicates(sigma, MainRule(s).rhs)[i] == Encode(GroundBody(sigma, s.speaker, s.assertion.Body())[i])
    {
      GroundSaidBase(sigma, s.speaker, s.assertion.Body()[i]);
    }
  }

  lemma LevelInstance(sigma: Substitution, s: Spoken, k: nat, y: string)
    requires k <= |s.assertion.Head().delegationChain|
    ensures
      var b := GroundFact(sigma, s.speaker, s.assertion.Head());
      var inner := b.(chain := b.chain[..k]);
      RuleInstance(sigma, LevelRule(s, k, y)) ==
      Step(Encode(inner),
           [Encode(inner.(speaker := Value(sigma, y))), Encode(inner.(chain := inner.chain + [Value(sigma, y)]))])
  {
    var head := s.assertion.Head();
    var f := Fact(head.delegationChain[..k], head.base);
    var b := GroundFact(sigma, s.speaker, head);
    assert Values(sigma, f.delegationChain) == b.chain[..k];
    GroundSaid(sigma, s.speaker, f);
    GroundSaid(sigma, y, f);
    var g := Fact(f.delegationChain + [y], head.base);
    assert g.delegationChain[..k] == f.delegationChain;
    assert FactPredicate(g) == PushPrincipal(CAN_SAY, y, FactPredicate(f));
    assert Values(sigma, g.delegationChain) == b.chain[..k] + [Value(sigma, y)];
    GroundSaid(sigma, s.speaker, g);
    assert GroundPredicates(sigma, LevelRule(s, k, y).rhs) ==
           [GroundPredicate(sigma, SaidPredicate(y, FactPredicate(f))),
            GroundPredicate(sigma, SaidPredicate(s.speaker, FactPredicate(g)))];
  }

  lemma ActingInstance(sigma: Substitution, s: Spoken, y: string)
    requires !s.assertion.Head().base.PredicateFact?
    ensures
      var who := Value(sigma, s.speaker);
      var property := GroundBase(sigma, s.assertion.Head().base);
      RuleInstance(sigma, ActingRule(s, y)) ==
      Step(Encode(Says(who, [], property.OfSubject(Value(sigma, y)))),
           [Encode(Says(who, [], ActAsClaim(Value(sigma, y), property.Subject()))), Encode(Says(who, [], property))])
  {
    var base := s.assertion.Head().base;
    var rule := ActingRule(s, y);
    match base {
      case AttributeFact(x, p) =>
        GroundSaidBase(sigma, s.speaker, AttributeFact(y, p));
        GroundSaidBase(sigma, s.speaker, CanActAs(y, x));
      case CanActAs(x, z) =>
        GroundSaidBase(sigma, s.speaker, CanActAs(y, z));
        GroundSaidBase(sigma, s.speaker, CanActAs(y, x));
    }
    GroundSaidBase(sigma, s.speaker, base);
    assert GroundPredicates(sigma, rule.rhs) ==
           [GroundPredicate(sigma, rule.rhs[0]), GroundPredicate(sigma, rule.rhs[1])];
  }

  // ---------- Choosing the value of an invented variable ----------

  function Bind(sigma: Substitution, y: string, c: Const): Substitution {
    v => if v == y then c else sigma(v)
  }

  /** Binding an invented variable leaves the head of the assertion as it was. */
  lemma BindKeepsHead(sigma: Substitution, s: Spoken, n: nat, c: Const)
    requires AvoidsFreshNames(s)
    ensures
      var tau := Bind(sigma, FreshName(n), c);
      Value(tau, FreshName(n)) == c &&
      GroundFact(tau, s.speaker, s.assertion.Head()) == GroundFact(sigma, s.speaker, s.assertion.Head())
  {
    var tau := Bind(sigma, FreshName(n), c);
    FreshNameIsVariable(n);
    var head := s.assertion.Head();
    ValuesAgree(sigma, tau, head.delegationChain);
    match head.base
    case PredicateFact(p) => ValuesAgree(sigma, tau, p.args);
    case AttributeFact(x, p) =>
      assert BasePredicate(head.base).args == [x] + p.args;
      assert x in BasePredicate(head.base).args;
      assert forall v :: v in p.args ==> v in BasePredicate(head.base).args;
      ValuesAgree(sigma, tau, p.args);
    case CanActAs(l, r) =>
      assert l in BasePredicate(head.base).args && r in BasePredicate(head.base).args;
  }

  // ---------- The specialised rules are enough ----------

  ghost function Lowered(prog: AuthLogic.Program): iset<Atom> {
    Model(LoweredRules(prog))
  }

  /** The lowered rules are those of the assertions, those of the queries, and the dummy fact. */
  lemma InLoweredRules(prog: AuthLogic.Program, rule: Rule)
    ensures rule in LoweredRules(prog) <==>
      rule in SpokenRules(AllSpoken(prog.saysAssertions), 0) || rule in QueryRules(prog.queries) ||
      rule == Rule(DUMMY_PREDICATE, [])
  {
  }

  lemma EncodingIsNoQuery(prog: AuthLogic.Program, b: Belief, rule: Rule)
    requires InFragment(prog)
    requires rule in LoweredRules(prog) && rule.lhs.name == Encode(b).name
    ensures rule in SpokenRules(AllSpoken(prog.saysAssertions), 0)
  {
    assert StartsWith(rule.lhs.name, SAYS);
    assert !StartsWith(GROUNDED_DUMMY, SAYS) by {
      assert GROUNDED_DUMMY[0] != SAYS[0];
    }
    InLoweredRules(prog, rule);
    assert rule !in QueryRules(prog.queries) by {
      forall i | 0 <= i < |prog.queries|
        ensures QueryRules(prog.queries)[i].lhs.name != rule.lhs.name
      {
        assert QueryInFragment(AttributeNames(prog.declarations), prog.queries[i]);
      }
    }
  }

  /**
   What an atom of the lowered model rests on: the ground head `root` of an
   assertion of the same speaker, reached by dropping outer delegations or by
   one step of acting as the principal that the assertion is about.
   */
  ghost predicate RestsOn(prog: AuthLogic.Program, b: Belief, s: Spoken, root: Belief) {
    root.speaker == b.speaker &&
    ( (b.claim == root.claim && b.chain <= root.chain)
    || (b.chain == [] && b.claim.HasSubject() && root.claim.HasSubject() &&
        b.claim == root.claim.OfSubject(b.claim.Subject()) &&
        Encode(Says(b.speaker, [], ActAsClaim(b.claim.Subject(), root.claim.Subject()))) in Lowered(prog) &&
        Encode(Says(b.speaker, [], root.claim)) in Lowered(prog)))
  }

  lemma Root(prog: AuthLogic.Program, b: Belief) returns (s: Spoken, sigma: Substitution)
    requires InFragment(prog)
    requires ClaimInFragment(AttributeNames(prog.declarations), b.claim)
    requires Encode(b) in Lowered(prog)
    ensures s in AllSpoken(prog.saysAssertions)
    ensures RestsOn(prog, b, s, GroundFact(sigma, s.speaker, s.assertion.Head()))
  {
    hide Encode, MainRule, LevelRule, ActingRule, SpokenRules, LoweredRules;
    var rules := LoweredRules(prog);
    var attributes := AttributeNames(prog.declarations);
    var rule;
    rule, sigma := RuleFor(rules, Encode(b));
    EncodingIsNoQuery(prog, b, rule);
    var origin := SpokenRuleHasOrigin(AllSpoken(prog.saysAssertions), 0, rule);
    s := origin.said;
    var root := GroundFact(sigma, s.speaker, s.assertion.Head());
    GroundBaseInFragment(attributes, sigma, s.assertion.Head().base);
    match origin {
      case Main(_) =>
        MainInstance(sigma, s);
        EncodeIsInjective(attributes, b, root);
      case Level(_, k, n) =>
        LevelInstance(sigma, s, k, FreshName(n));
        EncodeIsInjective(attributes, b, root.(chain := root.chain[..k]));
      case Acting(_, n) =>
        ActingInstance(sigma, s, FreshName(n));
        var y := Value(sigma, FreshName(n));
        EncodeIsInjective(attributes, b, Says(root.speaker, [], root.claim.OfSubject(y)));
        var body := RuleInstance(sigma, rule).body;
        assert body[0] in Lowered(prog) && body[1] in Lowered(prog);
    }
  }

  /** The lowered model is closed under the universal delegation rule, at every nesting depth. */
  lemma ClosedUnderDelegation(prog: AuthLogic.Program, a: Const, b: Const, chain: seq<Const>, claim: Claim)
    requires InFragment(prog)
    requires ClaimInFragment(AttributeNames(prog.declarations), claim)
    requires Encode(Says(b, chain, claim)) in Lowered(prog)
    requires Encode(Says(a, chain + [b], claim)) in Lowered(prog)
    ensures Encode(Says(a, chain, claim)) in Lowered(prog)
  {
    hide Encode, LevelRule, SpokenRules, LoweredRules;
    var said := AllSpoken(prog.saysAssertions);
    var s, sigma := Root(prog, Says(a, chain + [b], claim));
    var root := GroundFact(sigma, s.speaker, s.assertion.Head());
    assert |chain + [b]| > 0;
    assert chain + [b] <= root.chain;
    var k := |chain|;
    assert root.chain[..k] == chain;
    var n := LevelRuleIsLowered(said, s, k);
    var y := FreshName(n);
    var tau := Bind(sigma, y, b);
    BindKeepsHead(sigma, s, n, b);
    LevelInstance(tau, s, k, y);
    InLoweredRules(prog, LevelRule(s, k, y));
    ApplyRule(LoweredRules(prog), LevelRule(s, k, y), tau);
  }

  /** One use of the acting rule of an assertion, for an arbitrary actor. */
  lemma ActLike(prog: AuthLogic.Program, s: Spoken, sigma: Substitution, y: Const)
    requires InFragment(prog)
    requires s in AllSpoken(prog.saysAssertions)
    requires GroundFact(sigma, s.speaker, s.assertion.Head()).claim.HasSubject()
    requires
      var root := GroundFact(sigma, s.speaker, s.assertion.Head());
      Encode(Says(root.speaker, [], ActAsClaim(y, root.claim.Subject()))) in Lowered(prog) &&
      Encode(Says(root.speaker, [], root.claim)) in Lowered(prog)
    ensures
      var root := GroundFact(sigma, s.speaker, s.assertion.Head());
      Encode(Says(root.speaker, [], root.claim.OfSubject(y))) in Lowered(prog)
  {
    hide Encode, ActingRule, SpokenRules, LoweredRules;
    var n := ActingRuleIsLowered(AllSpoken(prog.saysAssertions), s);
    var tau := Bind(sigma, FreshName(n), y);
    BindKeepsHead(sigma, s, n, y);
    ActingInstance(tau, s, FreshName(n));
    InLoweredRules(prog, ActingRule(s, FreshName(n)));
    ApplyRule(LoweredRules(prog), ActingRule(s, FreshName(n)), tau);
  }

  /** Whoever acts as `left` also acts as `right`: what transitivity says about one canActAs atom. */
  ghost predicate Extends(prog: AuthLogic.Program, atom: Atom) {
    forall who: Const, y: Const, x: Const, z: Const ::
      atom == Encode(Says(who, [], ActAsClaim(x, z))) && Encode(Says(who, [], ActAsClaim(y, x))) in Lowered(prog)
      ==> Encode(Says(who, [], ActAsClaim(y, z))) in Lowered(prog)
  }

  /** One step of the induction that proves transitivity. */
  lemma ExtendsStep(prog: AuthLogic.Program, rule: Rule, sigma: Substitution, who: Const, y: Const, x: Const, z: Const)
    requires InFragment(prog)
    requires rule in LoweredRules(prog)
    requires GroundPredicate(sigma, rule.lhs) == Encode(Says(who, [], ActAsClaim(x, z)))
    requires AllIn(GroundPredicates(sigma, rule.rhs), Lowered(prog))
    requires forall i :: 0 <= i < |rule.rhs| ==> Extends(prog, GroundPredicate(sigma, rule.rhs[i]))
    requires Encode(Says(who, [], ActAsClaim(y, x))) in Lowered(prog)
    ensures Encode(Says(who, [], ActAsClaim(y, z))) in Lowered(prog)
  {
    var attributes := AttributeNames(prog.declarations);
    var b := Says(who, [], ActAsClaim(x, z));
    EncodingIsNoQuery(prog, b, rule);
    var origin := SpokenRuleHasOrigin(AllSpoken(prog.saysAssertions), 0, rule);
    var s := origin.said;
    var root := GroundFact(sigma, s.speaker, s.assertion.Head());
    GroundBaseInFragment(attributes, sigma, s.assertion.Head().base);
    ApplyRule(LoweredRules(prog), rule, sigma);
    match origin {
      case Main(_) =>
        MainInstance(sigma, s);
        EncodeIsInjective(attributes, b, root);
        ActLike(prog, s, sigma, y);
      case Level(_, k, n) =>
        LevelInstance(sigma, s, k, FreshName(n));
        EncodeIsInjective(attributes, b, root.(chain := root.chain[..k]));
        ActLike(prog, s, sigma, y);
      case Acting(_, n) =>
        ActingInstance(sigma, s, FreshName(n));
        var v := Value(sigma, FreshName(n));
        EncodeIsInjective(attributes, b, Says(root.speaker, [], root.claim.OfSubject(v)));
        var body := RuleInstance(sigma, rule).body;
        assert body[0] == Encode(Says(who, [], ActAsClaim(x, root.claim.left)));
        assert Extends(prog, GroundPredicate(sigma, rule.rhs[0]));
        assert Encode(Says(who, [], ActAsClaim(y, root.claim.left))) in Lowered(prog);
        assert body[1] in Lowered(prog);
        ActLike(prog, s, sigma, y);
    }
  }

  /** canActAs is transitive for each speaker, although each rule mentions one asserted pair only. */
  lemma ActAsIsTransitive(prog: AuthLogic.Program, who: Const, y: Const, x: Const, z: Const)
    requires InFragment(prog)
    requires Encode(Says(who, [], ActAsClaim(y, x))) in Lowered(prog)
    requires Encode(Says(who, [], ActAsClaim(x, z))) in Lowered(prog)
    ensures Encode(Says(who, [], ActAsClaim(y, z))) in Lowered(prog)
  {
    var steps := Steps(LoweredRules(prog));
    var property := iset atom: Atom | Extends(prog, atom);
    forall step | step in steps && AllIn(step.body, Lowered(prog)) && AllIn(step.body, property)
      ensures step.head in property
    {
      var rule, sigma :| rule in LoweredRules(prog) && step == RuleInstance(sigma, rule);
      forall i | 0 <= i < |rule.rhs|
        ensures Extends(prog, GroundPredicate(sigma, rule.rhs[i]))
      {
        assert step.body[i] in property;
      }
      forall who: Const, y: Const, x: Const, z: Const
        | step.head == Encode(Says(who, [], ActAsClaim(x, z))) && Encode(Says(who, [], ActAsClaim(y, x))) in Lowered(prog)
        ensures Encode(Says(who, [], ActAsClaim(y, z))) in Lowered(prog)
      {
        ExtendsStep(prog, rule, sigma, who, y, x, z);
      }
    }
    Induction(steps, property);
    assert Extends(prog, Encode(Says(who, [], ActAsClaim(x, z))));
  }

  /** Every property passes to every actor, along canActAs chains of any length. */
  lemma ClosedUnderActing(prog: AuthLogic.Program, who: Const, y: Const, property: Claim)
    requires InFragment(prog)
    requires property.HasSubject() && ClaimInFragment(AttributeNames(prog.declarations), property)
    requires Encode(Says(who, [], ActAsClaim(y, property.Subject()))) in Lowered(prog)
    requires Encode(Says(who, [], property)) in Lowered(prog)
    ensures Encode(Says(who, [], property.OfSubject(y))) in Lowered(prog)
  {
    var s, sigma := Root(prog, Says(who, [], property));
    var root := GroundFact(sigma, s.speaker, s.assertion.Head());
    if property != root.claim {
      ActAsIsTransitive(prog, who, y, property.Subject(), root.claim.Subject());
    }
    ActLike(prog, s, sigma, y);
  }

  // ---------- The two meanings coincide ----------

  /** Every belief has its atom in the lowered model. */
  lemma BeliefsAreLowered(prog: AuthLogic.Program, b: Belief)
    requires InFragment(prog)
    requires b in Beliefs(AllSpoken(prog.saysAssertions))
    ensures ClaimInFragment(AttributeNames(prog.declarations), b.claim)
    ensures Encode(b) in Lowered(prog)
  {
    var said := AllSpoken(prog.saysAssertions);
    var attributes := AttributeNames(prog.declarations);
    var encoded := iset x: Belief | ClaimInFragment(attributes, x.claim) && Encode(x) in Lowered(prog);
    forall step | step in LogicSteps(said) && AllIn(step.body, encoded)
      ensures step.head in encoded
    {
      var reason :| Admits(said, reason) && step == StepFor(reason);
      match reason {
        case ByAssertion(s, sigma) =>
          GroundBaseInFragment(attributes, sigma, s.assertion.Head().base);
          MainInstance(sigma, s);
          MainRuleIsLowered(said, s);
          InLoweredRules(prog, MainRule(s));
          ApplyRule(LoweredRules(prog), MainRule(s), sigma);
        case ByDelegation(a, c, chain, claim) =>
          assert step.body[0] in encoded && step.body[1] in encoded;
          ClosedUnderDelegation(prog, a, c, chain, claim);
        case ByActingAs(who, y, property) =>
          assert step.body[0] in encoded && step.body[1] in encoded;
          ClosedUnderActing(prog, who, y, property);
      }
    }
    LeastModelIsLeast(LogicSteps(said), encoded);
  }

  /** `a` is the atom of a belief. */
  ghost predicate IsBelief(prog: AuthLogic.Program, a: Atom) {
    exists b :: b in Beliefs(AllSpoken(prog.saysAssertions)) && a == Encode(b)
  }

  /** `a` is the atom of a query that holds. */
  ghost predicate IsAnswer(prog: AuthLogic.Program, a: Atom) {
    exists q :: q in prog.queries && QueryHolds(AllSpoken(prog.saysAssertions), q) && a == Atom(q.name, [DUMMY_ARGUMENT])
  }

  ghost predicate Means(prog: AuthLogic.Program, a: Atom) {
    IsBelief(prog, a) || IsAnswer(prog, a) || a == DUMMY_ATOM
  }

  /** An encoded atom with a meaning is the atom of that very belief. */
  lemma MeaningOfEncoding(prog: AuthLogic.Program, b: Belief)
    requires InFragment(prog)
    requires ClaimInFragment(AttributeNames(prog.declarations), b.claim)
    requires Means(prog, Encode(b))
    ensures b in Beliefs(AllSpoken(prog.saysAssertions))
  {
    assert StartsWith(Encode(b).name, SAYS);
    assert !StartsWith(GROUNDED_DUMMY, SAYS) by {
      assert GROUNDED_DUMMY[0] != SAYS[0];
    }
    assert IsBelief(prog, Encode(b));
    var b' :| b' in Beliefs(AllSpoken(prog.saysAssertions)) && Encode(b) == Encode(b');
    BeliefsAreLowered(prog, b');
    EncodeIsInjective(AttributeNames(prog.declarations), b, b');
  }

  lemma MainRuleIsSound(prog: AuthLogic.Program, s: Spoken, sigma: Substitution)
    requires InFragment(prog) && s in AllSpoken(prog.saysAssertions)
    requires forall i :: 0 <= i < |MainRule(s).rhs| ==> Means(prog, GroundPredicate(sigma, MainRule(s).rhs[i]))
    ensures IsBelief(prog, GroundPredicate(sigma, MainRule(s).lhs))
  {
    var said := AllSpoken(prog.saysAssertions);
    var attributes := AttributeNames(prog.declarations);
    MainInstance(sigma, s);
    var body := s.assertion.Body();
    forall i | 0 <= i < |body|
      ensures GroundBody(sigma, s.speaker, body)[i] in Beliefs(said)
    {
      assert body[i] in body;
      GroundBaseInFragment(attributes, sigma, body[i]);
      assert GroundPredicates(sigma, MainRule(s).rhs)[i] == GroundPredicate(sigma, MainRule(s).rhs[i]);
      MeaningOfEncoding(prog, GroundBody(sigma, s.speaker, body)[i]);
    }
    Conclude(said, ByAssertion(s, sigma));
  }

  lemma LevelRuleIsSound(prog: AuthLogic.Program, s: Spoken, k: nat, y: string, sigma: Substitution)
    requires InFragment(prog) && s in AllSpoken(prog.saysAssertions)
    requires k < |s.assertion.Head().delegationChain|
    requires Means(prog, RuleInstance(sigma, LevelRule(s, k, y)).body[0])
    requires Means(prog, RuleInstance(sigma, LevelRule(s, k, y)).body[1])
    ensures IsBelief(prog, RuleInstance(sigma, LevelRule(s, k, y)).head)
  {
    var root := GroundFact(sigma, s.speaker, s.assertion.Head());
    GroundBaseInFragment(AttributeNames(prog.declarations), sigma, s.assertion.Head().base);
    LevelInstance(sigma, s, k, y);
    var inner := root.(chain := root.chain[..k]);
    var actor := Value(sigma, y);
    MeaningOfEncoding(prog, inner.(speaker := actor));
    MeaningOfEncoding(prog, inner.(chain := inner.chain + [actor]));
    Conclude(AllSpoken(prog.saysAssertions), ByDelegation(inner.speaker, actor, inner.chain, inner.claim));
  }

  lemma ActingRuleIsSound(prog: AuthLogic.Program, s: Spoken, y: string, sigma: Substitution)
    requires InFragment(prog) && s in AllSpoken(prog.saysAssertions)
    requires !s.assertion.Head().base.PredicateFact?
    requires Means(prog, RuleInstance(sigma, ActingRule(s, y)).body[0])
    requires Means(prog, RuleInstance(sigma, ActingRule(s, y)).body[1])
    ensures IsBelief(prog, RuleInstance(sigma, ActingRule(s, y)).head)
  {
    var root := GroundFact(sigma, s.speaker, s.assertion.Head());
    GroundBaseInFragment(AttributeNames(prog.declarations), sigma, s.assertion.Head().base);
    ActingInstance(sigma, s, y);
    var actor := Value(sigma, y);
    MeaningOfEncoding(prog, Says(root.speaker, [], ActAsClaim(actor, root.claim.Subject())));
    MeaningOfEncoding(prog, Says(root.speaker, [], root.claim));
    Conclude(AllSpoken(prog.saysAssertions), ByActingAs(root.speaker, actor, root.claim));
  }

  /** A generated rule leads from beliefs to beliefs. */
  lemma SpokenRuleIsSound(prog: AuthLogic.Program, rule: Rule, sigma: Substitution)
    requires InFragment(prog)
    requires rule in SpokenRules(AllSpoken(prog.saysAssertions), 0)
    requires forall i :: 0 <= i < |rule.rhs| ==> Means(prog, GroundPredicate(sigma, rule.rhs[i]))
    ensures IsBelief(prog, GroundPredicate(sigma, rule.lhs))
  {
    var origin := SpokenRuleHasOrigin(AllSpoken(prog.saysAssertions), 0, rule);
    match origin {
      case Main(s) =>
        MainRuleIsSound(prog, s, sigma);
      case Level(s, k, n) =>
        assert Means(prog, GroundPredicate(sigma, rule.rhs[0])) && Means(prog, GroundPredicate(sigma, rule.rhs[1]));
        LevelRuleIsSound(prog, s, k, FreshName(n), sigma);
      case Acting(s, n) =>
        assert Means(prog, GroundPredicate(sigma, rule.rhs[0])) && Means(prog, GroundPredicate(sigma, rule.rhs[1]));
        ActingRuleIsSound(prog, s, FreshName(n), sigma);
    }
  }

  /** Every atom of the lowered model has a meaning in the logic. */
  lemma LoweredAtomsMean(prog: AuthLogic.Program, a: Atom)
    requires InFragment(prog)
    requires a in Lowered(prog)
    ensures Means(prog, a)
  {
    var rules := LoweredRules(prog);
    var said := AllSpoken(prog.saysAssertions);
    var meant := iset x: Atom | Means(prog, x);
    forall step | step in Steps(rules) && AllIn(step.body, meant)
      ensures step.head in meant
    {
      var rule, sigma :| rule in rules && step == RuleInstance(sigma, rule);
      forall i | 0 <= i < |rule.rhs|
        ensures Means(prog, GroundPredicate(sigma, rule.rhs[i]))
      {
        assert step.body[i] in meant;
      }
      InLoweredRules(prog, rule);
      if rule in SpokenRules(said, 0) {
        SpokenRuleIsSound(prog, rule, sigma);
      } else if rule in QueryRules(prog.queries) {
        var i := IndexOf(QueryRules(prog.queries), rule);
        var q := prog.queries[i];
        assert q in prog.queries;
        QueryRuleIsSound(prog, q, sigma);
      } else {
        assert step.head == DUMMY_ATOM by {
          assert Values(sigma, [DUMMY_ARGUMENT]) == [DUMMY_ARGUMENT];
        }
      }
    }
    LeastModelIsLeast(Steps(rules), meant);
  }

  lemma QueryRuleIsSound(prog: AuthLogic.Program, q: Query, sigma: Substitution)
    requires InFragment(prog) && q in prog.queries
    requires Means(prog, GroundPredicate(sigma, QueryRule(q).rhs[0]))
    ensures IsAnswer(prog, GroundPredicate(sigma, QueryRule(q).lhs))
  {
    GroundSaid(sigma, q.principal, q.fact);
    GroundBaseInFragment(AttributeNames(prog.declarations), sigma, q.fact.base);
    MeaningOfEncoding(prog, GroundFact(sigma, q.principal, q.fact));
    assert Values(sigma, [DUMMY_ARGUMENT]) == [DUMMY_ARGUMENT];
  }

  /**
   Lowering preserves meaning: a belief, at any delegation depth, follows from
   the assertions and the universal inference rules exactly when its atom is
   in the least model of the lowered Datalog program.
   */
  lemma LoweringPreservesMeaning(prog: AuthLogic.Program, b: Belief)
    requires InFragment(prog)
    requires ClaimInFragment(AttributeNames(prog.declarations), b.claim)
    ensures b in Beliefs(AllSpoken(prog.saysAssertions)) <==> Encode(b) in Lowered(prog)
  {
    if b in Beliefs(AllSpoken(prog.saysAssertions)) {
      BeliefsAreLowered(prog, b);
    }
    if Encode(b) in Lowered(prog) {
      LoweredAtomsMean(prog, Encode(b));
      MeaningOfEncoding(prog, b);
    }
  }

  /** In terms of finite derivations: a belief has one in the logic exactly when its atom has one in Datalog. */
  lemma DerivationsCorrespond(prog: AuthLogic.Program, b: Belief)
    requires InFragment(prog)
    requires ClaimInFragment(AttributeNames(prog.declarations), b.claim)
    ensures Derivable(LogicSteps(AllSpoken(prog.saysAssertions)), b) <==> Derivable(Steps(LoweredRules(prog)), Encode(b))
  {
    LoweringPreservesMeaning(prog, b);
    LeastModelIsFinitelyDerivable(LogicSteps(AllSpoken(prog.saysAssertions)), b);
    LeastModelIsFinitelyDerivable(Steps(LoweredRules(prog)), Encode(b));
  }

  /** A relation of the lowered program has at least one tuple. */
  ghost predicate NonEmpty(prog: AuthLogic.Program, relation: string) {
    exists a :: a in Lowered(prog) && a.name == relation
  }

  lemma AnswersAreLowered(prog: AuthLogic.Program, q: Query)
    requires InFragment(prog) && q in prog.queries
    requires QueryHolds(AllSpoken(prog.saysAssertions), q)
    ensures Atom(q.name, [DUMMY_ARGUMENT]) in Lowered(prog)
  {
    hide Beliefs, Lowered, InFragment, Encode, GroundFact;
    var sigma: Substitution :| GroundFact(sigma, q.principal, q.fact) in Beliefs(AllSpoken(prog.saysAssertions));
    BeliefsAreLowered(prog, GroundFact(sigma, q.principal, q.fact));
    DummyIsLowered(prog);
    QueryRuleFires(prog, q, sigma);
  }

  lemma DummyIsLowered(prog: AuthLogic.Program)
    ensures DUMMY_ATOM in Lowered(prog)
  {
    hide LoweredRules, Model;
    var sigma: Substitution := v => DUMMY_ARGUMENT;
    assert Values(sigma, [DUMMY_ARGUMENT]) == [DUMMY_ARGUMENT];
    InLoweredRules(prog, Rule(DUMMY_PREDICATE, []));
    ApplyRule(LoweredRules(prog), Rule(DUMMY_PREDICATE, []), sigma);
  }

  lemma QueryRuleFires(prog: AuthLogic.Program, q: Query, sigma: Substitution)
    requires q in prog.queries && DUMMY_ATOM in Lowered(prog) && Encode(GroundFact(sigma, q.principal, q.fact)) in Lowered(prog)
    ensures Atom(q.name, [DUMMY_ARGUMENT]) in Lowered(prog)
  {
    hide LoweredRules, Model, Encode, SaidPredicate, FactPredicate, GroundFact;
    GroundSaid(sigma, q.principal, q.fact);
    assert Values(sigma, [DUMMY_ARGUMENT]) == [DUMMY_ARGUMENT];
    var i := IndexOf(prog.queries, q);
    assert QueryRules(prog.queries)[i] == QueryRule(q);
    InLoweredRules(prog, QueryRule(q));
    ApplyRule(LoweredRules(prog), QueryRule(q), sigma);
  }

  /** A query relation is non-empty exactly when some query of that name holds. */
  lemma QueriesPreserveMeaning(prog: AuthLogic.Program, name: string)
    requires InFragment(prog)
    requires !StartsWith(name, SAYS) && name != GROUNDED_DUMMY
    ensures NonEmpty(prog, name) <==>
            exists q :: q in prog.queries && q.name == name && QueryHolds(AllSpoken(prog.saysAssertions), q)
  {
    if NonEmpty(prog, name) {
      var a :| a in Lowered(prog) && a.name == name;
      LoweredAtomsMean(prog, a);
      assert forall b: Belief :: StartsWith(Encode(b).name, SAYS);
    }
    if q :| q in prog.queries && q.name == name && QueryHolds(AllSpoken(prog.saysAssertions), q) {
      AnswersAreLowered(prog, q);
    }
  }
}
