/**
 The two passes together: universe insertion followed by lowering.  The rules
 they produce are range restricted, and their model answers for the program
 the user wrote.
 */
module Compiler {
  import opened Names
  import opened Seqs
  import opened Datalog
  import opened AuthLogic
  import opened Lowering
  import opened Encoding
  import opened LoweringCorrect
  import opened Universe
  import opened UniverseCorrect
  import opened UniverseConservative
  import LP = LoweringPass

  // ---------- Range restriction ----------

  predicate IsPositiveBase(b: BaseFact) {
    b.CanActAs? || b.pred.sign == Positive
  }

  predicate IsPositiveSpoken(s: Spoken) {
    IsPositiveBase(s.assertion.Head().base) && forall b :: b in s.assertion.Body() ==> IsPositiveBase(b)
  }

  ghost predicate IsPositiveProgram(prog: AuthLogic.Program) {
    (forall s :: s in AllSpoken(prog.saysAssertions) ==> IsPositiveSpoken(s)) &&
    (forall q :: q in prog.queries ==> IsPositiveBase(q.fact.base))
  }

  lemma {:induction false} NestSign(p: Predicate, chain: seq<string>)
    ensures Nest(p, chain).sign == p.sign
  {
    if chain != [] {
      NestSign(p, chain[..|chain| - 1]);
    }
  }

  lemma {:induction false} NestArgs(p: Predicate, chain: seq<string>, v: string)
    ensures v in Nest(p, chain).args <==> v in chain || v in p.args
  {
    if chain != [] {
      var n := |chain| - 1;
      NestArgs(p, chain[..n], v);
      InConcat([chain[n]], Nest(p, chain[..n]).args, v);
      InInitOrLast(chain, v);
    }
  }

  lemma SaidArgs(speaker: string, p: Predicate, v: string)
    ensures v in SaidPredicate(speaker, p).args <==> v == speaker || v in p.args
  {
  }

  /** `v` is guarded by `rhs` when some positive atom mentions it. */
  ghost predicate Guards(rhs: seq<Predicate>, v: string) {
    exists i :: 0 <= i < |rhs| && rhs[i].sign == Positive && v in rhs[i].args
  }

  lemma GuardedRule(rule: Rule)
    requires forall v :: v in rule.lhs.args && !IsNameConstant(v) ==> Guards(rule.rhs, v)
    ensures RangeRestricted(rule)
  {
  }

  /** A delegation rule needs no hypothesis: the delegatee's own atom mentions everything but the speaker. */
  lemma LevelRuleIsGuarded(s: Spoken, k: nat, y: string)
    requires IsPositiveBase(s.assertion.Head().base) && k <= |s.assertion.Head().delegationChain|
    ensures RangeRestricted(LevelRule(s, k, y)) && IsPositive(LevelRule(s, k, y))
  {
    var rule := LevelRule(s, k, y);
    var head := s.assertion.Head();
    var inner := FactPredicate(Fact(head.delegationChain[..k], head.base));
    NestSign(BasePredicate(head.base), head.delegationChain[..k]);
    hide FactPredicate, BasePredicate;
    forall v | v in rule.lhs.args
      ensures Guards(rule.rhs, v)
    {
      SaidArgs(s.speaker, inner, v);
      SaidArgs(y, inner, v);
      SaidArgs(s.speaker, PushPrincipal(CAN_SAY, y, inner), v);
      if v == s.speaker {
        assert v in rule.rhs[1].args;
      } else {
        assert v in rule.rhs[0].args;
      }
    }
    GuardedRule(rule);
  }

  lemma ActingRuleIsGuarded(s: Spoken, y: string)
    requires IsPositiveBase(s.assertion.Head().base) && !s.assertion.Head().base.PredicateFact?
    ensures RangeRestricted(ActingRule(s, y)) && IsPositive(ActingRule(s, y))
  {
  }

  /** A declared head gets a universe condition for each of its variables. */
  lemma VariableGetsCondition(env: Environment, h: BaseFact, v: string) returns (t: ArgumentType)
    requires HeadIsDeclared(env, h) && v in BasePredicate(h).args && !IsNameConstant(v)
    ensures MembershipFact(v, t) in Conditions(env, h)
  {
    match h
    case PredicateFact(p) =>
      t := ArgumentGetsCondition(env, p, v);
    case AttributeFact(prin, p) =>
      InConcat([prin], p.args, v);
      if v == prin {
        t := PrincipalType;
      } else {
        t := ArgumentGetsCondition(env, p, v);
      }
      InConcat(PrincipalConditions(prin), PredicateConditions(env, p), MembershipFact(v, t));
    case CanActAs(l, r) =>
      t := PrincipalType;
      InConcat(PrincipalConditions(l), PrincipalConditions(r), MembershipFact(v, t));
  }

  lemma ArgumentGetsCondition(env: Environment, p: Predicate, v: string) returns (t: ArgumentType)
    requires PredicateIsDeclared(env, p) && v in p.args && !IsNameConstant(v)
    ensures MembershipFact(v, t) in PredicateConditions(env, p)
  {
    var i := IndexOf(p.args, v);
    t := env[p.name].arguments[i].argumentType;
    ArgumentsGetConditions(env[p.name], p.args, |p.args|, i);
  }

  /** An assertion with its universe conditions: every variable of the head is guarded. */
  lemma MainRuleIsGuarded(env: Environment, s: Spoken, s': Spoken)
    requires HasConstantPrincipals(s) && HeadIsDeclared(env, s.assertion.Head().base)
    requires s' == Spoken(s.speaker, Conditioned(env, s.assertion))
    ensures RangeRestricted(MainRule(s'))
  {
    hide HeadIsDeclared, Conditions, Conditioned, BasePredicate;
    var rule := MainRule(s');
    var head := s.assertion.Head();
    ConditionedKeepsHead(env, s.assertion);
    var body := s'.assertion.Body();
    forall v | v in rule.lhs.args && !IsNameConstant(v)
      ensures Guards(rule.rhs, v)
    {
      SaidArgs(s.speaker, FactPredicate(head), v);
      NestArgs(BasePredicate(head.base), head.delegationChain, v);
      var t := VariableGetsCondition(env, head.base, v);
      InConcat(Conditions(env, head.base), s.assertion.Body(), MembershipFact(v, t));
      var i := IndexOf(body, MembershipFact(v, t));
      MembershipMentions(s.speaker, v, t);
      assert rule.rhs[i] == SaidPredicate(s.speaker, BasePredicate(MembershipFact(v, t)));
    }
    GuardedRule(rule);
  }

  lemma MembershipMentions(speaker: string, v: string, t: ArgumentType)
    ensures
      var p := SaidPredicate(speaker, BasePredicate(MembershipFact(v, t)));
      p.sign == Positive && v in p.args
  {
  }

  /** What the assertions of the new program look like. */
  lemma InsertedSpokenIsPositive(prog: AuthLogic.Program, env: Environment, typing: Typing, out: AuthLogic.Program, s': Spoken)
    requires IsInsertion(prog, env, typing, out) && IsPositiveProgram(prog)
    requires s' in AllSpoken(out.saysAssertions)
    ensures IsPositiveSpoken(s')
  {
    hide IsInsertion;
    InsertedSpoken(prog, env, typing, out, s');
    if IsConditionedSpoken(prog, env, s') {
      var a :| Spoken(s'.speaker, a) in AllSpoken(prog.saysAssertions) && s'.assertion == Conditioned(env, a);
      var s := Spoken(s'.speaker, a);
      assert IsPositiveSpoken(s);
      ConditionedKeepsHead(env, a);
      forall b | b in s'.assertion.Body()
        ensures IsPositiveBase(b)
      {
        InConcat(Conditions(env, a.Head().base), a.Body(), b);
        if b in Conditions(env, a.Head().base) {
          ConditionIsMembership(env, a.Head().base, b);
        }
      }
    }
  }

  lemma ConditionIsMembership(env: Environment, h: BaseFact, b: BaseFact)
    requires b in Conditions(env, h)
    ensures exists v, t :: b == MembershipFact(v, t)
  {
    hide Conditions;
    ConditionsAreTypes(env, h, b);
  }

  lemma InsertedMainRuleIsGuarded(prog: AuthLogic.Program, env: Environment, typing: Typing, out: AuthLogic.Program, s': Spoken)
    requires IsInsertion(prog, env, typing, out)
    requires forall s :: s in AllSpoken(prog.saysAssertions) ==> HasConstantPrincipals(s)
    requires s' in AllSpoken(out.saysAssertions)
    ensures RangeRestricted(MainRule(s'))
  {
    InsertedSpoken(prog, env, typing, out, s');
    if IsUniverseSpoken(typing, s') {
      var c :| s'.speaker in typing && typing[s'.speaker] == PrincipalType && c in typing &&
        s'.assertion == FactAssertion(Fact([], MembershipFact(c, typing[c])));
      RunTypesExactly(ProgramEvents(env, prog));
      assert MainRule(s').lhs.args == [s'.speaker, c];
    } else {
      var a :| Spoken(s'.speaker, a) in AllSpoken(prog.saysAssertions) && s'.assertion == Conditioned(env, a);
      var s := Spoken(s'.speaker, a);
      DeclaredHead(prog, env, typing, out, s);
      MainRuleIsGuarded(env, s, s');
    }
  }

  /**
   Range restriction end to end: for a positive program with constant speakers
   and delegatees, universe insertion followed by lowering produces only
   positive rules whose head variables all occur in the body.
   */
  lemma CompiledRulesAreRangeRestricted(prog: AuthLogic.Program, env: Environment, typing: Typing, out: AuthLogic.Program,
                                        rule: Rule)
    requires IsInsertion(prog, env, typing, out) && IsPositiveProgram(prog)
    requires forall s :: s in AllSpoken(prog.saysAssertions) ==> HasConstantPrincipals(s)
    requires rule in LoweredRules(out)
    ensures RangeRestricted(rule) && IsPositive(rule)
  {
    InLoweredRules(out, rule);
    assert out.queries == prog.queries;
    hide IsInsertion, LoweredRules;
    if rule in SpokenRules(AllSpoken(out.saysAssertions), 0) {
      var origin := SpokenRuleHasOrigin(AllSpoken(out.saysAssertions), 0, rule);
      InsertedSpokenIsPositive(prog, env, typing, out, origin.said);
      match origin {
        case Main(s) =>
          InsertedMainRuleIsGuarded(prog, env, typing, out, s);
          MainRuleIsPositive(s);
        case Level(s, k, n) => LevelRuleIsGuarded(s, k, FreshName(n));
        case Acting(s, n) => ActingRuleIsGuarded(s, FreshName(n));
      }
    } else if rule in QueryRules(prog.queries) {
      QueryRuleIsGuarded(prog, rule);
    }
  }

  lemma QueryRuleIsGuarded(prog: AuthLogic.Program, rule: Rule)
    requires IsPositiveProgram(prog) && rule in QueryRules(prog.queries)
    ensures RangeRestricted(rule) && IsPositive(rule)
  {
    var i := IndexOf(QueryRules(prog.queries), rule);
    var q := prog.queries[i];
    assert q in prog.queries;
    NestSign(BasePredicate(q.fact.base), q.fact.delegationChain);
  }

  lemma MainRuleIsPositive(s: Spoken)
    requires IsPositiveSpoken(s)
    ensures IsPositive(MainRule(s))
  {
    var rule := MainRule(s);
    NestSign(BasePredicate(s.assertion.Head().base), s.assertion.Head().delegationChain);
    forall p | p in rule.rhs
      ensures p.sign == Positive
    {
      var i := IndexOf(rule.rhs, p);
      assert s.assertion.Body()[i] in s.assertion.Body();
    }
  }

  // ---------- Meaning ----------

  /** No attribute, and no query, is about a relation that is named like a universe. */
  ghost predicate KeepsUniversesApart(prog: AuthLogic.Program) {
    (forall n :: n in AttributeNames(prog.declarations) ==> !IsUniverseName(prog.declarations, n)) &&
    (forall q :: q in prog.queries ==> !IsUniverseName(prog.declarations, RelationOf(q.fact.base)))
  }

  lemma AttributesAreKept(prog: AuthLogic.Program, env: Environment, typing: Typing, out: AuthLogic.Program)
    requires IsInsertion(prog, env, typing, out)
    ensures AttributeNames(out.declarations) == AttributeNames(prog.declarations)
  {
    var ds, ds' := prog.declarations, out.declarations;
    hide ProgramEvents, Run, AttributeNames, IsUniverseAssertion, ConditionedSays, SaysIsDeclared, TypeOccurs, Declares;
    assert ds' == ds + ds'[|ds|..];
    NoFurtherAttributes(ds, ds'[|ds|..]);
  }

  lemma NoFurtherAttributes(ds: seq<RelationDeclaration>, more: seq<RelationDeclaration>)
    requires forall d :: d in more ==> !d.isAttribute
    ensures AttributeNames(ds + more) == AttributeNames(ds)
  {
    var all := ds + more;
    assert forall j :: 0 <= j < |more| ==> !more[j].isAttribute;
    forall i | 0 <= i < |all| && all[i].isAttribute
      ensures all[i].name in AttributeNames(ds)
    {
      assert i < |ds| ==> ds[i] == all[i];
    }
    forall i | 0 <= i < |ds| && ds[i].isAttribute
      ensures ds[i].name in AttributeNames(all)
    {
      assert ds[i] == all[i];
    }
  }

  lemma UniverseNameIsUserRelation(t: ArgumentType)
    ensures IsUserRelation(UniverseName(t))
  {
    assert UniverseName(t)[0] == 'i' && CAN_SAY[0] == 'c' && CAN_ACT_AS[0] == 'c';
  }

  /** A condition of the pass is in the fragment, because no attribute is named like its universe. */
  lemma MembershipIsInFragment(prog: AuthLogic.Program, v: string, t: ArgumentType)
    requires KeepsUniversesApart(prog) && TypeOccurs(prog.declarations, t)
    ensures BaseInFragment(AttributeNames(prog.declarations), MembershipFact(v, t))
  {
    UniverseNameIsUserRelation(t);
    assert IsUniverseName(prog.declarations, UniverseName(t));
  }

  lemma ConditionIsInFragment(prog: AuthLogic.Program, env: Environment, h: BaseFact, b: BaseFact)
    requires Declares(prog.declarations, env) && KeepsUniversesApart(prog) && b in Conditions(env, h)
    ensures BaseInFragment(AttributeNames(prog.declarations), b)
  {
    hide Conditions, HasType, KeepsUniversesApart;
    ConditionsAreTypes(env, h, b);
    var v, t :| HasType(env, h, v, t) && b == MembershipFact(v, t);
    HeadTypesOccur(prog.declarations, env, h, v, t);
    MembershipIsInFragment(prog, v, t);
  }

  lemma UniverseSpokenIsInFragment(prog: AuthLogic.Program, env: Environment, typing: Typing, out: AuthLogic.Program, s: Spoken)
    requires IsInsertion(prog, env, typing, out) && KeepsUniversesApart(prog) && IsUniverseSpoken(typing, s)
    ensures SpokenInFragment(AttributeNames(prog.declarations), s)
  {
    var c :| s.speaker in typing && typing[s.speaker] == PrincipalType && c in typing &&
      s.assertion == FactAssertion(Fact([], MembershipFact(c, typing[c])));
    ConstantTypesOccur(prog, env, typing, c);
    MembershipIsInFragment(prog, c, typing[c]);
    RunTypesExactly(ProgramEvents(env, prog));
    ConstantIsNotFresh(c);
    ConstantIsNotFresh(s.speaker);
    assert BasePredicate(s.assertion.Head().base).args == [c];
  }

  lemma ConstantIsNotFresh(c: string)
    requires IsNameConstant(c)
    ensures !IsFreshName(c)
  {
    forall n: nat
      ensures c != FreshName(n)
    {
      FreshNameIsVariable(n);
    }
  }

  lemma ConditionedSpokenIsInFragment(prog: AuthLogic.Program, env: Environment, typing: Typing, out: AuthLogic.Program, s': Spoken)
    requires IsInsertion(prog, env, typing, out) && KeepsUniversesApart(prog)
    requires InFragment(prog) && IsConditionedSpoken(prog, env, s')
    ensures SpokenInFragment(AttributeNames(prog.declarations), s')
  {
    hide Conditioned, Conditions, BaseInFragment, KeepsUniversesApart, AvoidsFreshNames;
    var a :| Spoken(s'.speaker, a) in AllSpoken(prog.saysAssertions) && s'.assertion == Conditioned(env, a);
    var s := Spoken(s'.speaker, a);
    assert SpokenInFragment(AttributeNames(prog.declarations), s);
    ConditionedKeepsHead(env, a);
    SameHeadAvoidsFresh(s, s');
    forall b | b in s'.assertion.Body()
      ensures BaseInFragment(AttributeNames(prog.declarations), b)
    {
      InConcat(Conditions(env, a.Head().base), a.Body(), b);
      if b in Conditions(env, a.Head().base) {
        ConditionIsInFragment(prog, env, a.Head().base, b);
      }
    }
  }

  lemma SameHeadAvoidsFresh(s: Spoken, s': Spoken)
    requires AvoidsFreshNames(s) && s'.speaker == s.speaker && s'.assertion.Head() == s.assertion.Head()
    ensures AvoidsFreshNames(s')
  {
  }

  lemma InsertionStaysInFragment(prog: AuthLogic.Program, env: Environment, typing: Typing, out: AuthLogic.Program)
    requires IsInsertion(prog, env, typing, out) && InFragment(prog) && KeepsUniversesApart(prog)
    ensures InFragment(out)
  {
    AttributesAreKept(prog, env, typing, out);
    assert out.queries == prog.queries;
    hide IsInsertion, SpokenInFragment, KeepsUniversesApart;
    forall s | s in AllSpoken(out.saysAssertions)
      ensures SpokenInFragment(AttributeNames(out.declarations), s)
    {
      InsertedSpoken(prog, env, typing, out, s);
      if IsUniverseSpoken(typing, s) {
        UniverseSpokenIsInFragment(prog, env, typing, out, s);
      } else {
        ConditionedSpokenIsInFragment(prog, env, typing, out, s);
      }
    }
  }

  /**
   The compiler preserves meaning: the atom of a belief about a relation of
   the user's program is in the model of the compiled rules exactly when the
   belief follows from the program with its head variables ranging over the
   constants of their types.
   */
  lemma CompilerPreservesMeaning(prog: AuthLogic.Program, env: Environment, typing: Typing, out: AuthLogic.Program, b: Belief)
    requires IsInsertion(prog, env, typing, out) && IsPlain(prog) && InFragment(prog) && KeepsUniversesApart(prog)
    requires ClaimInFragment(AttributeNames(prog.declarations), b.claim)
    requires !IsUniverseName(prog.declarations, RelationOfClaim(b.claim))
    ensures b in TypedBeliefs(AllSpoken(prog.saysAssertions), env, typing) <==> Encode(b) in Lowered(out)
  {
    InsertionStaysInFragment(prog, env, typing, out);
    AttributesAreKept(prog, env, typing, out);
    UniverseInsertionIsExact(prog, env, typing, out, b);
    LoweringPreservesMeaning(out, b);
  }

  /** For range-restricted programs that is the meaning without types. */
  lemma CompilerPreservesBeliefs(prog: AuthLogic.Program, env: Environment, typing: Typing, out: AuthLogic.Program, b: Belief)
    requires IsInsertion(prog, env, typing, out) && AllSuitable(prog, env) && InFragment(prog) && KeepsUniversesApart(prog)
    requires ClaimInFragment(AttributeNames(prog.declarations), b.claim)
    requires !IsUniverseName(prog.declarations, RelationOfClaim(b.claim))
    ensures b in Beliefs(AllSpoken(prog.saysAssertions)) <==> Encode(b) in Lowered(out)
  {
    SuitableIsPlain(prog, env);
    CompilerPreservesMeaning(prog, env, typing, out, b);
    AllBeliefsAreTypedBeliefs(prog, env, typing);
  }

  /** A query holds when some instance of its fact follows from typed instances of the assertions. */
  ghost predicate TypedQueryHolds(said: seq<Spoken>, env: Environment, typing: Typing, q: Query) {
    exists sigma: Substitution :: GroundFact(sigma, q.principal, q.fact) in TypedBeliefs(said, env, typing)
  }

  lemma QueryMeansTheSame(prog: AuthLogic.Program, env: Environment, typing: Typing, out: AuthLogic.Program, q: Query)
    requires IsInsertion(prog, env, typing, out) && IsPlain(prog)
    requires !IsUniverseName(prog.declarations, RelationOf(q.fact.base))
    ensures TypedQueryHolds(AllSpoken(prog.saysAssertions), env, typing, q) <==> QueryHolds(AllSpoken(out.saysAssertions), q)
  {
    hide IsInsertion, IsPlain, IsUniverseName, Beliefs, TypedBeliefs;
    var said, said' := AllSpoken(prog.saysAssertions), AllSpoken(out.saysAssertions);
    forall sigma: Substitution
      ensures GroundFact(sigma, q.principal, q.fact) in TypedBeliefs(said, env, typing) <==>
              GroundFact(sigma, q.principal, q.fact) in Beliefs(said')
    {
      assert RelationOfClaim(GroundBase(sigma, q.fact.base)) == RelationOf(q.fact.base);
      UniverseInsertionIsExact(prog, env, typing, out, GroundFact(sigma, q.principal, q.fact));
    }
  }

  /** A query relation of the compiled program is non-empty exactly when the user's query holds. */
  lemma CompilerAnswersQueries(prog: AuthLogic.Program, env: Environment, typing: Typing, out: AuthLogic.Program, name: string)
    requires IsInsertion(prog, env, typing, out) && IsPlain(prog) && InFragment(prog) && KeepsUniversesApart(prog)
    requires !StartsWith(name, SAYS) && name != GROUNDED_DUMMY
    ensures NonEmpty(out, name) <==>
            exists q :: q in prog.queries && q.name == name && TypedQueryHolds(AllSpoken(prog.saysAssertions), env, typing, q)
  {
    InsertionStaysInFragment(prog, env, typing, out);
    QueriesPreserveMeaning(out, name);
    assert out.queries == prog.queries;
    hide IsInsertion, IsPlain, InFragment, IsUniverseName, QueryHolds, TypedQueryHolds, NonEmpty;
    forall q | q in prog.queries
      ensures TypedQueryHolds(AllSpoken(prog.saysAssertions), env, typing, q) <==> QueryHolds(AllSpoken(out.saysAssertions), q)
    {
      QueryMeansTheSame(prog, env, typing, out, q);
    }
  }

  /** For range-restricted programs it is non-empty exactly when the query holds without types. */
  lemma CompilerPreservesQueries(prog: AuthLogic.Program, env: Environment, typing: Typing, out: AuthLogic.Program, name: string)
    requires IsInsertion(prog, env, typing, out) && AllSuitable(prog, env) && InFragment(prog) && KeepsUniversesApart(prog)
    requires !StartsWith(name, SAYS) && name != GROUNDED_DUMMY
    ensures NonEmpty(out, name) <==>
            exists q :: q in prog.queries && q.name == name && QueryHolds(AllSpoken(prog.saysAssertions), q)
  {
    SuitableIsPlain(prog, env);
    CompilerAnswersQueries(prog, env, typing, out, name);
    AllBeliefsAreTypedBeliefs(prog, env, typing);
    hide IsInsertion, AllSuitable, InFragment, NonEmpty, Beliefs, TypedBeliefs;
    forall q
      ensures TypedQueryHolds(AllSpoken(prog.saysAssertions), env, typing, q) <==> QueryHolds(AllSpoken(prog.saysAssertions), q)
    {
    }
  }

  // ---------- Outputs ----------

  /** The engine has something to print for `relation`. */
  ghost predicate Prints(out: Datalog.Program, relation: string) {
    relation in out.outputs && exists a :: a in Model(out.rules) && a.name == relation
  }

  lemma QueriesAreOutputs(prog: AuthLogic.Program, out: Datalog.Program, name: string)
    requires LP.OutputsAreQueries(prog, out)
    ensures name in out.outputs <==> exists q :: q in prog.queries && q.name == name
  {
    if name in out.outputs {
      var i := IndexOf(out.outputs, name);
      assert prog.queries[i] in prog.queries;
    }
    if q :| q in prog.queries && q.name == name {
      var i := IndexOf(prog.queries, q);
      assert out.outputs[i] == name;
    }
  }

  /** Of the lowered program exactly the relations of queries that hold are printed. */
  lemma LoweredOutputsAnswerQueries(prog: AuthLogic.Program, names: seq<string>, name: string)
    requires InFragment(prog) && !StartsWith(name, SAYS) && name != GROUNDED_DUMMY
    ensures Prints(LP.LoweredProgram(prog, names), name) <==>
            exists q :: q in prog.queries && q.name == name && QueryHolds(AllSpoken(prog.saysAssertions), q)
  {
    var out := LP.LoweredProgram(prog, names);
    QueriesAreOutputs(prog, out, name);
    QueriesPreserveMeaning(prog, name);
    assert out.rules == LoweredRules(prog);
    hide InFragment, QueryHolds, LP.LoweredProgram, LoweredRules;
    assert NonEmpty(prog, name) <==> exists a :: a in Model(out.rules) && a.name == name;
  }

  /** Both passes together: exactly the relations of queries that hold are printed. */
  lemma CompilerOutputsAnswerQueries(prog: AuthLogic.Program, env: Environment, typing: Typing, out: AuthLogic.Program,
                                     names: seq<string>, name: string)
    requires IsInsertion(prog, env, typing, out) && IsPlain(prog) && InFragment(prog) && KeepsUniversesApart(prog)
    requires !StartsWith(name, SAYS) && name != GROUNDED_DUMMY
    ensures Prints(LP.LoweredProgram(out, names), name) <==>
            exists q :: q in prog.queries && q.name == name && TypedQueryHolds(AllSpoken(prog.saysAssertions), env, typing, q)
  {
    var lowered := LP.LoweredProgram(out, names);
    QueriesAreOutputs(out, lowered, name);
    CompilerAnswersQueries(prog, env, typing, out, name);
    assert out.queries == prog.queries;
    assert lowered.rules == LoweredRules(out);
    hide InFragment, IsInsertion, TypedQueryHolds, LP.LoweredProgram, LoweredRules;
    assert NonEmpty(out, name) <==> exists a :: a in Model(lowered.rules) && a.name == name;
  }
}
