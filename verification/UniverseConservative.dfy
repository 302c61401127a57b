/**
 When universe insertion changes no belief: if every head variable occurs in a
 condition, at the same type, all instances that matter are typed anyway.
 Without that, it does take beliefs away.
 */
module UniverseConservative {
  import opened Names
  import opened Seqs
  import opened Checks
  import opened Inference
  import opened Datalog
  import opened AuthLogic
  import opened Universe
  import opened UniverseCorrect

  // ---------- Hypotheses on the program ----------

  /** Speakers and delegatees are constants. */
  predicate HasConstantPrincipals(s: Spoken) {
    IsNameConstant(s.speaker) && forall d :: d in s.assertion.Head().delegationChain ==> IsNameConstant(d)
  }

  /** Every variable of the head occurs in a condition. */
  ghost predicate IsRangeRestricted(env: Environment, s: Spoken) {
    forall v, t :: Typed(v, t) in BaseEvents(env, s.assertion.Head().base) && !IsNameConstant(v) ==>
      exists b, t' :: b in s.assertion.Body() && Typed(v, t') in BaseEvents(env, b)
  }

  /** A variable that occurs in the head and in a condition has the same type in both. */
  ghost predicate HasConsistentTypes(env: Environment, s: Spoken) {
    forall v, t, b, t' ::
      Typed(v, t) in BaseEvents(env, s.assertion.Head().base) && !IsNameConstant(v) &&
      b in s.assertion.Body() && Typed(v, t') in BaseEvents(env, b)
      ==> t == t'
  }

  ghost predicate IsSuitable(ds: seq<RelationDeclaration>, env: Environment, s: Spoken) {
    HasConstantPrincipals(s) && IsRangeRestricted(env, s) && HasConsistentTypes(env, s) && AvoidsUniverseNames(ds, s) &&
    !IsNumericOperator(RelationOf(s.assertion.Head().base))
  }

  ghost predicate AllSuitable(prog: AuthLogic.Program, env: Environment) {
    forall s :: s in AllSpoken(prog.saysAssertions) ==> IsSuitable(prog.declarations, env, s)
  }

  // ---------- Beliefs are well typed ----------

  /** A ground claim, read as a base fact. */
  function AsBase(c: Claim): BaseFact {
    match c
    case PredicateClaim(name, args) => PredicateFact(Predicate(name, args, Positive))
    case AttributeClaim(prin, name, args) => AttributeFact(prin, Predicate(name, args, Positive))
    case ActAsClaim(l, r) => CanActAs(l, r)
  }

  function GroundEvent(sigma: Substitution, e: Event): Event {
    if e.Abort? then Abort else Typed(Value(sigma, e.name), e.argumentType)
  }

  function GroundEvents(sigma: Substitution, es: seq<Event>): (r: seq<Event>)
    ensures |r| == |es|
  {
    seq(|es|, i requires 0 <= i < |es| => GroundEvent(sigma, es[i]))
  }

  lemma GroundPredicateEvents(env: Environment, sigma: Substitution, p: Predicate)
    ensures PredicateEvents(env, Predicate(p.name, Values(sigma, p.args), Positive)) == GroundEvents(sigma, PredicateEvents(env, p))
  {
  }

  lemma GroundPrincipalEvents(sigma: Substitution, names: seq<string>)
    ensures PrincipalEvents(Values(sigma, names)) == GroundEvents(sigma, PrincipalEvents(names))
  {
  }

  /** The occurrences in an instance are the instances of the occurrences. */
  lemma GroundBaseEvents(env: Environment, sigma: Substitution, b: BaseFact)
    ensures BaseEvents(env, AsBase(GroundBase(sigma, b))) == GroundEvents(sigma, BaseEvents(env, b))
  {
    hide PredicateEvents, PrincipalEvents;
    match b
    case PredicateFact(p) =>
      GroundPredicateEvents(env, sigma, p);
    case AttributeFact(prin, p) =>
      GroundPredicateEvents(env, sigma, p);
      GroundPrincipalEvents(sigma, [prin]);
      assert Values(sigma, [prin]) == [Value(sigma, prin)];
      var a, c := PrincipalEvents([prin]), PredicateEvents(env, p);
      assert GroundEvents(sigma, a + c) == GroundEvents(sigma, a) + GroundEvents(sigma, c);
    case CanActAs(l, r) =>
      GroundPrincipalEvents(sigma, [l, r]);
      assert Values(sigma, [l, r]) == [Value(sigma, l), Value(sigma, r)];
  }

  ghost predicate AllHold(typing: Typing, es: seq<Event>) {
    forall e :: e in es ==> Holds(typing, e)
  }

  /** Speaker and delegatees are principals of the program, and every argument has its declared type. */
  ghost predicate IsTypedBelief(env: Environment, typing: Typing, b: Belief) {
    Holds(typing, Typed(b.speaker, PrincipalType)) &&
    (forall i :: 0 <= i < |b.chain| ==> Holds(typing, Typed(b.chain[i], PrincipalType))) &&
    AllHold(typing, BaseEvents(env, AsBase(b.claim)))
  }

  lemma ConditionTypes(env: Environment, typing: Typing, sigma: Substitution, b: BaseFact, v: string, t: ArgumentType)
    requires AllHold(typing, BaseEvents(env, AsBase(GroundBase(sigma, b))))
    requires Typed(v, t) in BaseEvents(env, b)
    ensures Holds(typing, Typed(Value(sigma, v), t))
  {
    GroundBaseEvents(env, sigma, b);
    var i := IndexOf(BaseEvents(env, b), Typed(v, t));
    assert GroundEvents(sigma, BaseEvents(env, b))[i] == Typed(Value(sigma, v), t);
    assert Typed(Value(sigma, v), t) in GroundEvents(sigma, BaseEvents(env, b));
  }

  /** An instance of an assertion leads from typed beliefs to a typed belief. */
  lemma HeadIsTyped(prog: AuthLogic.Program, env: Environment, typing: Typing, s: Spoken, sigma: Substitution)
    requires Run(map[], ProgramEvents(env, prog)) == Passed(typing)
    requires s in AllSpoken(prog.saysAssertions) && IsSuitable(prog.declarations, env, s)
    requires forall b :: b in s.assertion.Body() ==> AllHold(typing, BaseEvents(env, AsBase(GroundBase(sigma, b))))
    ensures IsTypedBelief(env, typing, GroundFact(sigma, s.speaker, s.assertion.Head()))
  {
    hide BaseEvents, Run, ProgramEvents;
    var head := s.assertion.Head();
    assert PrincipalEvents([s.speaker])[0] == Typed(s.speaker, PrincipalType);
    OccurrenceIsTyped(prog, env, typing, s, Typed(s.speaker, PrincipalType));
    forall i | 0 <= i < |head.delegationChain|
      ensures Holds(typing, Typed(Values(sigma, head.delegationChain)[i], PrincipalType))
    {
      assert PrincipalEvents(head.delegationChain)[i] == Typed(head.delegationChain[i], PrincipalType);
      assert head.delegationChain[i] in head.delegationChain;
      OccurrenceIsTyped(prog, env, typing, s, Typed(head.delegationChain[i], PrincipalType));
    }
    var ground := BaseEvents(env, AsBase(GroundBase(sigma, head.base)));
    GroundBaseEvents(env, sigma, head.base);
    forall e | e in ground
      ensures Holds(typing, e)
    {
      var i := IndexOf(ground, e);
      var e0 := BaseEvents(env, head.base)[i];
      OccurrenceIsTyped(prog, env, typing, s, e0);
      if !IsNameConstant(e0.name) {
        var b, t' :| b in s.assertion.Body() && Typed(e0.name, t') in BaseEvents(env, b);
        assert Typed(e0.name, e0.argumentType) in BaseEvents(env, head.base);
        ConditionTypes(env, typing, sigma, b, e0.name, t');
      }
    }
  }

  /** Acting as someone replaces one principal by another. */
  lemma SubjectEvents(env: Environment, typing: Typing, c: Claim, y: Const)
    requires c.HasSubject() && AllHold(typing, BaseEvents(env, AsBase(c))) && Holds(typing, Typed(y, PrincipalType))
    ensures AllHold(typing, BaseEvents(env, AsBase(c.OfSubject(y))))
  {
  }

  lemma ActorIsPrincipal(env: Environment, typing: Typing, y: Const, x: Const)
    requires AllHold(typing, BaseEvents(env, AsBase(ActAsClaim(y, x))))
    ensures Holds(typing, Typed(y, PrincipalType))
  {
    var es := BaseEvents(env, AsBase(ActAsClaim(y, x)));
    assert es[0] == Typed(y, PrincipalType) && es[0] in es;
  }

  /** Everything believed is well typed. */
  lemma BeliefsAreTyped(prog: AuthLogic.Program, env: Environment, typing: Typing, b: Belief)
    requires Run(map[], ProgramEvents(env, prog)) == Passed(typing)
    requires AllSuitable(prog, env)
    requires b in Beliefs(AllSpoken(prog.saysAssertions))
    ensures IsTypedBelief(env, typing, b)
  {
    hide BaseEvents, Run, ProgramEvents;
    var said := AllSpoken(prog.saysAssertions);
    var typed := iset x: Belief | IsTypedBelief(env, typing, x);
    forall step | step in LogicSteps(said) && AllIn(step.body, typed)
      ensures step.head in typed
    {
      var reason :| Admits(said, reason) && step == StepFor(reason);
      match reason {
        case ByAssertion(s, sigma) =>
          var body := s.assertion.Body();
          forall x | x in body
            ensures AllHold(typing, BaseEvents(env, AsBase(GroundBase(sigma, x))))
          {
            var i := IndexOf(body, x);
            assert step.body[i] in typed;
          }
          HeadIsTyped(prog, env, typing, s, sigma);
        case ByDelegation(a, c, chain, claim) =>
          assert step.body[0] in typed && step.body[1] in typed;
          forall i | 0 <= i < |chain|
            ensures Holds(typing, Typed(chain[i], PrincipalType))
          {
            assert (chain + [c])[i] == chain[i];
          }
        case ByActingAs(who, y, property) =>
          assert step.body[0] in typed && step.body[1] in typed;
          ActorIsPrincipal(env, typing, y, property.Subject());
          SubjectEvents(env, typing, property, y);
      }
    }
    LeastModelIsLeast(LogicSteps(said), typed);
  }

  // ---------- Conservativity ----------

  lemma SuitableIsPlain(prog: AuthLogic.Program, env: Environment)
    requires AllSuitable(prog, env)
    ensures IsPlain(prog)
  {
    hide IsRangeRestricted, HasConsistentTypes, AvoidsUniverseNames;
  }

  lemma PredicateTypesAreEvents(env: Environment, p: Predicate, v: string, t: ArgumentType)
    requires !IsNumericOperator(p.name) && ArgumentHasType(env, p, v, t)
    ensures Typed(v, t) in PredicateEvents(env, p)
  {
    var i :| 0 <= i < |p.args| && i < |env[p.name].arguments| && p.args[i] == v && env[p.name].arguments[i].argumentType == t;
    assert PredicateEvents(env, p)[i] == Typed(v, t);
  }

  /** The type of a head variable is that of one of its occurrences. */
  lemma TypesAreEvents(env: Environment, h: BaseFact, v: string, t: ArgumentType)
    requires !IsNumericOperator(RelationOf(h)) && HasType(env, h, v, t)
    ensures Typed(v, t) in BaseEvents(env, h)
  {
    hide ArgumentHasType, PredicateEvents;
    match h
    case PredicateFact(p) => PredicateTypesAreEvents(env, p, v, t);
    case AttributeFact(prin, p) =>
      InConcat(PrincipalEvents([prin]), PredicateEvents(env, p), Typed(v, t));
      if ArgumentHasType(env, p, v, t) {
        PredicateTypesAreEvents(env, p, v, t);
      } else {
        assert PrincipalEvents([prin])[0] == Typed(v, t);
      }
    case CanActAs(l, r) =>
      assert BaseEvents(env, h)[0] == Typed(l, PrincipalType) && BaseEvents(env, h)[1] == Typed(r, PrincipalType);
  }

  /** An instance with a well-typed head is a typed instance. */
  lemma TypedHeadIsTypedInstance(env: Environment, typing: Typing, s: Spoken, sigma: Substitution)
    requires !IsNumericOperator(RelationOf(s.assertion.Head().base))
    requires IsTypedBelief(env, typing, GroundFact(sigma, s.speaker, s.assertion.Head()))
    ensures IsTypedInstance(env, typing, s.assertion.Head().base, sigma)
  {
    hide BaseEvents, HasType;
    var h := s.assertion.Head().base;
    forall v, t | HasType(env, h, v, t)
      ensures IsMember(typing, Value(sigma, v), t)
    {
      TypesAreEvents(env, h, v, t);
      ConditionTypes(env, typing, sigma, h, v, t);
    }
  }

  /** In a suitable program everything believed follows from typed instances. */
  lemma AllBeliefsAreTypedBeliefs(prog: AuthLogic.Program, env: Environment, typing: Typing)
    requires Run(map[], ProgramEvents(env, prog)) == Passed(typing) && AllSuitable(prog, env)
    ensures Beliefs(AllSpoken(prog.saysAssertions)) == TypedBeliefs(AllSpoken(prog.saysAssertions), env, typing)
  {
    hide Run, ProgramEvents, IsTypedBelief, IsTypedInstance, IsRangeRestricted, HasConsistentTypes;
    var said := AllSpoken(prog.saysAssertions);
    var typed := TypedBeliefs(said, env, typing);
    TypedBeliefsAreBeliefs(said, env, typing);
    forall step | step in LogicSteps(said) && AllIn(step.body, LeastModel(LogicSteps(said))) && AllIn(step.body, typed)
      ensures step.head in typed
    {
      var reason :| Admits(said, reason) && step == StepFor(reason);
      Conclude(said, reason);
      if reason.ByAssertion? {
        BeliefsAreTyped(prog, env, typing, step.head);
        TypedHeadIsTypedInstance(env, typing, reason.said, reason.sigma);
      }
      ConcludeTyped(said, env, typing, reason);
    }
    Induction(LogicSteps(said), typed);
  }

  /**
   Universe insertion is conservative for range-restricted programs: over
   relations that are not universe relations, the program believes the same
   before and after.
   */
  lemma UniverseInsertionIsConservative(prog: AuthLogic.Program, env: Environment, typing: Typing,
                                        out: AuthLogic.Program, b: Belief)
    requires IsInsertion(prog, env, typing, out) && AllSuitable(prog, env)
    requires !IsUniverseName(prog.declarations, RelationOfClaim(b.claim))
    ensures b in Beliefs(AllSpoken(prog.saysAssertions)) <==> b in Beliefs(AllSpoken(out.saysAssertions))
  {
    SuitableIsPlain(prog, env);
    UniverseInsertionIsExact(prog, env, typing, out, b);
    AllBeliefsAreTypedBeliefs(prog, env, typing);
  }

  // ---------- What is lost otherwise ----------

  function ClaimArguments(c: Claim): seq<Const> {
    match c
    case PredicateClaim(_, args) => args
    case AttributeClaim(_, _, args) => args
    case ActAsClaim(_, _) => []
  }

  function Arguments(b: BaseFact): seq<string> {
    if b.CanActAs? then [] else b.pred.args
  }

  ghost predicate IsKnown(typing: Typing, c: Claim) {
    forall x :: x in ClaimArguments(c) ==> x in typing
  }

  /** An argument of a typed instance is a constant of the program. */
  lemma InstanceIsKnown(prog: AuthLogic.Program, env: Environment, typing: Typing, s: Spoken, sigma: Substitution, i: nat)
    requires Run(map[], ProgramEvents(env, prog)) == Passed(typing) && s in AllSpoken(prog.saysAssertions)
    requires HeadIsDeclared(env, s.assertion.Head().base) && IsTypedInstance(env, typing, s.assertion.Head().base, sigma)
    requires i < |Arguments(s.assertion.Head().base)|
    ensures Value(sigma, Arguments(s.assertion.Head().base)[i]) in typing
  {
    hide Run, ProgramEvents;
    var h := s.assertion.Head().base;
    var v := h.pred.args[i];
    var own := PredicateEvents(env, h.pred);
    if IsNameConstant(v) {
      assert own[i] in own;
      if h.AttributeFact? {
        InConcat(PrincipalEvents([h.principal]), own, own[i]);
      }
      OccurrenceIsTyped(prog, env, typing, s, own[i]);
    } else {
      assert ArgumentHasType(env, h.pred, v, env[h.pred.name].arguments[i].argumentType);
      assert HasType(env, h, v, env[h.pred.name].arguments[i].argumentType);
    }
  }

  /** Beliefs that follow from typed instances are about constants of the program. */
  lemma TypedBeliefsAreKnown(prog: AuthLogic.Program, env: Environment, typing: Typing, out: AuthLogic.Program, b: Belief)
    requires IsInsertion(prog, env, typing, out) && b in TypedBeliefs(AllSpoken(prog.saysAssertions), env, typing)
    ensures IsKnown(typing, b.claim)
  {
    hide Run, ProgramEvents, IsTypedInstance, HeadIsDeclared, IsInsertion;
    var said := AllSpoken(prog.saysAssertions);
    var known := iset x: Belief | IsKnown(typing, x.claim);
    forall step | step in TypedSteps(said, env, typing) && AllIn(step.body, known)
      ensures step.head in known
    {
      var reason :| Admits(said, reason) && step == StepFor(reason) &&
        (reason.ByAssertion? ==> IsTypedInstance(env, typing, reason.said.assertion.Head().base, reason.sigma));
      match reason {
        case ByAssertion(s, sigma) =>
          HeadIsKnown(prog, env, typing, out, s, sigma);
        case ByDelegation(_, _, _, _) => assert step.body[0] in known;
        case ByActingAs(_, _, _) => assert step.body[1] in known;
      }
    }
    LeastModelIsLeast(TypedSteps(said, env, typing), known);
  }

  lemma HeadIsKnown(prog: AuthLogic.Program, env: Environment, typing: Typing, out: AuthLogic.Program, s: Spoken, sigma: Substitution)
    requires IsInsertion(prog, env, typing, out) && s in AllSpoken(prog.saysAssertions)
    requires IsTypedInstance(env, typing, s.assertion.Head().base, sigma)
    ensures IsKnown(typing, GroundBase(sigma, s.assertion.Head().base))
  {
    DeclaredHead(prog, env, typing, out, s);
    var h := s.assertion.Head().base;
    var args := ClaimArguments(GroundBase(sigma, h));
    forall x | x in args
      ensures x in typing
    {
      var i := IndexOf(args, x);
      InstanceIsKnown(prog, env, typing, s, sigma, i);
    }
  }

  lemma FreshConstant(typing: Typing) returns (c: Const)
    ensures c !in typing
  {
    var n := FreshNumber((set x | x in typing :: |x|) + {0, 1});
    c := "\"" + seq(n - 2, i => 'a') + "\"";
  }

  /**
   A fact with a variable among its arguments says something about every
   constant, also about those the program does not mention; insertion takes
   that away, so it is not conservative for any such program.
   */
  lemma UnguardedVariablesAreRestricted(prog: AuthLogic.Program, env: Environment, typing: Typing, out: AuthLogic.Program,
                                        s: Spoken, i: nat)
    returns (b: Belief)
    requires IsInsertion(prog, env, typing, out) && IsPlain(prog)
    requires s in AllSpoken(prog.saysAssertions) && s.assertion.Body() == []
    requires i < |Arguments(s.assertion.Head().base)| && !IsNameConstant(Arguments(s.assertion.Head().base)[i])
    ensures !IsUniverseName(prog.declarations, RelationOfClaim(b.claim))
    ensures b in Beliefs(AllSpoken(prog.saysAssertions)) && b !in Beliefs(AllSpoken(out.saysAssertions))
  {
    hide IsInsertion, IsUniverseName, Beliefs, TypedBeliefs;
    var c := FreshConstant(typing);
    var sigma: Substitution := v => c;
    var h := s.assertion.Head().base;
    b := GroundFact(sigma, s.speaker, s.assertion.Head());
    assert ClaimArguments(b.claim)[i] == c;
    assert RelationOfClaim(b.claim) == RelationOf(h);
    Conclude(AllSpoken(prog.saysAssertions), ByAssertion(s, sigma));
    UniverseInsertionIsExact(prog, env, typing, out, b);
    if b in TypedBeliefs(AllSpoken(prog.saysAssertions), env, typing) {
      TypedBeliefsAreKnown(prog, env, typing, out, b);
    }
  }
}
