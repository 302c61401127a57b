/**
 The types of constants, read off from where they are used: the type
 environment of a program is exactly the table of these uses, and inserting
 universe relations does not change it.
 */
module TypeUses {
  import opened Names
  import opened Seqs
  import opened Checks
  import opened Datalog
  import opened AuthLogic
  import opened Universe
  import opened UniverseCorrect

  // ---------- Uses ----------

  /** Operands of comparisons are numbers; other arguments have the type of their position. */
  ghost predicate PredicateUses(env: Environment, p: Predicate, c: string, t: ArgumentType) {
    if p.name in {"<", ">", "=", "!=", "<=", ">="} then c in p.args && t == NumberType
    else ArgumentHasType(env, p, c, t)
  }

  ghost predicate BaseUses(env: Environment, b: BaseFact, c: string, t: ArgumentType) {
    match b
    case PredicateFact(p) => PredicateUses(env, p, c, t)
    case AttributeFact(prin, p) => (c == prin && t == PrincipalType) || PredicateUses(env, p, c, t)
    case CanActAs(l, r) => c in {l, r} && t == PrincipalType
  }

  ghost predicate FactUses(env: Environment, f: Fact, c: string, t: ArgumentType) {
    (c in f.delegationChain && t == PrincipalType) || BaseUses(env, f.base, c, t)
  }

  ghost predicate AssertionUses(env: Environment, a: Assertion, c: string, t: ArgumentType) {
    FactUses(env, a.Head(), c, t) || exists b :: b in a.Body() && BaseUses(env, b, c, t)
  }

  ghost predicate SaysUses(env: Environment, s: SaysAssertion, c: string, t: ArgumentType) {
    (c == s.principal && t == PrincipalType) || exists a :: a in s.assertions && AssertionUses(env, a, c, t)
  }

  ghost predicate QueryUses(env: Environment, q: Query, c: string, t: ArgumentType) {
    (c == q.principal && t == PrincipalType) || FactUses(env, q.fact, c, t)
  }

  /** Somewhere in the program, `c` is used at type `t`. */
  ghost predicate Uses(env: Environment, prog: AuthLogic.Program, c: string, t: ArgumentType) {
    (exists s :: s in prog.saysAssertions && SaysUses(env, s, c, t)) ||
    exists q :: q in prog.queries && QueryUses(env, q, c, t)
  }

  // ---------- Typing events are uses ----------

  lemma PredicateEventsAreUses(env: Environment, p: Predicate, c: string, t: ArgumentType)
    ensures Typed(c, t) in PredicateEvents(env, p) <==> PredicateUses(env, p, c, t)
  {
    var events := PredicateEvents(env, p);
    if IsNumericOperator(p.name) {
      if c in p.args && t == NumberType {
        var i := IndexOf(p.args, c);
        assert events[i] == Typed(c, t);
      }
    } else if i :| 0 <= i < |p.args| && p.name in env && i < |env[p.name].arguments| && p.args[i] == c &&
                   env[p.name].arguments[i].argumentType == t {
      assert events[i] == Typed(c, t);
    }
  }

  lemma PrincipalEventsAreUses(names: seq<string>, c: string, t: ArgumentType)
    ensures Typed(c, t) in PrincipalEvents(names) <==> c in names && t == PrincipalType
  {
    if c in names && t == PrincipalType {
      var i := IndexOf(names, c);
      assert PrincipalEvents(names)[i] == Typed(c, t);
    }
  }

  lemma BaseEventsAreUses(env: Environment, b: BaseFact, c: string, t: ArgumentType)
    ensures Typed(c, t) in BaseEvents(env, b) <==> BaseUses(env, b, c, t)
  {
    hide PredicateEvents, PrincipalEvents, PredicateUses;
    match b
    case PredicateFact(p) => PredicateEventsAreUses(env, p, c, t);
    case AttributeFact(prin, p) =>
      PredicateEventsAreUses(env, p, c, t);
      PrincipalEventsAreUses([prin], c, t);
      InConcat(PrincipalEvents([prin]), PredicateEvents(env, p), Typed(c, t));
    case CanActAs(l, r) =>
      PrincipalEventsAreUses([l, r], c, t);
  }

  lemma FactEventsAreUses(env: Environment, f: Fact, c: string, t: ArgumentType)
    ensures Typed(c, t) in FactEvents(env, f) <==> FactUses(env, f, c, t)
  {
    hide BaseEvents, PrincipalEvents, BaseUses;
    BaseEventsAreUses(env, f.base, c, t);
    PrincipalEventsAreUses(f.delegationChain, c, t);
    InConcat(PrincipalEvents(f.delegationChain), BaseEvents(env, f.base), Typed(c, t));
  }

  lemma {:induction false} BodyEventsAreUses(env: Environment, body: seq<BaseFact>, c: string, t: ArgumentType)
    ensures Typed(c, t) in BodyEvents(env, body) <==> exists b :: b in body && BaseUses(env, b, c, t)
  {
    hide BaseEvents, BaseUses;
    if body != [] {
      var init, last := body[..|body| - 1], body[|body| - 1];
      BodyEventsAreUses(env, init, c, t);
      BaseEventsAreUses(env, last, c, t);
      InConcat(BodyEvents(env, init), BaseEvents(env, last), Typed(c, t));
      assert body == init + [last];
    }
  }

  lemma {:induction false} AssertionsEventsAreUses(env: Environment, assertions: seq<Assertion>, c: string, t: ArgumentType)
    ensures Typed(c, t) in AssertionsEvents(env, assertions) <==> exists a :: a in assertions && AssertionUses(env, a, c, t)
  {
    hide FactEvents, BodyEvents, FactUses, BaseUses;
    if assertions != [] {
      var init, last := assertions[..|assertions| - 1], assertions[|assertions| - 1];
      AssertionsEventsAreUses(env, init, c, t);
      FactEventsAreUses(env, last.Head(), c, t);
      BodyEventsAreUses(env, last.Body(), c, t);
      InConcat(FactEvents(env, last.Head()), BodyEvents(env, last.Body()), Typed(c, t));
      InConcat(AssertionsEvents(env, init), AssertionEvents(env, last), Typed(c, t));
      assert Typed(c, t) in AssertionEvents(env, last) <==> AssertionUses(env, last, c, t);
      assert assertions == init + [last];
    }
  }

  lemma {:induction false} SaysEventsAreUses(env: Environment, says: seq<SaysAssertion>, c: string, t: ArgumentType)
    ensures Typed(c, t) in SaysEvents(env, says) <==> exists s :: s in says && SaysUses(env, s, c, t)
  {
    hide AssertionsEvents, PrincipalEvents, AssertionUses;
    if says != [] {
      var init, last := says[..|says| - 1], says[|says| - 1];
      SaysEventsAreUses(env, init, c, t);
      PrincipalEventsAreUses([last.principal], c, t);
      AssertionsEventsAreUses(env, last.assertions, c, t);
      var own := PrincipalEvents([last.principal]) + AssertionsEvents(env, last.assertions);
      InConcat(PrincipalEvents([last.principal]), AssertionsEvents(env, last.assertions), Typed(c, t));
      InConcat(SaysEvents(env, init), own, Typed(c, t));
      assert Typed(c, t) in own <==> SaysUses(env, last, c, t);
      assert says == init + [last];
    }
  }

  lemma {:induction false} QueryEventsAreUses(env: Environment, qs: seq<Query>, c: string, t: ArgumentType)
    ensures Typed(c, t) in QueryEvents(env, qs) <==> exists q :: q in qs && QueryUses(env, q, c, t)
  {
    hide FactEvents, PrincipalEvents, FactUses;
    if qs != [] {
      var init, last := qs[..|qs| - 1], qs[|qs| - 1];
      QueryEventsAreUses(env, init, c, t);
      PrincipalEventsAreUses([last.principal], c, t);
      FactEventsAreUses(env, last.fact, c, t);
      var own := PrincipalEvents([last.principal]) + FactEvents(env, last.fact);
      InConcat(PrincipalEvents([last.principal]), FactEvents(env, last.fact), Typed(c, t));
      InConcat(QueryEvents(env, init), own, Typed(c, t));
      assert Typed(c, t) in own <==> QueryUses(env, last, c, t);
      assert qs == init + [last];
    }
  }

  lemma ProgramEventsAreUses(env: Environment, prog: AuthLogic.Program, c: string, t: ArgumentType)
    ensures Typed(c, t) in ProgramEvents(env, prog) <==> Uses(env, prog, c, t)
  {
    hide SaysEvents, QueryEvents, SaysUses, QueryUses;
    SaysEventsAreUses(env, prog.saysAssertions, c, t);
    QueryEventsAreUses(env, prog.queries, c, t);
    InConcat(SaysEvents(env, prog.saysAssertions), QueryEvents(env, prog.queries), Typed(c, t));
  }

  /** A table of types is that of a program exactly if it lists the uses of its constants. */
  lemma TypesAreUses(prog: AuthLogic.Program, env: Environment, typing: Typing, c: string, t: ArgumentType)
    requires Run(map[], ProgramEvents(env, prog)) == Passed(typing)
    ensures c in typing && typing[c] == t <==> IsNameConstant(c) && Uses(env, prog, c, t)
  {
    hide ProgramEvents, Uses, Run;
    RunTypesExactly(ProgramEvents(env, prog));
    ProgramEventsAreUses(env, prog, c, t);
    if c in typing {
      ProgramEventsAreUses(env, prog, c, typing[c]);
    }
  }

  // ---------- When typing fails ----------

  /** No constant is used at two types. */
  ghost predicate IsConsistent(env: Environment, prog: AuthLogic.Program) {
    forall c, t, t' :: IsNameConstant(c) && Uses(env, prog, c, t) && Uses(env, prog, c, t') ==> t == t'
  }

  ghost predicate AreConsistent(events: seq<Event>) {
    forall c, t, t' :: IsNameConstant(c) && Typed(c, t) in events && Typed(c, t') in events ==> t == t'
  }

  lemma {:induction false} RunPassesIff(events: seq<Event>)
    ensures Run(map[], events).Passed? <==> Abort !in events && AreConsistent(events)
  {
    if events != [] {
      var init, e := events[..|events| - 1], events[|events| - 1];
      RunPassesIff(init);
      assert events == init + [e];
      assert e in events;
      if Run(map[], init).Passed? {
        RunTypesExactly(init);
        var before := Run(map[], init).value;
        if e.Typed? && IsNameConstant(e.name) && e.name in before {
          assert Typed(e.name, before[e.name]) in events;
        }
      } else if Abort !in init {
        var c, t, t' :| IsNameConstant(c) && Typed(c, t) in init && Typed(c, t') in init && t != t';
        assert Typed(c, t) in events && Typed(c, t') in events;
      }
      if Run(map[], events).Passed? {
        RunTypesExactly(events);
      }
    }
  }

  ghost predicate PredicateAborts(env: Environment, p: Predicate) {
    !IsNumericOperator(p.name) && (p.name !in env || |p.args| > |env[p.name].arguments|)
  }

  ghost predicate BaseAborts(env: Environment, b: BaseFact) {
    !b.CanActAs? && PredicateAborts(env, b.pred)
  }

  /** A relation that is used is not declared, or not with so many arguments. */
  ghost predicate IsUndeclared(env: Environment, prog: AuthLogic.Program) {
    (exists s, a :: s in prog.saysAssertions && a in s.assertions && AssertionAborts(env, a)) ||
    exists q :: q in prog.queries && BaseAborts(env, q.fact.base)
  }

  ghost predicate AssertionAborts(env: Environment, a: Assertion) {
    BaseAborts(env, a.Head().base) || exists b :: b in a.Body() && BaseAborts(env, b)
  }

  lemma BaseAbortsIff(env: Environment, b: BaseFact)
    ensures Abort in BaseEvents(env, b) <==> BaseAborts(env, b)
  {
    if BaseAborts(env, b) {
      var p := b.pred;
      var own := PredicateEvents(env, p);
      if p.name in env {
        assert own[|env[p.name].arguments|] == Abort;
      }
      assert Abort in own;
    }
  }

  lemma {:induction false} BodyAbortsIff(env: Environment, body: seq<BaseFact>)
    ensures Abort in BodyEvents(env, body) <==> exists b :: b in body && BaseAborts(env, b)
  {
    hide BaseEvents, BaseAborts;
    if body != [] {
      var init, last := body[..|body| - 1], body[|body| - 1];
      BodyAbortsIff(env, init);
      BaseAbortsIff(env, last);
      InConcat(BodyEvents(env, init), BaseEvents(env, last), Abort);
      assert body == init + [last];
    }
  }

  lemma FactAbortsIff(env: Environment, f: Fact)
    ensures Abort in FactEvents(env, f) <==> BaseAborts(env, f.base)
  {
    hide BaseEvents, BaseAborts;
    BaseAbortsIff(env, f.base);
    InConcat(PrincipalEvents(f.delegationChain), BaseEvents(env, f.base), Abort);
  }

  lemma {:induction false} AssertionsAbortIff(env: Environment, assertions: seq<Assertion>)
    ensures Abort in AssertionsEvents(env, assertions) <==> exists a :: a in assertions && AssertionAborts(env, a)
  {
    hide FactEvents, BodyEvents, BaseAborts;
    if assertions != [] {
      var init, last := assertions[..|assertions| - 1], assertions[|assertions| - 1];
      AssertionsAbortIff(env, init);
      FactAbortsIff(env, last.Head());
      BodyAbortsIff(env, last.Body());
      InConcat(FactEvents(env, last.Head()), BodyEvents(env, last.Body()), Abort);
      InConcat(AssertionsEvents(env, init), AssertionEvents(env, last), Abort);
      assert Abort in AssertionEvents(env, last) <==> AssertionAborts(env, last);
      assert assertions == init + [last];
    }
  }

  lemma {:induction false} SaysAbortIff(env: Environment, says: seq<SaysAssertion>)
    ensures Abort in SaysEvents(env, says) <==> exists s, a :: s in says && a in s.assertions && AssertionAborts(env, a)
  {
    hide AssertionsEvents, AssertionAborts;
    if says != [] {
      var init, last := says[..|says| - 1], says[|says| - 1];
      SaysAbortIff(env, init);
      AssertionsAbortIff(env, last.assertions);
      var own := PrincipalEvents([last.principal]) + AssertionsEvents(env, last.assertions);
      InConcat(PrincipalEvents([last.principal]), AssertionsEvents(env, last.assertions), Abort);
      InConcat(SaysEvents(env, init), own, Abort);
      assert says == init + [last];
    }
  }

  lemma {:induction false} QueriesAbortIff(env: Environment, qs: seq<Query>)
    ensures Abort in QueryEvents(env, qs) <==> exists q :: q in qs && BaseAborts(env, q.fact.base)
  {
    hide FactEvents, BaseAborts;
    if qs != [] {
      var init, last := qs[..|qs| - 1], qs[|qs| - 1];
      QueriesAbortIff(env, init);
      FactAbortsIff(env, last.fact);
      var own := PrincipalEvents([last.principal]) + FactEvents(env, last.fact);
      InConcat(PrincipalEvents([last.principal]), FactEvents(env, last.fact), Abort);
      InConcat(QueryEvents(env, init), own, Abort);
      assert qs == init + [last];
    }
  }

  /** Typing fails exactly for a use of a relation that is not declared like that, or a constant used at two types. */
  lemma TypingPassesIff(prog: AuthLogic.Program, env: Environment)
    ensures Run(map[], ProgramEvents(env, prog)).Passed? <==> !IsUndeclared(env, prog) && IsConsistent(env, prog)
  {
    hide SaysEvents, QueryEvents, AssertionAborts, BaseAborts, Uses, Run;
    var events := ProgramEvents(env, prog);
    RunPassesIff(events);
    SaysAbortIff(env, prog.saysAssertions);
    QueriesAbortIff(env, prog.queries);
    InConcat(SaysEvents(env, prog.saysAssertions), QueryEvents(env, prog.queries), Abort);
    forall c, t
      ensures Typed(c, t) in events <==> Uses(env, prog, c, t)
    {
      ProgramEventsAreUses(env, prog, c, t);
    }
  }

  // ---------- Types after insertion ----------

  ghost predicate ExtendsEnvironment(env: Environment, env': Environment) {
    forall n :: n in env ==> n in env' && env'[n] == env[n]
  }

  lemma EnvironmentGrows(prog: AuthLogic.Program, env: Environment, typing: Typing, out: AuthLogic.Program, env': Environment)
    requires IsInsertion(prog, env, typing, out) && Declares(out.declarations, env')
    ensures ExtendsEnvironment(env, env')
    ensures forall t :: TypeOccurs(prog.declarations, t) ==>
      UniverseName(t) in env' && env'[UniverseName(t)] == UniverseDeclaration(t)
  {
    hide Run, ProgramEvents, SaysIsDeclared, IsUniverseAssertion, ConditionedSays, TypeOccurs, UniverseDeclaration;
    var ds, ds' := prog.declarations, out.declarations;
    forall n | n in env
      ensures n in env' && env'[n] == env[n]
    {
      var i := IndexOf(ds, env[n]);
      assert ds'[i] == ds[i];
    }
    forall t | TypeOccurs(ds, t)
      ensures UniverseName(t) in env' && env'[UniverseName(t)] == UniverseDeclaration(t)
    {
      var j := IndexOf(ds'[|ds|..], UniverseDeclaration(t));
      assert ds'[|ds| + j] == UniverseDeclaration(t);
      DeclarationHasItsName(t);
    }
  }

  lemma DeclarationHasItsName(t: ArgumentType)
    ensures UniverseDeclaration(t).name == UniverseName(t)
  {
  }

  lemma DeclaredBaseStays(env: Environment, env': Environment, b: BaseFact)
    requires ExtendsEnvironment(env, env') && !BaseAborts(env, b)
    ensures !BaseAborts(env', b)
    ensures forall c, t :: BaseUses(env', b, c, t) <==> BaseUses(env, b, c, t)
  {
  }

  /** A membership fact uses its element at the type of the universe. */
  lemma MembershipUses(env': Environment, v: string, type': ArgumentType)
    requires UniverseName(type') in env' && env'[UniverseName(type')] == UniverseDeclaration(type')
    ensures !BaseAborts(env', MembershipFact(v, type'))
    ensures forall c, t :: BaseUses(env', MembershipFact(v, type'), c, t) <==> c == v && t == type'
  {
    var p := MembershipFact(v, type').pred;
    assert p.name[0] == 'i';
    assert p.args[0] == v && env'[p.name].arguments[0].argumentType == type';
  }

  lemma ConditionedUses(prog: AuthLogic.Program, env: Environment, env': Environment, a: Assertion, c: string, t: ArgumentType)
    requires Declares(prog.declarations, env) && ExtendsEnvironment(env, env') && !AssertionAborts(env, a)
    requires forall u :: TypeOccurs(prog.declarations, u) ==> UniverseName(u) in env' && env'[UniverseName(u)] == UniverseDeclaration(u)
    ensures !AssertionAborts(env', Conditioned(env, a))
    ensures IsNameConstant(c) ==> (AssertionUses(env', Conditioned(env, a), c, t) <==> AssertionUses(env, a, c, t))
  {
    hide Declares, Conditions, Conditioned, BaseAborts, BaseUses, HasType, UniverseDeclaration, TypeOccurs, ExtendsEnvironment;
    ConditionedKeepsHead(env, a);
    var h := a.Head().base;
    DeclaredBaseStays(env, env', h);
    var conditions, body := Conditions(env, h), Conditioned(env, a).Body();
    forall b | b in body
      ensures !BaseAborts(env', b)
      ensures b in a.Body() ==> (BaseUses(env', b, c, t) <==> BaseUses(env, b, c, t))
      ensures IsNameConstant(c) && BaseUses(env', b, c, t) ==> b in a.Body()
    {
      InConcat(conditions, a.Body(), b);
      if b in a.Body() {
        DeclaredBaseStays(env, env', b);
      } else {
        ConditionsAreTypes(env, h, b);
        var v, u :| HasType(env, h, v, u) && b == MembershipFact(v, u);
        HeadTypesOccur(prog.declarations, env, h, v, u);
        MembershipUses(env', v, u);
        VariableHasType(env, h, v, u);
      }
    }
    forall b | b in a.Body()
      ensures b in body
    {
      InConcat(conditions, a.Body(), b);
    }
  }

  lemma VariableHasType(env: Environment, h: BaseFact, v: string, t: ArgumentType)
    requires HasType(env, h, v, t)
    ensures !IsNameConstant(v)
  {
  }

  lemma UniverseAssertionUses(prog: AuthLogic.Program, env: Environment, typing: Typing, env': Environment,
                              s: SaysAssertion, c: string, t: ArgumentType)
    requires Declares(prog.declarations, env) && Run(map[], ProgramEvents(env, prog)) == Passed(typing)
    requires forall u :: TypeOccurs(prog.declarations, u) ==> UniverseName(u) in env' && env'[UniverseName(u)] == UniverseDeclaration(u)
    requires IsUniverseAssertion(typing, s)
    ensures forall a :: a in s.assertions ==> !AssertionAborts(env', a)
    ensures SaysUses(env', s, c, t) ==> c in typing && typing[c] == t
  {
    hide ProgramEvents, Run, MembershipFact, BaseAborts, BaseUses, TypeOccurs, UniverseDeclaration;
    var prin, x :| prin in typing && typing[prin] == PrincipalType && x in typing && s == UniverseAssertion(prin, x, typing[x]);
    ConstantTypesOccur(prog, env, typing, x);
    MembershipUses(env', x, typing[x]);
    assert s.assertions == [FactAssertion(Fact([], MembershipFact(x, typing[x])))];
  }

  lemma NothingAborts(prog: AuthLogic.Program, env: Environment, typing: Typing)
    requires Run(map[], ProgramEvents(env, prog)) == Passed(typing)
    ensures forall s, a :: s in prog.saysAssertions && a in s.assertions ==> !AssertionAborts(env, a)
    ensures forall q :: q in prog.queries ==> !BaseAborts(env, q.fact.base)
  {
    hide AssertionAborts, BaseAborts, Run, ProgramEvents;
    TypingPassesIff(prog, env);
  }

  lemma ConditionedSaysUses(prog: AuthLogic.Program, env: Environment, env': Environment, s: SaysAssertion, c: string, t: ArgumentType)
    requires Declares(prog.declarations, env) && ExtendsEnvironment(env, env')
    requires forall u :: TypeOccurs(prog.declarations, u) ==> UniverseName(u) in env' && env'[UniverseName(u)] == UniverseDeclaration(u)
    requires forall a :: a in s.assertions ==> !AssertionAborts(env, a)
    ensures forall a :: a in ConditionedSays(env, s).assertions ==> !AssertionAborts(env', a)
    ensures IsNameConstant(c) ==> (SaysUses(env', ConditionedSays(env, s), c, t) <==> SaysUses(env, s, c, t))
  {
    hide Declares, ExtendsEnvironment, TypeOccurs, AssertionAborts, AssertionUses, Conditioned, UniverseDeclaration;
    var s' := ConditionedSays(env, s);
    forall i | 0 <= i < |s.assertions|
      ensures s'.assertions[i] == Conditioned(env, s.assertions[i])
      ensures !AssertionAborts(env', s'.assertions[i])
      ensures IsNameConstant(c) ==> (AssertionUses(env', s'.assertions[i], c, t) <==> AssertionUses(env, s.assertions[i], c, t))
    {
      assert s.assertions[i] in s.assertions;
      ConditionedUses(prog, env, env', s.assertions[i], c, t);
    }
    if a :| a in s.assertions && AssertionUses(env, a, c, t) {
      var i := IndexOf(s.assertions, a);
      assert s'.assertions[i] in s'.assertions;
    }
  }

  lemma QueryStays(env: Environment, env': Environment, q: Query, c: string, t: ArgumentType)
    requires ExtendsEnvironment(env, env') && !BaseAborts(env, q.fact.base)
    ensures !BaseAborts(env', q.fact.base) && (QueryUses(env', q, c, t) <==> QueryUses(env, q, c, t))
  {
    hide BaseAborts, BaseUses, ExtendsEnvironment;
    DeclaredBaseStays(env, env', q.fact.base);
  }

  /** The parts of an insertion that matter for types. */
  lemma InsertionParts(prog: AuthLogic.Program, env: Environment, typing: Typing, out: AuthLogic.Program)
    requires IsInsertion(prog, env, typing, out)
    ensures Declares(prog.declarations, env) && Run(map[], ProgramEvents(env, prog)) == Passed(typing)
    ensures out.queries == prog.queries && |out.saysAssertions| >= |prog.saysAssertions|
    ensures
      var added := |out.saysAssertions| - |prog.saysAssertions|;
      (forall i :: 0 <= i < added ==> IsUniverseAssertion(typing, out.saysAssertions[i])) &&
      forall i :: 0 <= i < |prog.saysAssertions| ==> out.saysAssertions[added + i] == ConditionedSays(env, prog.saysAssertions[i])
  {
    hide Run, ProgramEvents, SaysIsDeclared, AreUniverseDeclarations, Declares, IsUniverseAssertion, ConditionedSays;
    var added := |out.saysAssertions| - |prog.saysAssertions|;
    forall i | 0 <= i < added
      ensures IsUniverseAssertion(typing, out.saysAssertions[i])
    {
      assert out.saysAssertions[..added][i] in out.saysAssertions[..added];
    }
    forall i | 0 <= i < |prog.saysAssertions|
      ensures out.saysAssertions[added + i] == ConditionedSays(env, prog.saysAssertions[i])
    {
      assert out.saysAssertions[added..][i] == out.saysAssertions[added + i];
    }
  }

  lemma InsertedSaysUses(prog: AuthLogic.Program, env: Environment, typing: Typing, out: AuthLogic.Program, env': Environment,
                         i: nat, c: string, t: ArgumentType)
    requires IsInsertion(prog, env, typing, out) && Declares(out.declarations, env') && i < |out.saysAssertions|
    ensures |out.saysAssertions| >= |prog.saysAssertions|
    ensures forall a :: a in out.saysAssertions[i].assertions ==> !AssertionAborts(env', a)
    ensures
      var added := |out.saysAssertions| - |prog.saysAssertions|;
      if i < added then SaysUses(env', out.saysAssertions[i], c, t) ==> c in typing && typing[c] == t
      else IsNameConstant(c) ==>
        (SaysUses(env', out.saysAssertions[i], c, t) <==> SaysUses(env, prog.saysAssertions[i - added], c, t))
  {
    hide IsInsertion, Declares, Run, ProgramEvents, TypeOccurs, SaysUses, AssertionAborts, IsUniverseAssertion, ConditionedSays,
      UniverseDeclaration, ExtendsEnvironment;
    InsertionParts(prog, env, typing, out);
    EnvironmentGrows(prog, env, typing, out, env');
    NothingAborts(prog, env, typing);
    var added := |out.saysAssertions| - |prog.saysAssertions|;
    if i < added {
      UniverseAssertionUses(prog, env, typing, env', out.saysAssertions[i], c, t);
    } else {
      assert prog.saysAssertions[i - added] in prog.saysAssertions;
      assert out.saysAssertions[added + (i - added)] == ConditionedSays(env, prog.saysAssertions[i - added]);
      ConditionedSaysUses(prog, env, env', prog.saysAssertions[i - added], c, t);
    }
  }

  lemma InsertedQueryUses(prog: AuthLogic.Program, env: Environment, typing: Typing, out: AuthLogic.Program, env': Environment,
                          q: Query, c: string, t: ArgumentType)
    requires IsInsertion(prog, env, typing, out) && Declares(out.declarations, env') && q in prog.queries
    ensures !BaseAborts(env', q.fact.base) && (QueryUses(env', q, c, t) <==> QueryUses(env, q, c, t))
  {
    hide IsInsertion, Declares, Run, ProgramEvents, QueryUses, BaseAborts, UniverseDeclaration, TypeOccurs, ExtendsEnvironment;
    InsertionParts(prog, env, typing, out);
    EnvironmentGrows(prog, env, typing, out, env');
    NothingAborts(prog, env, typing);
    QueryStays(env, env', q, c, t);
  }

  /** Constants are used as before. */
  lemma InsertedUses(prog: AuthLogic.Program, env: Environment, typing: Typing, out: AuthLogic.Program, env': Environment,
                     c: string, t: ArgumentType)
    requires IsInsertion(prog, env, typing, out) && Declares(out.declarations, env') && IsNameConstant(c)
    ensures Uses(env', out, c, t) <==> Uses(env, prog, c, t)
  {
    hide IsInsertion, Declares, Run, ProgramEvents, SaysUses, QueryUses, AssertionAborts, BaseAborts, IsUniverseAssertion, ConditionedSays;
    InsertionParts(prog, env, typing, out);
    var added := |out.saysAssertions| - |prog.saysAssertions|;
    forall q | q in prog.queries
      ensures QueryUses(env', q, c, t) <==> QueryUses(env, q, c, t)
    {
      InsertedQueryUses(prog, env, typing, out, env', q, c, t);
    }
    if s :| s in out.saysAssertions && SaysUses(env', s, c, t) {
      var i := IndexOf(out.saysAssertions, s);
      InsertedSaysUses(prog, env, typing, out, env', i, c, t);
      if i < added {
        hide Uses;
        TypesAreUses(prog, env, typing, c, t);
      } else {
        assert prog.saysAssertions[i - added] in prog.saysAssertions;
      }
    }
    if s :| s in prog.saysAssertions && SaysUses(env, s, c, t) {
      var i := IndexOf(prog.saysAssertions, s);
      InsertedSaysUses(prog, env, typing, out, env', added + i, c, t);
      assert out.saysAssertions[added + i] in out.saysAssertions;
    }
  }

  lemma InsertedIsDeclared(prog: AuthLogic.Program, env: Environment, typing: Typing, out: AuthLogic.Program, env': Environment)
    requires IsInsertion(prog, env, typing, out) && Declares(out.declarations, env')
    ensures !IsUndeclared(env', out)
  {
    hide IsInsertion, Declares, Run, ProgramEvents, SaysUses, QueryUses, AssertionAborts, BaseAborts, IsUniverseAssertion, ConditionedSays;
    InsertionParts(prog, env, typing, out);
    forall s, a | s in out.saysAssertions && a in s.assertions
      ensures !AssertionAborts(env', a)
    {
      var i := IndexOf(out.saysAssertions, s);
      InsertedSaysUses(prog, env, typing, out, env', i, "", PrincipalType);
    }
    forall q | q in out.queries
      ensures !BaseAborts(env', q.fact.base)
    {
      InsertedQueryUses(prog, env, typing, out, env', q, "", PrincipalType);
    }
  }

  /**
   The transformed program type checks, with the same types for the same
   constants: universe relations are used at the types they are declared with.
   */
  lemma InsertionStaysTyped(prog: AuthLogic.Program, env: Environment, typing: Typing, out: AuthLogic.Program, env': Environment)
    requires IsInsertion(prog, env, typing, out) && Declares(out.declarations, env')
    ensures Run(map[], ProgramEvents(env', out)) == Passed(typing)
  {
    hide IsInsertion, Declares, Run, ProgramEvents, Uses, IsUndeclared;
    InsertionParts(prog, env, typing, out);
    forall c, t | IsNameConstant(c)
      ensures Uses(env', out, c, t) <==> Uses(env, prog, c, t)
    {
      InsertedUses(prog, env, typing, out, env', c, t);
    }
    InsertedIsDeclared(prog, env, typing, out, env');
    TypingPassesIff(prog, env);
    TypingPassesIff(out, env');
    assert IsConsistent(env', out);
    var typing' := Run(map[], ProgramEvents(env', out)).value;
    forall c
      ensures c in typing <==> c in typing'
      ensures c in typing ==> typing[c] == typing'[c]
    {
      if c in typing {
        TypesAreUses(prog, env, typing, c, typing[c]);
        TypesAreUses(out, env', typing', c, typing[c]);
      }
      if c in typing' {
        TypesAreUses(out, env', typing', c, typing'[c]);
        TypesAreUses(prog, env, typing, c, typing'[c]);
      }
    }
    assert typing' == typing;
  }
}
