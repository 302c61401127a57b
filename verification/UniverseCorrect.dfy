/**
 What the universe relations do to the meaning of a program: the variables of
 an assertion's head range over the constants of their types, and nothing
 else changes.
 */
module UniverseCorrect {
  import opened Names
  import opened Seqs
  import opened Checks
  import opened Inference
  import opened Datalog
  import opened AuthLogic
  import opened Universe

  // ---------- Assertions of a program, one by one ----------

  ghost predicate Speaks(says: seq<SaysAssertion>, s: Spoken) {
    exists i :: 0 <= i < |says| && says[i].principal == s.speaker && s.assertion in says[i].assertions
  }

  lemma {:induction false} InAllSpoken(says: seq<SaysAssertion>, s: Spoken)
    ensures s in AllSpoken(says) <==> Speaks(says, s)
  {
    if says != [] {
      var init, last := says[..|says| - 1], says[|says| - 1];
      InAllSpoken(init, s);
      InConcat(AllSpoken(init), SpokenIn(last), s);
      assert s in SpokenIn(last) <==> last.principal == s.speaker && s.assertion in last.assertions by {
        if s.assertion in last.assertions && last.principal == s.speaker {
          var j := IndexOf(last.assertions, s.assertion);
          assert SpokenIn(last)[j] == s;
        }
      }
      if Speaks(init, s) {
        var i :| 0 <= i < |init| && init[i].principal == s.speaker && s.assertion in init[i].assertions;
        assert says[i] == init[i];
      }
    }
  }

  ghost predicate IsUniverseSpoken(typing: Typing, s: Spoken) {
    exists c :: s.speaker in typing && typing[s.speaker] == PrincipalType && c in typing &&
      s.assertion == FactAssertion(Fact([], MembershipFact(c, typing[c])))
  }

  ghost predicate IsConditionedSpoken(prog: AuthLogic.Program, env: Environment, s: Spoken) {
    exists a :: Spoken(s.speaker, a) in AllSpoken(prog.saysAssertions) && s.assertion == Conditioned(env, a)
  }

  lemma UniverseSpeaks(typing: Typing, says: seq<SaysAssertion>, s: Spoken)
    requires forall x :: x in says <==> IsUniverseAssertion(typing, x)
    ensures Speaks(says, s) <==> IsUniverseSpoken(typing, s)
  {
    if Speaks(says, s) {
      var i :| 0 <= i < |says| && says[i].principal == s.speaker && s.assertion in says[i].assertions;
      assert says[i] in says;
      var prin, c :| prin in typing && typing[prin] == PrincipalType && c in typing && says[i] == UniverseAssertion(prin, c, typing[c]);
    }
    if IsUniverseSpoken(typing, s) {
      var c :| s.speaker in typing && typing[s.speaker] == PrincipalType && c in typing &&
        s.assertion == FactAssertion(Fact([], MembershipFact(c, typing[c])));
      var x := UniverseAssertion(s.speaker, c, typing[c]);
      assert IsUniverseAssertion(typing, x);
      var i := IndexOf(says, x);
    }
  }

  lemma ConditionedSpeaks(prog: AuthLogic.Program, env: Environment, says: seq<SaysAssertion>, s: Spoken)
    requires |says| == |prog.saysAssertions|
    requires forall i :: 0 <= i < |says| ==> says[i] == ConditionedSays(env, prog.saysAssertions[i])
    ensures Speaks(says, s) <==> IsConditionedSpoken(prog, env, s)
  {
    if Speaks(says, s) {
      var i :| 0 <= i < |says| && says[i].principal == s.speaker && s.assertion in says[i].assertions;
      var j := IndexOf(says[i].assertions, s.assertion);
      var a := prog.saysAssertions[i].assertions[j];
      assert Speaks(prog.saysAssertions, Spoken(s.speaker, a));
      InAllSpoken(prog.saysAssertions, Spoken(s.speaker, a));
    }
    if IsConditionedSpoken(prog, env, s) {
      var a :| Spoken(s.speaker, a) in AllSpoken(prog.saysAssertions) && s.assertion == Conditioned(env, a);
      InAllSpoken(prog.saysAssertions, Spoken(s.speaker, a));
      var i :| 0 <= i < |says| && prog.saysAssertions[i].principal == s.speaker && a in prog.saysAssertions[i].assertions;
      var j := IndexOf(prog.saysAssertions[i].assertions, a);
      assert says[i].assertions[j] == s.assertion;
    }
  }

  /** The assertions of the new program: universe facts and the old assertions with conditions. */
  lemma InsertedSpoken(prog: AuthLogic.Program, env: Environment, typing: Typing, out: AuthLogic.Program, s: Spoken)
    requires IsInsertion(prog, env, typing, out)
    ensures s in AllSpoken(out.saysAssertions) <==> IsUniverseSpoken(typing, s) || IsConditionedSpoken(prog, env, s)
  {
    hide ConditionedSays, IsUniverseAssertion;
    var added := |out.saysAssertions| - |prog.saysAssertions|;
    var universe, rest := out.saysAssertions[..added], out.saysAssertions[added..];
    InAllSpoken(out.saysAssertions, s);
    UniverseSpeaks(typing, universe, s);
    ConditionedSpeaks(prog, env, rest, s);
    assert out.saysAssertions == universe + rest;
    SpeaksConcat(universe, rest, s);
  }

  lemma SpeaksConcat(a: seq<SaysAssertion>, b: seq<SaysAssertion>, s: Spoken)
    ensures Speaks(a + b, s) <==> Speaks(a, s) || Speaks(b, s)
  {
    if Speaks(a, s) {
      var i :| 0 <= i < |a| && a[i].principal == s.speaker && s.assertion in a[i].assertions;
      assert (a + b)[i] == a[i];
    }
    if Speaks(b, s) {
      var i :| 0 <= i < |b| && b[i].principal == s.speaker && s.assertion in b[i].assertions;
      assert (a + b)[|a| + i] == b[i];
    }
  }

  lemma DeclaredHead(prog: AuthLogic.Program, env: Environment, typing: Typing, out: AuthLogic.Program, s: Spoken)
    requires IsInsertion(prog, env, typing, out) && s in AllSpoken(prog.saysAssertions)
    ensures HeadIsDeclared(env, s.assertion.Head().base)
  {
    InAllSpoken(prog.saysAssertions, s);
    var i :| 0 <= i < |prog.saysAssertions| && prog.saysAssertions[i].principal == s.speaker &&
      s.assertion in prog.saysAssertions[i].assertions;
    assert prog.saysAssertions[i] in prog.saysAssertions;
  }

  // ---------- Every occurrence of a name is an event of the program ----------

  lemma {:induction false} InBodyEvents(env: Environment, body: seq<BaseFact>, b: BaseFact, e: Event)
    requires b in body && e in BaseEvents(env, b)
    ensures e in BodyEvents(env, body)
  {
    hide BaseEvents;
    var init, last := body[..|body| - 1], body[|body| - 1];
    InInitOrLast(body, b);
    InConcat(BodyEvents(env, init), BaseEvents(env, last), e);
    if b in init {
      InBodyEvents(env, init, b, e);
    }
  }

  lemma {:induction false} InAssertionsEvents(env: Environment, assertions: seq<Assertion>, a: Assertion, e: Event)
    requires a in assertions && e in AssertionEvents(env, a)
    ensures e in AssertionsEvents(env, assertions)
  {
    hide AssertionEvents;
    var init, last := assertions[..|assertions| - 1], assertions[|assertions| - 1];
    InInitOrLast(assertions, a);
    InConcat(AssertionsEvents(env, init), AssertionEvents(env, last), e);
    if a in init {
      InAssertionsEvents(env, init, a, e);
    }
  }

  lemma {:induction false} InSaysEvents(env: Environment, says: seq<SaysAssertion>, i: nat, e: Event)
    requires i < |says|
    requires e in PrincipalEvents([says[i].principal]) || e in AssertionsEvents(env, says[i].assertions)
    ensures e in SaysEvents(env, says)
  {
    hide AssertionsEvents, PrincipalEvents;
    var n := |says| - 1;
    var init, last := says[..n], says[n];
    var own := PrincipalEvents([last.principal]) + AssertionsEvents(env, last.assertions);
    InConcat(SaysEvents(env, init), own, e);
    InConcat(PrincipalEvents([last.principal]), AssertionsEvents(env, last.assertions), e);
    if i < n {
      InSaysEvents(env, init, i, e);
    }
  }

  /** All occurrences in an assertion: its speaker, its delegatees, its head and its conditions. */
  ghost predicate OccursIn(env: Environment, s: Spoken, e: Event) {
    var head := s.assertion.Head();
    e in PrincipalEvents([s.speaker]) || e in PrincipalEvents(head.delegationChain) || e in BaseEvents(env, head.base) ||
    exists b :: b in s.assertion.Body() && e in BaseEvents(env, b)
  }

  lemma OccurrencesAreEvents(env: Environment, prog: AuthLogic.Program, s: Spoken, e: Event)
    requires s in AllSpoken(prog.saysAssertions) && OccursIn(env, s, e)
    ensures e in ProgramEvents(env, prog)
  {
    hide BaseEvents, PrincipalEvents, AssertionsEvents, SaysEvents;
    InAllSpoken(prog.saysAssertions, s);
    var says := prog.saysAssertions;
    var i :| 0 <= i < |says| && says[i].principal == s.speaker && s.assertion in says[i].assertions;
    var head, body := s.assertion.Head(), s.assertion.Body();
    if e !in PrincipalEvents([s.speaker]) {
      InConcat(FactEvents(env, head), BodyEvents(env, body), e);
      InConcat(PrincipalEvents(head.delegationChain), BaseEvents(env, head.base), e);
      if b :| b in body && e in BaseEvents(env, b) {
        InBodyEvents(env, body, b, e);
      }
      InAssertionsEvents(env, says[i].assertions, s.assertion, e);
    }
    InSaysEvents(env, says, i, e);
    InConcat(SaysEvents(env, says), QueryEvents(env, prog.queries), e);
  }

  /** In a program that can be typed, an occurrence is never an abort, and a constant has its type. */
  ghost predicate Holds(typing: Typing, e: Event) {
    e.Typed? && e.name in typing && typing[e.name] == e.argumentType
  }

  lemma OccurrenceIsTyped(prog: AuthLogic.Program, env: Environment, typing: Typing, s: Spoken, e: Event)
    requires Run(map[], ProgramEvents(env, prog)) == Passed(typing)
    requires s in AllSpoken(prog.saysAssertions) && OccursIn(env, s, e)
    ensures e.Typed? && (IsNameConstant(e.name) ==> Holds(typing, e))
  {
    OccurrencesAreEvents(env, prog, s, e);
    RunTypesExactly(ProgramEvents(env, prog));
  }

  // ---------- The types of head variables ----------

  predicate ArgumentHasType(env: Environment, p: Predicate, v: string, t: ArgumentType) {
    p.name in env &&
    exists i :: 0 <= i < |p.args| && i < |env[p.name].arguments| && p.args[i] == v && env[p.name].arguments[i].argumentType == t
  }

  /** Variable `v` occurs in `h` at a place that is declared with type `t`. */
  predicate HasType(env: Environment, h: BaseFact, v: string, t: ArgumentType) {
    !IsNameConstant(v) &&
    match h
    case PredicateFact(p) => ArgumentHasType(env, p, v, t)
    case AttributeFact(prin, p) => (v == prin && t == PrincipalType) || ArgumentHasType(env, p, v, t)
    case CanActAs(l, r) => (v == l || v == r) && t == PrincipalType
  }

  /** The names of the argument positions that get a condition. */
  lemma {:induction false} ArgumentConditionsAreEvents(d: RelationDeclaration, args: seq<string>, k: nat, b: BaseFact)
    returns (i: nat)
    requires k <= |args| && b in ArgumentConditions(d, args, k)
    ensures i < k && i < |d.arguments| && !IsNameConstant(args[i])
    ensures b == MembershipFact(args[i], d.arguments[i].argumentType)
  {
    var before := ArgumentConditions(d, args, k - 1);
    if b in before {
      i := ArgumentConditionsAreEvents(d, args, k - 1, b);
    } else {
      i := k - 1;
    }
  }

  lemma {:induction false} ArgumentsGetConditions(d: RelationDeclaration, args: seq<string>, k: nat, i: nat)
    requires i < k <= |args| && i < |d.arguments| && !IsNameConstant(args[i])
    ensures MembershipFact(args[i], d.arguments[i].argumentType) in ArgumentConditions(d, args, k)
  {
    if i < k - 1 {
      ArgumentsGetConditions(d, args, k - 1, i);
    }
  }

  lemma PredicateConditionsAreTypes(env: Environment, p: Predicate, b: BaseFact)
    ensures b in PredicateConditions(env, p) <==>
      exists v, t :: !IsNameConstant(v) && ArgumentHasType(env, p, v, t) && b == MembershipFact(v, t)
  {
    if b in PredicateConditions(env, p) {
      var i := ArgumentConditionsAreEvents(env[p.name], p.args, |p.args|, b);
      assert ArgumentHasType(env, p, p.args[i], env[p.name].arguments[i].argumentType);
    }
    if v, t :| !IsNameConstant(v) && ArgumentHasType(env, p, v, t) && b == MembershipFact(v, t) {
      var i :| 0 <= i < |p.args| && i < |env[p.name].arguments| && p.args[i] == v && env[p.name].arguments[i].argumentType == t;
      ArgumentsGetConditions(env[p.name], p.args, |p.args|, i);
    }
  }

  ghost predicate IsTypeCondition(env: Environment, h: BaseFact, b: BaseFact) {
    exists v, t :: HasType(env, h, v, t) && b == MembershipFact(v, t)
  }

  /** The conditions that are added say of each head variable that it is in the universe of its type. */
  lemma ConditionsAreTypes(env: Environment, h: BaseFact, b: BaseFact)
    ensures b in Conditions(env, h) <==> IsTypeCondition(env, h, b)
  {
    hide PredicateConditions, ArgumentHasType;
    match h {
      case PredicateFact(p) =>
        PredicateConditionsAreTypes(env, p, b);
      case AttributeFact(prin, p) =>
        InConcat(PrincipalConditions(prin), PredicateConditions(env, p), b);
        PredicateConditionsAreTypes(env, p, b);
        if b in PrincipalConditions(prin) {
          assert HasType(env, h, prin, PrincipalType);
        }
      case CanActAs(l, r) =>
        InConcat(PrincipalConditions(l), PrincipalConditions(r), b);
        if b in PrincipalConditions(l) {
          assert HasType(env, h, l, PrincipalType);
        }
        if b in PrincipalConditions(r) {
          assert HasType(env, h, r, PrincipalType);
        }
    }
  }

  lemma ConditionedKeepsHead(env: Environment, a: Assertion)
    ensures Conditioned(env, a).Head() == a.Head()
    ensures Conditioned(env, a).Body() == Conditions(env, a.Head().base) + a.Body()
  {
  }

  // ---------- Typed instances ----------

  /** `c` is a constant of the program that is put into the universe of type `t`. */
  predicate IsMember(typing: Typing, c: string, t: ArgumentType) {
    c in typing && UniverseName(typing[c]) == UniverseName(t)
  }

  /** Unless two types share a universe, its members are the constants of the type. */
  lemma MembersHaveTheType(prog: AuthLogic.Program, env: Environment, typing: Typing, c: string, t: ArgumentType)
    requires Declares(prog.declarations, env) && Run(map[], ProgramEvents(env, prog)) == Passed(typing)
    requires HasDistinctUniverses(prog.declarations) && TypeOccurs(prog.declarations, t)
    ensures IsMember(typing, c, t) <==> Holds(typing, Typed(c, t))
  {
    hide ProgramEvents, TypeOccurs;
    if c in typing {
      ConstantTypesOccur(prog, env, typing, c);
    }
  }

  ghost predicate HasDistinctUniverses(ds: seq<RelationDeclaration>) {
    forall t, t' :: TypeOccurs(ds, t) && TypeOccurs(ds, t') && UniverseName(t) == UniverseName(t') ==> t == t'
  }

  /** The substitution sends every variable of the head to a member of the universe of its type. */
  ghost predicate IsTypedInstance(env: Environment, typing: Typing, h: BaseFact, sigma: Substitution) {
    forall v, t :: HasType(env, h, v, t) ==> IsMember(typing, Value(sigma, v), t)
  }

  /** The steps of the logic, with assertions used in typed instances only. */
  ghost predicate IsTypedStep(said: seq<Spoken>, env: Environment, typing: Typing, step: Step<Belief>) {
    exists reason ::
      Admits(said, reason) && step == StepFor(reason) &&
      (reason.ByAssertion? ==> IsTypedInstance(env, typing, reason.said.assertion.Head().base, reason.sigma))
  }

  ghost function TypedSteps(said: seq<Spoken>, env: Environment, typing: Typing): iset<Step<Belief>> {
    iset step: Step<Belief> | IsTypedStep(said, env, typing, step)
  }

  /** What a program means when the variables of its heads range over the constants of their types. */
  ghost function TypedBeliefs(said: seq<Spoken>, env: Environment, typing: Typing): iset<Belief> {
    LeastModel(TypedSteps(said, env, typing))
  }

  lemma ConcludeTyped(said: seq<Spoken>, env: Environment, typing: Typing, reason: Reason)
    requires Admits(said, reason) && AllIn(StepFor(reason).body, TypedBeliefs(said, env, typing))
    requires reason.ByAssertion? ==> IsTypedInstance(env, typing, reason.said.assertion.Head().base, reason.sigma)
    ensures StepFor(reason).head in TypedBeliefs(said, env, typing)
  {
    assert IsTypedStep(said, env, typing, StepFor(reason));
    Infer(TypedSteps(said, env, typing), StepFor(reason));
  }

  /** Typed instances are instances. */
  lemma TypedBeliefsAreBeliefs(said: seq<Spoken>, env: Environment, typing: Typing)
    ensures TypedBeliefs(said, env, typing) <= Beliefs(said)
  {
    forall step | step in TypedSteps(said, env, typing) && AllIn(step.body, Beliefs(said))
      ensures step.head in Beliefs(said)
    {
      var reason :| Admits(said, reason) && step == StepFor(reason);
      Conclude(said, reason);
    }
    LeastModelIsLeast(TypedSteps(said, env, typing), Beliefs(said));
  }

  // ---------- Relations that are named like universes ----------

  function RelationOf(b: BaseFact): string {
    if b.CanActAs? then CAN_ACT_AS else b.pred.name
  }

  function RelationOfClaim(c: Claim): string {
    if c.ActAsClaim? then CAN_ACT_AS else c.name
  }

  /** `name` is the name of a universe relation of the program. */
  ghost predicate IsUniverseName(ds: seq<RelationDeclaration>, name: string) {
    exists t :: TypeOccurs(ds, t) && name == UniverseName(t)
  }

  ghost predicate AvoidsUniverseNames(ds: seq<RelationDeclaration>, s: Spoken) {
    !IsUniverseName(ds, RelationOf(s.assertion.Head().base)) &&
    forall b :: b in s.assertion.Body() ==> !IsUniverseName(ds, RelationOf(b))
  }

  /** The hypotheses of the pass: speakers are constants, and the program leaves universe relations alone. */
  ghost predicate IsPlain(prog: AuthLogic.Program) {
    forall s :: s in AllSpoken(prog.saysAssertions) ==>
      IsNameConstant(s.speaker) && AvoidsUniverseNames(prog.declarations, s)
  }

  lemma ActAsIsNoUniverse(ds: seq<RelationDeclaration>)
    ensures !IsUniverseName(ds, CAN_ACT_AS)
  {
    forall t
      ensures UniverseName(t) != CAN_ACT_AS
    {
      assert UniverseName(t)[0] == 'i' && CAN_ACT_AS[0] == 'c';
    }
  }

  // ---------- The types of constants ----------

  lemma {:induction false} TypesOccur(ds: seq<RelationDeclaration>, env: Environment, events: seq<Event>, typing: Typing, c: string)
    requires Declares(ds, env) && Run(map[], events) == Passed(typing) && c in typing
    requires forall e :: e in events && e.Typed? ==> TypeOccurs(ds, e.argumentType)
    ensures TypeOccurs(ds, typing[c])
  {
    RunTypesExactly(events);
    assert Typed(c, typing[c]) in events;
  }

  lemma BaseTypesOccur(ds: seq<RelationDeclaration>, env: Environment, b: BaseFact, e: Event)
    requires Declares(ds, env) && e in BaseEvents(env, b) && e.Typed?
    ensures TypeOccurs(ds, e.argumentType)
  {
  }

  lemma PrincipalOccurs(ds: seq<RelationDeclaration>)
    ensures TypeOccurs(ds, PrincipalType)
  {
  }

  lemma FactTypesOccur(ds: seq<RelationDeclaration>, env: Environment, f: Fact, e: Event)
    requires Declares(ds, env) && e in FactEvents(env, f) && e.Typed?
    ensures TypeOccurs(ds, e.argumentType)
  {
  }

  lemma {:induction false} BodyTypesOccur(ds: seq<RelationDeclaration>, env: Environment, body: seq<BaseFact>, e: Event)
    requires Declares(ds, env) && e in BodyEvents(env, body) && e.Typed?
    ensures TypeOccurs(ds, e.argumentType)
  {
    hide BaseEvents, TypeOccurs;
    var init, last := body[..|body| - 1], body[|body| - 1];
    InConcat(BodyEvents(env, init), BaseEvents(env, last), e);
    if e in BodyEvents(env, init) {
      BodyTypesOccur(ds, env, init, e);
    } else {
      BaseTypesOccur(ds, env, last, e);
    }
  }

  lemma {:induction false} AssertionsTypesOccur(ds: seq<RelationDeclaration>, env: Environment, assertions: seq<Assertion>, e: Event)
    requires Declares(ds, env) && e in AssertionsEvents(env, assertions) && e.Typed?
    ensures TypeOccurs(ds, e.argumentType)
  {
    hide FactEvents, BodyEvents, TypeOccurs;
    var init, last := assertions[..|assertions| - 1], assertions[|assertions| - 1];
    InConcat(AssertionsEvents(env, init), AssertionEvents(env, last), e);
    if e in AssertionsEvents(env, init) {
      AssertionsTypesOccur(ds, env, init, e);
    } else {
      InConcat(FactEvents(env, last.Head()), BodyEvents(env, last.Body()), e);
      if e in FactEvents(env, last.Head()) {
        FactTypesOccur(ds, env, last.Head(), e);
      } else {
        BodyTypesOccur(ds, env, last.Body(), e);
      }
    }
  }

  lemma {:induction false} SaysTypesOccur(ds: seq<RelationDeclaration>, env: Environment, says: seq<SaysAssertion>, e: Event)
    requires Declares(ds, env) && e in SaysEvents(env, says) && e.Typed?
    ensures TypeOccurs(ds, e.argumentType)
  {
    hide AssertionsEvents, TypeOccurs;
    PrincipalOccurs(ds);
    var init, last := says[..|says| - 1], says[|says| - 1];
    InConcat(SaysEvents(env, init), PrincipalEvents([last.principal]) + AssertionsEvents(env, last.assertions), e);
    InConcat(PrincipalEvents([last.principal]), AssertionsEvents(env, last.assertions), e);
    if e in SaysEvents(env, init) {
      SaysTypesOccur(ds, env, init, e);
    } else if e in AssertionsEvents(env, last.assertions) {
      AssertionsTypesOccur(ds, env, last.assertions, e);
    }
  }

  lemma {:induction false} QueryTypesOccur(ds: seq<RelationDeclaration>, env: Environment, qs: seq<Query>, e: Event)
    requires Declares(ds, env) && e in QueryEvents(env, qs) && e.Typed?
    ensures TypeOccurs(ds, e.argumentType)
  {
    hide FactEvents, TypeOccurs;
    PrincipalOccurs(ds);
    var init, last := qs[..|qs| - 1], qs[|qs| - 1];
    InConcat(QueryEvents(env, init), PrincipalEvents([last.principal]) + FactEvents(env, last.fact), e);
    InConcat(PrincipalEvents([last.principal]), FactEvents(env, last.fact), e);
    if e in QueryEvents(env, init) {
      QueryTypesOccur(ds, env, init, e);
    } else if e in FactEvents(env, last.fact) {
      FactTypesOccur(ds, env, last.fact, e);
    }
  }

  /** The type of every constant is a built-in type or one that is declared. */
  lemma ConstantTypesOccur(prog: AuthLogic.Program, env: Environment, typing: Typing, c: string)
    requires Declares(prog.declarations, env) && Run(map[], ProgramEvents(env, prog)) == Passed(typing) && c in typing
    ensures TypeOccurs(prog.declarations, typing[c])
  {
    hide TypeOccurs, SaysEvents, QueryEvents;
    var ds := prog.declarations;
    forall e | e in ProgramEvents(env, prog) && e.Typed?
      ensures TypeOccurs(ds, e.argumentType)
    {
      InConcat(SaysEvents(env, prog.saysAssertions), QueryEvents(env, prog.queries), e);
      if e in SaysEvents(env, prog.saysAssertions) {
        SaysTypesOccur(ds, env, prog.saysAssertions, e);
      } else {
        QueryTypesOccur(ds, env, prog.queries, e);
      }
    }
    TypesOccur(ds, env, ProgramEvents(env, prog), typing, c);
  }

  // ---------- Nothing typed is lost ----------

  /** A typed constant is in its universe, for every principal of the program. */
  lemma UniverseIsPopulated(prog: AuthLogic.Program, env: Environment, typing: Typing, out: AuthLogic.Program,
                            who: Const, c: Const, t: ArgumentType)
    requires IsInsertion(prog, env, typing, out)
    requires Holds(typing, Typed(who, PrincipalType)) && Holds(typing, Typed(c, t))
    ensures Says(who, [], PredicateClaim(UniverseName(t), [c])) in Beliefs(AllSpoken(out.saysAssertions))
  {
    hide IsInsertion;
    var s := Spoken(who, FactAssertion(Fact([], MembershipFact(c, t))));
    assert IsUniverseSpoken(typing, s);
    InsertedSpoken(prog, env, typing, out, s);
    var sigma: Substitution := v => c;
    assert Values(sigma, [c]) == [c];
    Conclude(AllSpoken(out.saysAssertions), ByAssertion(s, sigma));
  }

  lemma SpeakerIsPrincipal(prog: AuthLogic.Program, env: Environment, typing: Typing, s: Spoken)
    requires Run(map[], ProgramEvents(env, prog)) == Passed(typing)
    requires s in AllSpoken(prog.saysAssertions) && IsNameConstant(s.speaker)
    ensures Holds(typing, Typed(s.speaker, PrincipalType))
  {
    hide Run, ProgramEvents;
    assert PrincipalEvents([s.speaker])[0] == Typed(s.speaker, PrincipalType);
    OccurrenceIsTyped(prog, env, typing, s, Typed(s.speaker, PrincipalType));
  }

  /** The conditions added to an assertion hold in every typed instance. */
  lemma ConditionHolds(prog: AuthLogic.Program, env: Environment, typing: Typing, out: AuthLogic.Program,
                       s: Spoken, sigma: Substitution, b: BaseFact)
    requires IsInsertion(prog, env, typing, out)
    requires s in AllSpoken(prog.saysAssertions) && IsNameConstant(s.speaker)
    requires IsTypedInstance(env, typing, s.assertion.Head().base, sigma) && b in Conditions(env, s.assertion.Head().base)
    ensures Says(Value(sigma, s.speaker), [], GroundBase(sigma, b)) in Beliefs(AllSpoken(out.saysAssertions))
  {
    SpeakerIsPrincipal(prog, env, typing, s);
    ConditionsAreTypes(env, s.assertion.Head().base, b);
    hide IsInsertion, Conditions, HasType, Beliefs;
    var v, t :| HasType(env, s.assertion.Head().base, v, t) && b == MembershipFact(v, t);
    var c := Value(sigma, v);
    assert IsMember(typing, c, t);
    UniverseIsPopulated(prog, env, typing, out, s.speaker, c, typing[c]);
    assert Values(sigma, [v]) == [c];
  }

  lemma ConditionedBodyHolds(prog: AuthLogic.Program, env: Environment, typing: Typing, out: AuthLogic.Program,
                             s: Spoken, sigma: Substitution)
    requires IsInsertion(prog, env, typing, out)
    requires s in AllSpoken(prog.saysAssertions) && IsNameConstant(s.speaker)
    requires IsTypedInstance(env, typing, s.assertion.Head().base, sigma)
    requires AllIn(GroundBody(sigma, s.speaker, s.assertion.Body()), Beliefs(AllSpoken(out.saysAssertions)))
    ensures AllIn(GroundBody(sigma, s.speaker, Conditions(env, s.assertion.Head().base) + s.assertion.Body()), Beliefs(AllSpoken(out.saysAssertions)))
  {
    hide IsInsertion, Conditions, IsTypedInstance, Beliefs, AllSpoken, GroundBase;
    var conditions, body := Conditions(env, s.assertion.Head().base), s.assertion.Body();
    var ground := GroundBody(sigma, s.speaker, conditions + body);
    forall i | 0 <= i < |ground|
      ensures ground[i] in Beliefs(AllSpoken(out.saysAssertions))
    {
      if i < |conditions| {
        ConditionHolds(prog, env, typing, out, s, sigma, conditions[i]);
      } else {
        assert ground[i] == GroundBody(sigma, s.speaker, body)[i - |conditions|];
      }
    }
  }

  /** With its added conditions, a typed instance of an assertion can still be used. */
  lemma TypedInstanceIsKept(prog: AuthLogic.Program, env: Environment, typing: Typing, out: AuthLogic.Program,
                            s: Spoken, sigma: Substitution)
    requires IsInsertion(prog, env, typing, out)
    requires s in AllSpoken(prog.saysAssertions) && IsNameConstant(s.speaker)
    requires IsTypedInstance(env, typing, s.assertion.Head().base, sigma)
    requires AllIn(GroundBody(sigma, s.speaker, s.assertion.Body()), Beliefs(AllSpoken(out.saysAssertions)))
    ensures GroundFact(sigma, s.speaker, s.assertion.Head()) in Beliefs(AllSpoken(out.saysAssertions))
  {
    hide IsInsertion, Conditions, Conditioned, IsTypedInstance, Beliefs;
    var said' := AllSpoken(out.saysAssertions);
    var s' := Spoken(s.speaker, Conditioned(env, s.assertion));
    assert IsConditionedSpoken(prog, env, s');
    InsertedSpoken(prog, env, typing, out, s');
    ConditionedKeepsHead(env, s.assertion);
    ConditionedBodyHolds(prog, env, typing, out, s, sigma);
    Conclude(said', ByAssertion(s', sigma));
  }

  lemma NothingTypedIsLost(prog: AuthLogic.Program, env: Environment, typing: Typing, out: AuthLogic.Program)
    requires IsInsertion(prog, env, typing, out) && IsPlain(prog)
    ensures TypedBeliefs(AllSpoken(prog.saysAssertions), env, typing) <= Beliefs(AllSpoken(out.saysAssertions))
  {
    hide IsInsertion, AvoidsUniverseNames, IsTypedInstance, Beliefs;
    var said, said' := AllSpoken(prog.saysAssertions), AllSpoken(out.saysAssertions);
    forall step | step in TypedSteps(said, env, typing) && AllIn(step.body, Beliefs(said'))
      ensures step.head in Beliefs(said')
    {
      var reason :| Admits(said, reason) && step == StepFor(reason) &&
        (reason.ByAssertion? ==> IsTypedInstance(env, typing, reason.said.assertion.Head().base, reason.sigma));
      match reason {
        case ByAssertion(s, sigma) => TypedInstanceIsKept(prog, env, typing, out, s, sigma);
        case ByDelegation(_, _, _, _) => Conclude(said', reason);
        case ByActingAs(_, _, _) => Conclude(said', reason);
      }
    }
    LeastModelIsLeast(TypedSteps(said, env, typing), Beliefs(said'));
  }

  // ---------- Nothing else is gained ----------

  /** Typed beliefs of the old program say nothing about universes. */
  lemma TypedBeliefsAvoidUniverses(prog: AuthLogic.Program, env: Environment, typing: Typing, b: Belief)
    requires IsPlain(prog) && b in TypedBeliefs(AllSpoken(prog.saysAssertions), env, typing)
    ensures !IsUniverseName(prog.declarations, RelationOfClaim(b.claim))
  {
    hide IsUniverseName, IsTypedInstance;
    var said := AllSpoken(prog.saysAssertions);
    var old_ := iset x: Belief | !IsUniverseName(prog.declarations, RelationOfClaim(x.claim));
    ActAsIsNoUniverse(prog.declarations);
    forall step | step in TypedSteps(said, env, typing) && AllIn(step.body, old_)
      ensures step.head in old_
    {
      var reason :| Admits(said, reason) && step == StepFor(reason);
      match reason {
        case ByAssertion(s, sigma) =>
          assert RelationOfClaim(GroundBase(sigma, s.assertion.Head().base)) == RelationOf(s.assertion.Head().base);
        case ByDelegation(_, _, _, _) => assert step.body[0] in old_;
        case ByActingAs(_, _, _) => assert step.body[1] in old_;
      }
    }
    LeastModelIsLeast(TypedSteps(said, env, typing), old_);
  }

  /** The beliefs that the universe facts state. */
  ghost predicate IsUniverseBelief(typing: Typing, b: Belief) {
    b.chain == [] && exists c :: c in typing && IsNameConstant(c) && b.claim == PredicateClaim(UniverseName(typing[c]), [c])
  }

  ghost predicate IsExpected(prog: AuthLogic.Program, env: Environment, typing: Typing, b: Belief) {
    b in TypedBeliefs(AllSpoken(prog.saysAssertions), env, typing) || IsUniverseBelief(typing, b)
  }

  lemma UniverseBeliefsAreNamed(prog: AuthLogic.Program, env: Environment, typing: Typing, b: Belief)
    requires Declares(prog.declarations, env) && Run(map[], ProgramEvents(env, prog)) == Passed(typing)
    requires IsUniverseBelief(typing, b)
    ensures IsUniverseName(prog.declarations, RelationOfClaim(b.claim))
  {
    hide ProgramEvents;
    var c :| c in typing && IsNameConstant(c) && b.claim == PredicateClaim(UniverseName(typing[c]), [c]);
    ConstantTypesOccur(prog, env, typing, c);
  }

  lemma UniverseFactIsExpected(prog: AuthLogic.Program, env: Environment, typing: Typing, s: Spoken, sigma: Substitution)
    requires Run(map[], ProgramEvents(env, prog)) == Passed(typing) && IsUniverseSpoken(typing, s)
    ensures IsExpected(prog, env, typing, GroundFact(sigma, s.speaker, s.assertion.Head()))
  {
    hide ProgramEvents, TypedBeliefs;
    var c :| s.speaker in typing && typing[s.speaker] == PrincipalType && c in typing &&
      s.assertion == FactAssertion(Fact([], MembershipFact(c, typing[c])));
    RunTypesExactly(ProgramEvents(env, prog));
    assert Values(sigma, [c]) == [c];
    assert Values(sigma, []) == [];
    assert IsUniverseBelief(typing, GroundFact(sigma, s.speaker, s.assertion.Head()));
  }

  /** A condition that is believed sends its variable to a member. */
  lemma BelievedConditionIsMember(prog: AuthLogic.Program, env: Environment, typing: Typing, s: Spoken, sigma: Substitution,
                                  v: string, t: ArgumentType)
    requires IsPlain(prog) && TypeOccurs(prog.declarations, t)
    requires IsExpected(prog, env, typing, Says(Value(sigma, s.speaker), [], GroundBase(sigma, MembershipFact(v, t))))
    ensures IsMember(typing, Value(sigma, v), t)
  {
    hide TypedBeliefs, IsPlain, TypeOccurs;
    var b := Says(Value(sigma, s.speaker), [], GroundBase(sigma, MembershipFact(v, t)));
    assert Values(sigma, [v]) == [Value(sigma, v)];
    assert IsUniverseName(prog.declarations, UniverseName(t));
    if b in TypedBeliefs(AllSpoken(prog.saysAssertions), env, typing) {
      TypedBeliefsAvoidUniverses(prog, env, typing, b);
    }
    var c :| c in typing && IsNameConstant(c) && b.claim == PredicateClaim(UniverseName(typing[c]), [c]);
    assert [Value(sigma, v)][0] == [c][0];
  }

  /** The types of head variables are declared. */
  lemma HeadTypesOccur(ds: seq<RelationDeclaration>, env: Environment, h: BaseFact, v: string, t: ArgumentType)
    requires Declares(ds, env) && HasType(env, h, v, t)
    ensures TypeOccurs(ds, t)
  {
    PrincipalOccurs(ds);
    if t != PrincipalType {
      var p := h.pred;
      var i :| 0 <= i < |p.args| && i < |env[p.name].arguments| && p.args[i] == v && env[p.name].arguments[i].argumentType == t;
      assert env[p.name] in ds && env[p.name].arguments[i] in env[p.name].arguments;
    }
  }

  /** An instance of a conditioned assertion whose body is expected is a typed instance of the old one. */
  lemma ConditionedInstanceIsTyped(prog: AuthLogic.Program, env: Environment, typing: Typing, s: Spoken, sigma: Substitution)
    requires Declares(prog.declarations, env) && IsPlain(prog) && s in AllSpoken(prog.saysAssertions)
    requires forall x :: x in GroundBody(sigma, s.speaker, Conditions(env, s.assertion.Head().base) + s.assertion.Body()) ==>
      IsExpected(prog, env, typing, x)
    ensures IsTypedInstance(env, typing, s.assertion.Head().base, sigma)
  {
    hide Conditions, HasType, IsPlain, IsExpected, IsMember;
    var h := s.assertion.Head().base;
    var conditions, body := Conditions(env, h), s.assertion.Body();
    var ground := GroundBody(sigma, s.speaker, conditions + body);
    forall v, t | HasType(env, h, v, t)
      ensures IsMember(typing, Value(sigma, v), t)
    {
      ConditionsAreTypes(env, h, MembershipFact(v, t));
      var i := IndexOf(conditions, MembershipFact(v, t));
      assert ground[i] == Says(Value(sigma, s.speaker), [], GroundBase(sigma, MembershipFact(v, t)));
      assert ground[i] in ground;
      HeadTypesOccur(prog.declarations, env, h, v, t);
      BelievedConditionIsMember(prog, env, typing, s, sigma, v, t);
    }
  }

  /** Without the added conditions, which are about universes, a body is about the old program. */
  lemma BodyIsOld(prog: AuthLogic.Program, env: Environment, typing: Typing, s: Spoken, sigma: Substitution)
    requires Declares(prog.declarations, env) && Run(map[], ProgramEvents(env, prog)) == Passed(typing)
    requires IsPlain(prog) && s in AllSpoken(prog.saysAssertions)
    requires forall x :: x in GroundBody(sigma, s.speaker, Conditions(env, s.assertion.Head().base) + s.assertion.Body()) ==>
      IsExpected(prog, env, typing, x)
    ensures AllIn(GroundBody(sigma, s.speaker, s.assertion.Body()), TypedBeliefs(AllSpoken(prog.saysAssertions), env, typing))
  {
    hide Conditions, TypedBeliefs, IsUniverseName, AllSpoken, IsUniverseBelief, Run, ProgramEvents;
    var conditions, body := Conditions(env, s.assertion.Head().base), s.assertion.Body();
    var ground := GroundBody(sigma, s.speaker, body);
    var ground' := GroundBody(sigma, s.speaker, conditions + body);
    forall i | 0 <= i < |ground|
      ensures ground[i] in TypedBeliefs(AllSpoken(prog.saysAssertions), env, typing)
    {
      assert ground'[|conditions| + i] == ground[i];
      assert ground[i] in ground';
      assert body[i] in body;
      assert RelationOfClaim(ground[i].claim) == RelationOf(body[i]);
      if IsUniverseBelief(typing, ground[i]) {
        UniverseBeliefsAreNamed(prog, env, typing, ground[i]);
      }
    }
  }

  lemma ConditionedInstanceIsExpected(prog: AuthLogic.Program, env: Environment, typing: Typing, s': Spoken, sigma: Substitution)
    requires Declares(prog.declarations, env) && Run(map[], ProgramEvents(env, prog)) == Passed(typing)
    requires IsPlain(prog) && IsConditionedSpoken(prog, env, s')
    requires forall x :: x in GroundBody(sigma, s'.speaker, s'.assertion.Body()) ==> IsExpected(prog, env, typing, x)
    ensures IsExpected(prog, env, typing, GroundFact(sigma, s'.speaker, s'.assertion.Head()))
  {
    hide Conditioned, Conditions, TypedBeliefs, IsTypedInstance, IsPlain, Run, ProgramEvents, IsUniverseBelief;
    var said := AllSpoken(prog.saysAssertions);
    var a :| Spoken(s'.speaker, a) in said && s'.assertion == Conditioned(env, a);
    var s := Spoken(s'.speaker, a);
    ConditionedKeepsHead(env, a);
    ConditionedInstanceIsTyped(prog, env, typing, s, sigma);
    BodyIsOld(prog, env, typing, s, sigma);
    ConcludeTyped(said, env, typing, ByAssertion(s, sigma));
  }

  lemma ExpectedDelegation(prog: AuthLogic.Program, env: Environment, typing: Typing, a: Const, c: Const, chain: seq<Const>, claim: Claim)
    requires Declares(prog.declarations, env) && Run(map[], ProgramEvents(env, prog)) == Passed(typing) && IsPlain(prog)
    requires IsExpected(prog, env, typing, Says(c, chain, claim)) && IsExpected(prog, env, typing, Says(a, chain + [c], claim))
    ensures IsExpected(prog, env, typing, Says(a, chain, claim))
  {
    hide TypedBeliefs, IsPlain, Run, ProgramEvents, IsUniverseName;
    TypedBeliefsAvoidUniverses(prog, env, typing, Says(a, chain + [c], claim));
    if IsUniverseBelief(typing, Says(c, chain, claim)) {
      UniverseBeliefsAreNamed(prog, env, typing, Says(c, chain, claim));
    }
    ConcludeTyped(AllSpoken(prog.saysAssertions), env, typing, ByDelegation(a, c, chain, claim));
  }

  lemma NothingElseIsGained(prog: AuthLogic.Program, env: Environment, typing: Typing, out: AuthLogic.Program, b: Belief)
    requires IsInsertion(prog, env, typing, out) && IsPlain(prog)
    requires b in Beliefs(AllSpoken(out.saysAssertions))
    ensures IsExpected(prog, env, typing, b)
  {
    hide Run, ProgramEvents, IsPlain, TypedBeliefs, IsUniverseSpoken, IsConditionedSpoken;
    var said, said' := AllSpoken(prog.saysAssertions), AllSpoken(out.saysAssertions);
    var good := iset x: Belief | IsExpected(prog, env, typing, x);
    forall step | step in LogicSteps(said') && AllIn(step.body, good)
      ensures step.head in good
    {
      var reason :| Admits(said', reason) && step == StepFor(reason);
      match reason {
        case ByAssertion(s, sigma) =>
          InsertedSpoken(prog, env, typing, out, s);
          hide IsInsertion, IsExpected;
          assert Declares(prog.declarations, env);
          if IsUniverseSpoken(typing, s) {
            UniverseFactIsExpected(prog, env, typing, s, sigma);
          } else {
            forall x | x in GroundBody(sigma, s.speaker, s.assertion.Body())
              ensures IsExpected(prog, env, typing, x)
            {
              var i := IndexOf(step.body, x);
              assert step.body[i] in good;
            }
            ConditionedInstanceIsExpected(prog, env, typing, s, sigma);
          }
        case ByDelegation(a, c, chain, claim) =>
          assert step.body[0] in good && step.body[1] in good;
          ExpectedDelegation(prog, env, typing, a, c, chain, claim);
        case ByActingAs(who, y, property) =>
          assert step.body[0] in good && step.body[1] in good;
          ConcludeTyped(said, env, typing, reason);
      }
    }
    LeastModelIsLeast(LogicSteps(said'), good);
  }

  /**
   What universe insertion does: over relations that are not universe
   relations, the new program believes exactly what follows from the old one
   when every variable of an assertion's head ranges over the constants of the
   universe of its type.
   */
  lemma UniverseInsertionIsExact(prog: AuthLogic.Program, env: Environment, typing: Typing,
                                 out: AuthLogic.Program, b: Belief)
    requires IsInsertion(prog, env, typing, out) && IsPlain(prog)
    requires !IsUniverseName(prog.declarations, RelationOfClaim(b.claim))
    ensures b in Beliefs(AllSpoken(out.saysAssertions)) <==> b in TypedBeliefs(AllSpoken(prog.saysAssertions), env, typing)
  {
    hide Run, ProgramEvents, IsPlain, TypedBeliefs, Beliefs;
    NothingTypedIsLost(prog, env, typing, out);
    if b in Beliefs(AllSpoken(out.saysAssertions)) {
      NothingElseIsGained(prog, env, typing, out, b);
      if IsUniverseBelief(typing, b) {
        UniverseBeliefsAreNamed(prog, env, typing, b);
      }
    }
  }

  // ---------- Types that have universes of their own ----------

  /**
   Types have universes of their own exactly when no custom type is called like
   one of the built-in types.
   */
  lemma DistinctUniversesIff(ds: seq<RelationDeclaration>)
    ensures HasDistinctUniverses(ds) <==> !TypeOccurs(ds, CustomType("Number")) && !TypeOccurs(ds, CustomType("Principal"))
  {
    NamesOfUniverses();
    if HasDistinctUniverses(ds) {
      assert TypeOccurs(ds, NumberType) && TypeOccurs(ds, PrincipalType);
    }
    hide TypeOccurs, UniverseName;
    if !TypeOccurs(ds, CustomType("Number")) && !TypeOccurs(ds, CustomType("Principal")) {
      forall t, t' | TypeOccurs(ds, t) && TypeOccurs(ds, t') && UniverseName(t) == UniverseName(t')
        ensures t == t'
      {
        SharedUniverse(t, t');
      }
    }
  }

  lemma NamesOfUniverses()
    ensures UniverseName(CustomType("Number")) == UniverseName(NumberType)
    ensures UniverseName(CustomType("Principal")) == UniverseName(PrincipalType)
  {
  }

  /** Two types that share a universe are a built-in type and the custom type of its name. */
  lemma SharedUniverse(t: ArgumentType, t': ArgumentType)
    requires UniverseName(t) == UniverseName(t')
    ensures t == t' || {t, t'} == {NumberType, CustomType("Number")} || {t, t'} == {PrincipalType, CustomType("Principal")}
  {
    var name := UniverseName(t);
    forall custom: string | t == CustomType(custom) || t' == CustomType(custom)
      ensures custom == name[2..]
    {
      assert ("is" + custom)[2..] == custom;
    }
    assert "isNumber"[2..] == "Number" && "isPrincipal"[2..] == "Principal";
    assert "isNumber"[2] != "isPrincipal"[2];
  }

  /** The substitution sends every variable of the head to a constant of its type. */
  ghost predicate IsWellTypedInstance(env: Environment, typing: Typing, h: BaseFact, sigma: Substitution) {
    forall v, t :: HasType(env, h, v, t) ==> Holds(typing, Typed(Value(sigma, v), t))
  }

  ghost predicate IsWellTypedStep(said: seq<Spoken>, env: Environment, typing: Typing, step: Step<Belief>) {
    exists reason ::
      Admits(said, reason) && step == StepFor(reason) &&
      (reason.ByAssertion? ==> IsWellTypedInstance(env, typing, reason.said.assertion.Head().base, reason.sigma))
  }

  /** What a program means when the variables of its heads range over the constants of their types. */
  ghost function WellTypedBeliefs(said: seq<Spoken>, env: Environment, typing: Typing): iset<Belief> {
    LeastModel(iset step: Step<Belief> | IsWellTypedStep(said, env, typing, step))
  }

  lemma TypedIsWellTyped(prog: AuthLogic.Program, env: Environment, typing: Typing, s: Spoken, sigma: Substitution)
    requires Declares(prog.declarations, env) && Run(map[], ProgramEvents(env, prog)) == Passed(typing)
    requires HasDistinctUniverses(prog.declarations)
    ensures IsTypedInstance(env, typing, s.assertion.Head().base, sigma) <==>
            IsWellTypedInstance(env, typing, s.assertion.Head().base, sigma)
  {
    hide Run, ProgramEvents, HasDistinctUniverses, HasType;
    var h := s.assertion.Head().base;
    forall v, t | HasType(env, h, v, t)
      ensures IsMember(typing, Value(sigma, v), t) <==> Holds(typing, Typed(Value(sigma, v), t))
    {
      HeadTypesOccur(prog.declarations, env, h, v, t);
      MembersHaveTheType(prog, env, typing, Value(sigma, v), t);
    }
  }

  lemma TypedBeliefsAreWellTyped(prog: AuthLogic.Program, env: Environment, typing: Typing)
    requires Declares(prog.declarations, env) && Run(map[], ProgramEvents(env, prog)) == Passed(typing)
    requires HasDistinctUniverses(prog.declarations)
    ensures TypedBeliefs(AllSpoken(prog.saysAssertions), env, typing) == WellTypedBeliefs(AllSpoken(prog.saysAssertions), env, typing)
  {
    hide Run, ProgramEvents, HasDistinctUniverses, IsTypedInstance, IsWellTypedInstance;
    var said := AllSpoken(prog.saysAssertions);
    forall step
      ensures IsTypedStep(said, env, typing, step) <==> IsWellTypedStep(said, env, typing, step)
    {
      forall s: Spoken, sigma: Substitution
        ensures IsTypedInstance(env, typing, s.assertion.Head().base, sigma) <==>
                IsWellTypedInstance(env, typing, s.assertion.Head().base, sigma)
      {
        TypedIsWellTyped(prog, env, typing, s, sigma);
      }
    }
    assert (iset step: Step<Belief> | IsWellTypedStep(said, env, typing, step)) == TypedSteps(said, env, typing);
  }

  /**
   Unless a custom type is called like a built-in one, the new program believes
   exactly what follows from the old one when the variables of heads range over
   the constants that the program uses at their types.
   */
  lemma UniverseInsertionIsTyping(prog: AuthLogic.Program, env: Environment, typing: Typing,
                                  out: AuthLogic.Program, b: Belief)
    requires IsInsertion(prog, env, typing, out) && IsPlain(prog)
    requires !TypeOccurs(prog.declarations, CustomType("Number")) && !TypeOccurs(prog.declarations, CustomType("Principal"))
    requires !IsUniverseName(prog.declarations, RelationOfClaim(b.claim))
    ensures b in Beliefs(AllSpoken(out.saysAssertions)) <==>
            b in WellTypedBeliefs(AllSpoken(prog.saysAssertions), env, typing)
  {
    DistinctUniversesIff(prog.declarations);
    UniverseInsertionIsExact(prog, env, typing, out, b);
    TypedBeliefsAreWellTyped(prog, env, typing);
  }
}
