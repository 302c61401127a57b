/**
 The pass that adds universe relations: it types every constant of the
 program, populates one relation per type, and makes every variable of an
 assertion's head range over the relation of its type.
 */
module Universe {
  import opened Names
  import opened Seqs
  import opened Checks
  import opened Datalog
  import opened AuthLogic

  function UniverseName(t: ArgumentType): string {
    match t
    case NumberType => "isNumber"
    case PrincipalType => "isPrincipal"
    case CustomType(name) => "is" + name
  }

  function MembershipFact(element: string, t: ArgumentType): BaseFact {
    PredicateFact(Predicate(UniverseName(t), [element], Positive))
  }

  function UniverseDeclaration(t: ArgumentType): RelationDeclaration {
    RelationDeclaration(UniverseName(t), false, [Argument("x", t)])
  }

  // ---------- Declarations ----------

  type Environment = map<string, RelationDeclaration>

  predicate DistinctNames(ds: seq<RelationDeclaration>) {
    forall i, j :: 0 <= i < j < |ds| ==> ds[i].name != ds[j].name
  }

  /** `env` maps exactly the declared names to their declarations. */
  predicate Declares(ds: seq<RelationDeclaration>, env: Environment) {
    (forall i :: 0 <= i < |ds| ==> ds[i].name in env && env[ds[i].name] == ds[i]) &&
    (forall n :: n in env ==> env[n] in ds && env[n].name == n)
  }

  /** A relation declared twice is fatal. */
  method DeclarationEnvironment(ds: seq<RelationDeclaration>) returns (r: Checked<Environment>)
    ensures r.Passed? <==> DistinctNames(ds)
    ensures r.Passed? ==> Declares(ds, r.value)
  {
    var env: Environment := map[];
    for i := 0 to |ds|
      invariant DistinctNames(ds[..i]) && Declares(ds[..i], env)
    {
      var d := ds[i];
      assert ds[..i + 1] == ds[..i] + [d];
      if d.name in env {
        assert exists j :: 0 <= j < i && ds[j].name == d.name;
        return CheckFailed;
      }
      env := env[d.name := d];
    }
    assert ds[..|ds|] == ds;
    return Passed(env);
  }

  // ---------- Typing constants ----------

  predicate IsNumericOperator(name: string) {
    name in {"<", ">", "=", "!=", "<=", ">="}
  }

  type Typing = map<string, ArgumentType>

  /** What the visitor does when it comes to a name: record a type for it, or abort. */
  datatype Event = Typed(name: string, argumentType: ArgumentType) | Abort

  /** Recording a type.  Variables are ignored; a second, different type for a constant is fatal. */
  function AddTyping(m: Typing, name: string, t: ArgumentType): Checked<Typing> {
    if !IsNameConstant(name) then Passed(m)
    else if name !in m then Passed(m[name := t])
    else if m[name] == t then Passed(m)
    else CheckFailed
  }

  function Handle(m: Typing, e: Event): Checked<Typing> {
    if e.Abort? then CheckFailed else AddTyping(m, e.name, e.argumentType)
  }

  function Run(m: Typing, events: seq<Event>): Checked<Typing> {
    if events == [] then Passed(m)
    else
      var before := Run(m, events[..|events| - 1]);
      if before.CheckFailed? then CheckFailed else Handle(before.value, events[|events| - 1])
  }

  /** An argument beyond the declared ones has no type; looking it up is modelled as an abort. */
  function ArgumentEvent(d: RelationDeclaration, args: seq<string>, i: nat): Event
    requires i < |args|
  {
    if i < |d.arguments| then Typed(args[i], d.arguments[i].argumentType) else Abort
  }

  function PredicateEvents(env: Environment, p: Predicate): seq<Event> {
    if IsNumericOperator(p.name) then
      seq(|p.args|, i requires 0 <= i < |p.args| => Typed(p.args[i], NumberType))
    else if p.name !in env then [Abort]
    else seq(|p.args|, i requires 0 <= i < |p.args| => ArgumentEvent(env[p.name], p.args, i))
  }

  function PrincipalEvents(names: seq<string>): (r: seq<Event>)
    ensures |r| == |names|
  {
    seq(|names|, i requires 0 <= i < |names| => Typed(names[i], PrincipalType))
  }

  function BaseEvents(env: Environment, b: BaseFact): seq<Event> {
    match b
    case PredicateFact(p) => PredicateEvents(env, p)
    case AttributeFact(prin, p) => PrincipalEvents([prin]) + PredicateEvents(env, p)
    case CanActAs(l, r) => PrincipalEvents([l, r])
  }

  function FactEvents(env: Environment, f: Fact): seq<Event> {
    PrincipalEvents(f.delegationChain) + BaseEvents(env, f.base)
  }

  function BodyEvents(env: Environment, body: seq<BaseFact>): seq<Event> {
    if body == [] then [] else BodyEvents(env, body[..|body| - 1]) + BaseEvents(env, body[|body| - 1])
  }

  function AssertionEvents(env: Environment, a: Assertion): seq<Event> {
    FactEvents(env, a.Head()) + BodyEvents(env, a.Body())
  }

  function AssertionsEvents(env: Environment, assertions: seq<Assertion>): seq<Event> {
    if assertions == [] then []
    else AssertionsEvents(env, assertions[..|assertions| - 1]) + AssertionEvents(env, assertions[|assertions| - 1])
  }

  function SaysEvents(env: Environment, says: seq<SaysAssertion>): seq<Event> {
    if says == [] then []
    else
      var last := says[|says| - 1];
      SaysEvents(env, says[..|says| - 1]) + (PrincipalEvents([last.principal]) + AssertionsEvents(env, last.assertions))
  }

  function QueryEvents(env: Environment, qs: seq<Query>): seq<Event> {
    if qs == [] then []
    else
      var last := qs[|qs| - 1];
      QueryEvents(env, qs[..|qs| - 1]) + (PrincipalEvents([last.principal]) + FactEvents(env, last.fact))
  }

  function ProgramEvents(env: Environment, prog: AuthLogic.Program): seq<Event> {
    SaysEvents(env, prog.saysAssertions) + QueryEvents(env, prog.queries)
  }

  lemma {:induction false} RunConcat(m: Typing, a: seq<Event>, b: seq<Event>)
    ensures Run(m, a + b) == if Run(m, a).Passed? then Run(Run(m, a).value, b) else CheckFailed
  {
    if b == [] {
      assert a + b == a;
    } else {
      var init := b[..|b| - 1];
      assert (a + b)[..|a + b| - 1] == a + init;
      RunConcat(m, a, init);
    }
  }

  /** `m` types exactly the constants that some event types, each with the type of all its events. */
  ghost predicate TypesExactly(m: Typing, events: seq<Event>) {
    (forall e :: e in events ==> e.Typed? && (IsNameConstant(e.name) ==> e.name in m && m[e.name] == e.argumentType)) &&
    (forall c :: c in m ==> IsNameConstant(c) && Typed(c, m[c]) in events)
  }

  /** A run that does not abort types exactly the constants of the program. */
  lemma {:induction false} RunTypesExactly(events: seq<Event>)
    requires Run(map[], events).Passed?
    ensures TypesExactly(Run(map[], events).value, events)
  {
    if events != [] {
      var init, e := events[..|events| - 1], events[|events| - 1];
      RunTypesExactly(init);
      var before, after := Run(map[], init).value, Run(map[], events).value;
      forall x | x in events
        ensures x.Typed? && (IsNameConstant(x.name) ==> x.name in after && after[x.name] == x.argumentType)
      {
        InInitOrLast(events, x);
      }
      forall c | c in after
        ensures IsNameConstant(c) && Typed(c, after[c]) in events
      {
        InInitOrLast(events, Typed(c, after[c]));
      }
    }
  }

  /** The visitor that types the constants of a program. */
  class TypeEnvironmentVisitor {
    const env: Environment
    var literalTypeMap: Typing

    constructor (env: Environment)
      ensures this.env == env && literalTypeMap == map[]
    {
      this.env := env;
      literalTypeMap := map[];
    }

    twostate predicate Ran(events: seq<Event>, ok: bool)
      reads this
    {
      var r := Run(old(literalTypeMap), events);
      (ok <==> r.Passed?) && (ok ==> literalTypeMap == r.value)
    }

    method Type(name: string, t: ArgumentType) returns (ok: bool)
      modifies this
      ensures Ran([Typed(name, t)], ok)
    {
      ghost var events := [Typed(name, t)];
      assert events[..0] == [];
      assert Run(literalTypeMap, []) == Passed(literalTypeMap);
      if !IsNameConstant(name) {
        return true;
      }
      if name !in literalTypeMap {
        literalTypeMap := literalTypeMap[name := t];
        return true;
      }
      return literalTypeMap[name] == t;
    }

    method VisitPrincipals(names: seq<string>) returns (ok: bool)
      modifies this
      ensures Ran(PrincipalEvents(names), ok)
    {
      for i := 0 to |names|
        invariant Run(old(literalTypeMap), PrincipalEvents(names)[..i]) == Passed(literalTypeMap)
      {
        ghost var events := PrincipalEvents(names);
        RunSplit(old(literalTypeMap), events, i);
        ok := Type(names[i], PrincipalType);
        if !ok {
          return;
        }
      }
      assert PrincipalEvents(names)[..|names|] == PrincipalEvents(names);
      ok := true;
    }

    method VisitPredicate(p: Predicate) returns (ok: bool)
      modifies this
      ensures Ran(PredicateEvents(env, p), ok)
    {
      ghost var events := PredicateEvents(env, p);
      if !IsNumericOperator(p.name) && p.name !in env {
        assert events == [Abort] && events[..0] == [];
        return false;
      }
      for i := 0 to |p.args|
        invariant Run(old(literalTypeMap), events[..i]) == Passed(literalTypeMap)
      {
        RunSplit(old(literalTypeMap), events, i);
        if IsNumericOperator(p.name) {
          ok := Type(p.args[i], NumberType);
        } else if i < |env[p.name].arguments| {
          ok := Type(p.args[i], env[p.name].arguments[i].argumentType);
        } else {
          AbortFails(literalTypeMap);
          ok := false;
        }
        if !ok {
          return;
        }
      }
      assert events[..|p.args|] == events;
      ok := true;
    }

    method VisitBaseFact(b: BaseFact) returns (ok: bool)
      modifies this
      ensures Ran(BaseEvents(env, b), ok)
    {
      match b
      case PredicateFact(p) =>
        ok := VisitPredicate(p);
      case AttributeFact(prin, p) =>
        RunConcat(literalTypeMap, PrincipalEvents([prin]), PredicateEvents(env, p));
        ok := VisitPrincipals([prin]);
        if ok {
          ok := VisitPredicate(p);
        }
      case CanActAs(l, r) =>
        ok := VisitPrincipals([l, r]);
    }

    method VisitFact(f: Fact) returns (ok: bool)
      modifies this
      ensures Ran(FactEvents(env, f), ok)
    {
      RunConcat(literalTypeMap, PrincipalEvents(f.delegationChain), BaseEvents(env, f.base));
      ok := VisitPrincipals(f.delegationChain);
      if ok {
        ok := VisitBaseFact(f.base);
      }
    }

    method VisitBody(body: seq<BaseFact>) returns (ok: bool)
      modifies this
      ensures Ran(BodyEvents(env, body), ok)
    {
      hide BaseEvents;
      for i := 0 to |body|
        invariant Run(old(literalTypeMap), BodyEvents(env, body[..i])) == Passed(literalTypeMap)
      {
        assert body[..i + 1][..i] == body[..i];
        RunConcat(old(literalTypeMap), BodyEvents(env, body[..i]), BaseEvents(env, body[i]));
        BodyEventsPrefix(env, body, i + 1, old(literalTypeMap));
        ok := VisitBaseFact(body[i]);
        if !ok {
          return;
        }
      }
      assert body[..|body|] == body;
      ok := true;
    }

    method VisitAssertion(a: Assertion) returns (ok: bool)
      modifies this
      ensures Ran(AssertionEvents(env, a), ok)
    {
      RunConcat(literalTypeMap, FactEvents(env, a.Head()), BodyEvents(env, a.Body()));
      ok := VisitFact(a.Head());
      if ok {
        ok := VisitBody(a.Body());
      }
    }

    method VisitSaysAssertions(says: seq<SaysAssertion>) returns (ok: bool)
      modifies this
      ensures Ran(SaysEvents(env, says), ok)
    {
      for i := 0 to |says|
        invariant Run(old(literalTypeMap), SaysEvents(env, says[..i])) == Passed(literalTypeMap)
      {
        assert says[..i + 1][..i] == says[..i];
        RunConcat(old(literalTypeMap), SaysEvents(env, says[..i]),
                  PrincipalEvents([says[i].principal]) + AssertionsEvents(env, says[i].assertions));
        SaysEventsPrefix(env, says, i + 1, old(literalTypeMap));
        ok := VisitSaysAssertion(says[i]);
        if !ok {
          return;
        }
      }
      assert says[..|says|] == says;
      ok := true;
    }

    method VisitAssertions(assertions: seq<Assertion>) returns (ok: bool)
      modifies this
      ensures Ran(AssertionsEvents(env, assertions), ok)
    {
      hide AssertionEvents;
      for i := 0 to |assertions|
        invariant Run(old(literalTypeMap), AssertionsEvents(env, assertions[..i])) == Passed(literalTypeMap)
      {
        assert assertions[..i + 1][..i] == assertions[..i];
        RunConcat(old(literalTypeMap), AssertionsEvents(env, assertions[..i]), AssertionEvents(env, assertions[i]));
        AssertionsEventsPrefix(env, assertions, i + 1, old(literalTypeMap));
        ok := VisitAssertion(assertions[i]);
        if !ok {
          return;
        }
      }
      assert assertions[..|assertions|] == assertions;
      ok := true;
    }

    method VisitSaysAssertion(says: SaysAssertion) returns (ok: bool)
      modifies this
      ensures Ran(PrincipalEvents([says.principal]) + AssertionsEvents(env, says.assertions), ok)
    {
      RunConcat(literalTypeMap, PrincipalEvents([says.principal]), AssertionsEvents(env, says.assertions));
      ok := VisitPrincipals([says.principal]);
      if ok {
        ok := VisitAssertions(says.assertions);
      }
    }

    method VisitQueries(qs: seq<Query>) returns (ok: bool)
      modifies this
      ensures Ran(QueryEvents(env, qs), ok)
    {
      for i := 0 to |qs|
        invariant Run(old(literalTypeMap), QueryEvents(env, qs[..i])) == Passed(literalTypeMap)
      {
        assert qs[..i + 1][..i] == qs[..i];
        ghost var events := PrincipalEvents([qs[i].principal]) + FactEvents(env, qs[i].fact);
        RunConcat(old(literalTypeMap), QueryEvents(env, qs[..i]), events);
        RunConcat(literalTypeMap, PrincipalEvents([qs[i].principal]), FactEvents(env, qs[i].fact));
        QueryEventsPrefix(env, qs, i + 1, old(literalTypeMap));
        ok := VisitPrincipals([qs[i].principal]);
        if ok {
          ok := VisitFact(qs[i].fact);
        }
        if !ok {
          return;
        }
      }
      assert qs[..|qs|] == qs;
      ok := true;
    }

    method VisitProgram(prog: AuthLogic.Program) returns (ok: bool)
      modifies this
      ensures Ran(ProgramEvents(env, prog), ok)
    {
      RunConcat(literalTypeMap, SaysEvents(env, prog.saysAssertions), QueryEvents(env, prog.queries));
      ok := VisitSaysAssertions(prog.saysAssertions);
      if ok {
        ok := VisitQueries(prog.queries);
      }
    }
  }

  lemma AbortFails(m: Typing)
    ensures Run(m, [Abort]) == CheckFailed
  {
  }

  lemma RunSplit(m: Typing, events: seq<Event>, i: nat)
    requires i < |events|
    ensures Run(m, events[..i + 1]) ==
            if Run(m, events[..i]).Passed? then Run(Run(m, events[..i]).value, [events[i]]) else CheckFailed
    ensures Run(m, events).Passed? ==> Run(m, events[..i + 1]).Passed?
  {
    assert events[..i + 1] == events[..i] + [events[i]];
    RunConcat(m, events[..i], [events[i]]);
    assert events == events[..i + 1] + events[i + 1..];
    RunConcat(m, events[..i + 1], events[i + 1..]);
  }

  lemma {:induction false} BodyEventsPrefix(env: Environment, body: seq<BaseFact>, k: nat, m: Typing)
    requires k <= |body|
    ensures Run(m, BodyEvents(env, body)).Passed? ==> Run(m, BodyEvents(env, body[..k])).Passed?
  {
    if k == |body| {
      assert body[..k] == body;
    } else {
      var init := body[..|body| - 1];
      RunConcat(m, BodyEvents(env, init), BaseEvents(env, body[|body| - 1]));
      BodyEventsPrefix(env, init, k, m);
      assert init[..k] == body[..k];
    }
  }

  lemma {:induction false} AssertionsEventsPrefix(env: Environment, assertions: seq<Assertion>, k: nat, m: Typing)
    requires k <= |assertions|
    ensures Run(m, AssertionsEvents(env, assertions)).Passed? ==> Run(m, AssertionsEvents(env, assertions[..k])).Passed?
  {
    if k == |assertions| {
      assert assertions[..k] == assertions;
    } else {
      var init := assertions[..|assertions| - 1];
      RunConcat(m, AssertionsEvents(env, init), AssertionEvents(env, assertions[|assertions| - 1]));
      AssertionsEventsPrefix(env, init, k, m);
      assert init[..k] == assertions[..k];
    }
  }

  lemma {:induction false} SaysEventsPrefix(env: Environment, says: seq<SaysAssertion>, k: nat, m: Typing)
    requires k <= |says|
    ensures Run(m, SaysEvents(env, says)).Passed? ==> Run(m, SaysEvents(env, says[..k])).Passed?
  {
    if k == |says| {
      assert says[..k] == says;
    } else {
      var init, last := says[..|says| - 1], says[|says| - 1];
      RunConcat(m, SaysEvents(env, init), PrincipalEvents([last.principal]) + AssertionsEvents(env, last.assertions));
      SaysEventsPrefix(env, init, k, m);
      assert init[..k] == says[..k];
    }
  }

  lemma {:induction false} QueryEventsPrefix(env: Environment, qs: seq<Query>, k: nat, m: Typing)
    requires k <= |qs|
    ensures Run(m, QueryEvents(env, qs)).Passed? ==> Run(m, QueryEvents(env, qs[..k])).Passed?
  {
    if k == |qs| {
      assert qs[..k] == qs;
    } else {
      var init, last := qs[..|qs| - 1], qs[|qs| - 1];
      RunConcat(m, QueryEvents(env, init), PrincipalEvents([last.principal]) + FactEvents(env, last.fact));
      QueryEventsPrefix(env, init, k, m);
      assert init[..k] == qs[..k];
    }
  }

  // ---------- Grounding conditions ----------

  /** One condition per variable among the first `k` arguments, of the type declared for its position. */
  function ArgumentConditions(d: RelationDeclaration, args: seq<string>, k: nat): seq<BaseFact>
    requires k <= |args|
  {
    if k == 0 then []
    else
      var before := ArgumentConditions(d, args, k - 1);
      if IsNameConstant(args[k - 1]) || k > |d.arguments| then before
      else before + [MembershipFact(args[k - 1], d.arguments[k - 1].argumentType)]
  }

  function PrincipalConditions(prin: string): seq<BaseFact> {
    if IsNameConstant(prin) then [] else [MembershipFact(prin, PrincipalType)]
  }

  function PredicateConditions(env: Environment, p: Predicate): seq<BaseFact> {
    if p.name in env then ArgumentConditions(env[p.name], p.args, |p.args|) else []
  }

  /** The conditions that make the variables of an assertion's head range over their universes. */
  function Conditions(env: Environment, b: BaseFact): seq<BaseFact> {
    match b
    case PredicateFact(p) => PredicateConditions(env, p)
    case AttributeFact(prin, p) => PrincipalConditions(prin) + PredicateConditions(env, p)
    case CanActAs(l, r) => PrincipalConditions(l) + PrincipalConditions(r)
  }

  /** The relation of a head is declared, with a type for each variable. */
  predicate PredicateIsDeclared(env: Environment, p: Predicate) {
    p.name in env && forall i :: 0 <= i < |p.args| && !IsNameConstant(p.args[i]) ==> i < |env[p.name].arguments|
  }

  predicate HeadIsDeclared(env: Environment, b: BaseFact) {
    b.CanActAs? || PredicateIsDeclared(env, b.pred)
  }

  function Conditioned(env: Environment, a: Assertion): Assertion {
    match a
    case FactAssertion(f) =>
      var conditions := Conditions(env, f.base);
      if |conditions| > 0 then ConditionalAssertion(f, conditions) else FactAssertion(f)
    case ConditionalAssertion(lhs, rhs) =>
      ConditionalAssertion(lhs, Conditions(env, lhs.base) + rhs)
  }

  function ConditionedSays(env: Environment, says: SaysAssertion): SaysAssertion {
    SaysAssertion(says.principal,
                  seq(|says.assertions|, i requires 0 <= i < |says.assertions| => Conditioned(env, says.assertions[i])))
  }

  predicate SaysIsDeclared(env: Environment, says: SaysAssertion) {
    forall a :: a in says.assertions ==> HeadIsDeclared(env, a.Head().base)
  }

  method VisitPredicateConditions(env: Environment, p: Predicate) returns (r: Checked<seq<BaseFact>>)
    ensures r == if PredicateIsDeclared(env, p) then Passed(PredicateConditions(env, p)) else CheckFailed
  {
    if p.name !in env {
      return CheckFailed;
    }
    var d := env[p.name];
    var conditions := [];
    for i := 0 to |p.args|
      invariant conditions == ArgumentConditions(d, p.args, i)
      invariant forall j :: 0 <= j < i && !IsNameConstant(p.args[j]) ==> j < |d.arguments|
    {
      if !IsNameConstant(p.args[i]) {
        if i >= |d.arguments| {
          return CheckFailed;
        }
        conditions := conditions + [MembershipFact(p.args[i], d.arguments[i].argumentType)];
      }
    }
    return Passed(conditions);
  }

  method GetUniverseConditions(env: Environment, b: BaseFact) returns (r: Checked<seq<BaseFact>>)
    ensures r == if HeadIsDeclared(env, b) then Passed(Conditions(env, b)) else CheckFailed
  {
    match b
    case PredicateFact(p) =>
      r := VisitPredicateConditions(env, p);
    case AttributeFact(prin, p) =>
      var more :- VisitPredicateConditions(env, p);
      return Passed(PrincipalConditions(prin) + more);
    case CanActAs(left, right) =>
      return Passed(PrincipalConditions(left) + PrincipalConditions(right));
  }

  method ConditionAssertion(env: Environment, a: Assertion) returns (r: Checked<Assertion>)
    ensures r == if HeadIsDeclared(env, a.Head().base) then Passed(Conditioned(env, a)) else CheckFailed
  {
    var conditions :- GetUniverseConditions(env, a.Head().base);
    match a
    case FactAssertion(f) =>
      return Passed(if |conditions| > 0 then ConditionalAssertion(f, conditions) else FactAssertion(f));
    case ConditionalAssertion(lhs, rhs) =>
      return Passed(ConditionalAssertion(lhs, conditions + rhs));
  }

  method AddUniverseConditions(env: Environment, says: SaysAssertion) returns (r: Checked<SaysAssertion>)
    ensures r == if SaysIsDeclared(env, says) then Passed(ConditionedSays(env, says)) else CheckFailed
  {
    hide HeadIsDeclared, Conditioned;
    var assertions := [];
    for i := 0 to |says.assertions|
      invariant assertions == ConditionedSays(env, says).assertions[..i]
      invariant forall j :: 0 <= j < i ==> HeadIsDeclared(env, says.assertions[j].Head().base)
    {
      assert says.assertions[i] in says.assertions;
      var a :- ConditionAssertion(env, says.assertions[i]);
      assertions := assertions + [a];
    }
    assert SaysIsDeclared(env, says);
    assert ConditionedSays(env, says).assertions[..|assertions|] == ConditionedSays(env, says).assertions;
    return Passed(SaysAssertion(says.principal, assertions));
  }

  // ---------- Populating the universes ----------

  /** `prin says isT(element)`. */
  function UniverseAssertion(prin: string, element: string, t: ArgumentType): SaysAssertion {
    SaysAssertion(prin, [FactAssertion(Fact([], MembershipFact(element, t)))])
  }

  /** `s` tells a principal constant of the program about the type of a constant of the program. */
  ghost predicate IsUniverseAssertion(typing: Typing, s: SaysAssertion) {
    exists prin, c :: prin in typing && typing[prin] == PrincipalType && c in typing && s == UniverseAssertion(prin, c, typing[c])
  }

  /** The part of the universe facts spoken by the principals in `prins`, about the constants in `cs`. */
  ghost predicate IsUniversePart(typing: Typing, prins: set<string>, s: SaysAssertion) {
    exists prin, c :: prin in prins && c in typing && s == UniverseAssertion(prin, c, typing[c])
  }

  function PrincipalConstants(typing: Typing): set<string> {
    set c | c in typing && typing[c] == PrincipalType
  }

  method UniverseFactsOf(typing: Typing, prin: string) returns (r: seq<SaysAssertion>)
    ensures forall s :: s in r <==> IsUniversePart(typing, {prin}, s)
  {
    r := [];
    var left := typing.Keys;
    while left != {}
      invariant left <= typing.Keys
      invariant forall s :: s in r <==> exists c :: c in typing && c !in left && s == UniverseAssertion(prin, c, typing[c])
      decreases |left|
    {
      var c :| c in left;
      ghost var before := r;
      r := r + [UniverseAssertion(prin, c, typing[c])];
      forall s
        ensures s in r <==> s in before || s == UniverseAssertion(prin, c, typing[c])
      {
        InConcat(before, [UniverseAssertion(prin, c, typing[c])], s);
      }
      left := left - {c};
    }
  }

  /** Both loops run over a hash map, in an arbitrary order. */
  method GetUniverseDefiningFacts(typing: Typing) returns (r: seq<SaysAssertion>)
    ensures forall s :: s in r <==> IsUniverseAssertion(typing, s)
  {
    hide IsUniversePart, IsUniverseAssertion, UniverseAssertion;
    r := [];
    forall s
      ensures !IsUniversePart(typing, {}, s)
    {
      NobodySpeaks(typing, s);
    }
    var left := PrincipalConstants(typing);
    ghost var principals, done := left, {};
    while left != {}
      invariant principals == left + done && left !! done
      invariant forall s :: s in r <==> IsUniversePart(typing, done, s)
      decreases |left|
    {
      var prin :| prin in left;
      var more := UniverseFactsOf(typing, prin);
      forall s
        ensures s in r + more <==> IsUniversePart(typing, done + {prin}, s)
      {
        InConcat(r, more, s);
        OneMoreSpeaks(typing, done, prin, s);
      }
      r := r + more;
      left, done := left - {prin}, done + {prin};
    }
    assert done == principals;
    forall s
      ensures IsUniversePart(typing, principals, s) <==> IsUniverseAssertion(typing, s)
    {
      AllPartsAreTheWhole(typing, s);
    }
  }

  lemma NobodySpeaks(typing: Typing, s: SaysAssertion)
    ensures !IsUniversePart(typing, {}, s)
  {
  }

  lemma OneMoreSpeaks(typing: Typing, prins: set<string>, prin: string, s: SaysAssertion)
    ensures IsUniversePart(typing, prins + {prin}, s) <==> IsUniversePart(typing, prins, s) || IsUniversePart(typing, {prin}, s)
  {
  }

  lemma AllPartsAreTheWhole(typing: Typing, s: SaysAssertion)
    ensures IsUniversePart(typing, PrincipalConstants(typing), s) <==> IsUniverseAssertion(typing, s)
  {
    var principals := PrincipalConstants(typing);
    if prin, c :| prin in principals && c in typing && s == UniverseAssertion(prin, c, typing[c]) {
      assert IsUniverseAssertion(typing, s);
    }
    if prin, c :| prin in typing && typing[prin] == PrincipalType && c in typing && s == UniverseAssertion(prin, c, typing[c]) {
      assert prin in principals;
    }
  }

  /** `t` is a built-in type or the type of a declared argument. */
  ghost predicate TypeOccurs(ds: seq<RelationDeclaration>, t: ArgumentType) {
    t == NumberType || t == PrincipalType || exists d, a :: d in ds && a in d.arguments && a.argumentType == t
  }

  function ArgumentTypes(d: RelationDeclaration): set<ArgumentType> {
    set i | 0 <= i < |d.arguments| :: d.arguments[i].argumentType
  }

  /** The declarations are collected in a hash set and appended in an arbitrary order. */
  method GetUniverseDeclarations(ds: seq<RelationDeclaration>) returns (r: seq<RelationDeclaration>)
    ensures forall d :: d in r ==> exists t :: TypeOccurs(ds, t) && d == UniverseDeclaration(t)
    ensures forall t :: TypeOccurs(ds, t) ==> UniverseDeclaration(t) in r
    ensures forall i, j :: 0 <= i < j < |r| ==> r[i] != r[j]
  {
    var types: set<ArgumentType> := {NumberType, PrincipalType};
    for i := 0 to |ds|
      invariant forall t :: t in types ==> TypeOccurs(ds, t)
      invariant {NumberType, PrincipalType} <= types
      invariant forall j :: 0 <= j < i ==> ArgumentTypes(ds[j]) <= types
    {
      forall t | t in ArgumentTypes(ds[i])
        ensures TypeOccurs(ds, t)
      {
        var k :| 0 <= k < |ds[i].arguments| && ds[i].arguments[k].argumentType == t;
        assert ds[i] in ds && ds[i].arguments[k] in ds[i].arguments;
      }
      types := types + ArgumentTypes(ds[i]);
    }
    forall t | TypeOccurs(ds, t)
      ensures t in types
    {
      if t != NumberType && t != PrincipalType {
        var d, a :| d in ds && a in d.arguments && a.argumentType == t;
        var j := IndexOf(ds, d);
        var k := IndexOf(d.arguments, a);
        assert t in ArgumentTypes(ds[j]);
      }
    }
    r := [];
    var left := types;
    while left != {}
      invariant left <= types
      invariant forall d :: d in r ==> exists t :: TypeOccurs(ds, t) && d == UniverseDeclaration(t)
      invariant forall t :: t in types - left ==> UniverseDeclaration(t) in r
      invariant forall i :: 0 <= i < |r| ==> |r[i].arguments| == 1 && r[i].arguments[0].argumentType !in left
      invariant forall i, j :: 0 <= i < j < |r| ==> r[i] != r[j]
      decreases |left|
    {
      var t :| t in left;
      r := r + [UniverseDeclaration(t)];
      left := left - {t};
    }
  }

  /** One declaration for the universe of each type that occurs, and no others. */
  ghost predicate AreUniverseDeclarations(ds: seq<RelationDeclaration>, more: seq<RelationDeclaration>) {
    (forall d :: d in more ==> exists t :: TypeOccurs(ds, t) && d == UniverseDeclaration(t)) &&
    (forall t :: TypeOccurs(ds, t) ==> UniverseDeclaration(t) in more) &&
    (forall i, j :: 0 <= i < j < |more| ==> more[i] != more[j])
  }

  /** `out` is `prog` with universe relations, given its declarations and the types of its constants. */
  ghost predicate IsInsertion(prog: AuthLogic.Program, env: Environment, typing: Typing, out: AuthLogic.Program) {
    var added := |out.saysAssertions| - |prog.saysAssertions|;
    Declares(prog.declarations, env) &&
    Run(map[], ProgramEvents(env, prog)) == Passed(typing) &&
    (forall s :: s in prog.saysAssertions ==> SaysIsDeclared(env, s)) &&
    added >= 0 &&
    (forall s :: s in out.saysAssertions[..added] <==> IsUniverseAssertion(typing, s)) &&
    (forall i :: 0 <= i < |prog.saysAssertions| ==>
      out.saysAssertions[added..][i] == ConditionedSays(env, prog.saysAssertions[i])) &&
    prog.declarations <= out.declarations &&
    AreUniverseDeclarations(prog.declarations, out.declarations[|prog.declarations|..]) &&
    out.queries == prog.queries
  }

  /** When the pass does not abort. */
  ghost predicate CanInsert(prog: AuthLogic.Program, env: Environment) {
    Declares(prog.declarations, env) && Run(map[], ProgramEvents(env, prog)).Passed? &&
    forall s :: s in prog.saysAssertions ==> SaysIsDeclared(env, s)
  }

  method InsertUniverseRelations(prog: AuthLogic.Program)
    returns (r: Checked<AuthLogic.Program>, ghost env: Environment, ghost typing: Typing)
    ensures DistinctNames(prog.declarations) ==> Declares(prog.declarations, env)
    ensures r.Passed? <==> DistinctNames(prog.declarations) && CanInsert(prog, env)
    ensures r.Passed? ==> IsInsertion(prog, env, typing, r.value)
  {
    hide SaysIsDeclared, ConditionedSays, IsUniverseAssertion, ProgramEvents, Run, TypeOccurs;
    env, typing := map[], map[];
    var declared :- DeclarationEnvironment(prog.declarations);
    env := declared;
    var visitor := new TypeEnvironmentVisitor(declared);
    var ok := visitor.VisitProgram(prog);
    if !ok {
      return CheckFailed, env, typing;
    }
    typing := visitor.literalTypeMap;
    var universe := GetUniverseDefiningFacts(visitor.literalTypeMap);
    var says := [];
    for i := 0 to |prog.saysAssertions|
      invariant |says| == i
      invariant forall j :: 0 <= j < i ==> SaysIsDeclared(env, prog.saysAssertions[j])
      invariant forall j :: 0 <= j < i ==> says[j] == ConditionedSays(env, prog.saysAssertions[j])
    {
      assert prog.saysAssertions[i] in prog.saysAssertions;
      var more :- AddUniverseConditions(declared, prog.saysAssertions[i]);
      says := says + [more];
    }
    var declarations := GetUniverseDeclarations(prog.declarations);
    var out := AuthLogic.Program(prog.declarations + declarations, universe + says, prog.queries);
    assert out.saysAssertions[..|universe|] == universe && out.saysAssertions[|universe|..] == says;
    assert out.declarations[|prog.declarations|..] == declarations;
    return Passed(out), env, typing;
  }
}
