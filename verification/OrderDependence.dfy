/**
 Where the least fixpoint ends: a policy rule that adds confidentiality under a
 precondition makes the verdict depend on the order of the pops, already for a
 query of one column and one literal.
 */
module OrderDependence {
  import opened IfcTags
  import opened TaintRules
  import opened IrModule
  import opened Transfer
  import opened Fixpoint
  import opened PolicyChecker
  import opened SqlOps

  const STORE := StoredValue("column")
  const FROM_LITERAL := OperationResult(0, 0)
  const COMBINED := OperationResult(1, 0)
  const EGRESS := {SQL_OUTPUT_OP}

  // ---------- A literal, a transform and an output ----------

  /** The transform's first input is a stored value; its premises are about the literal. */
  ghost predicate IsSample(m: Module, rules: InferenceRules, tag: TagId, premises: seq<Premise>) {
    m.operations.Keys == {0, 1, 2} &&
    m.operations[0].inputs == [] && m.operations[0].outputs == 1 && m.operations[0].name != SQL_OUTPUT_OP &&
    m.operations[1].outputs == 1 && m.operations[1].name != SQL_OUTPUT_OP &&
    |m.operations[1].inputs| >= 2 && m.operations[1].inputs[0] == STORE &&
    (forall k :: 1 <= k < |m.operations[1].inputs| ==> m.operations[1].inputs[k] == FROM_LITERAL) &&
    m.operations[2].inputs == [COMBINED] && m.operations[2].outputs == 1 && m.operations[2].name == SQL_OUTPUT_OP &&
    premises != [] && (forall p :: p in premises ==> 1 <= p.index < |m.operations[1].inputs|) &&
    rules.RulesFor(0) == map[] && rules.RulesFor(2) == map[] &&
    rules.RulesFor(1) == map[0 := TransformShape(AddSecrecy, tag, premises)]
  }

  lemma InitialSample(m: Module, rules: InferenceRules, tag: TagId, premises: seq<Premise>)
    requires IsSample(m, rules, tag, premises)
    ensures InitialConfig(m) == Config(map[STORE := INITIAL], {0, 1})
  {
    var c := InitialConfig(m);
    assert STORE in m.operations[1].inputs;
    forall v
      ensures v in Entries(m) <==> v == STORE
    {
      EntriesAreEntries(m, v);
      if v == STORE {
        assert 1 in m.operations && v in m.operations[1].inputs;
      }
    }
    assert c.states == map[STORE := INITIAL];
    assert !IsSeed(m, 2);
    forall o
      ensures o in c.worklist <==> o in {0, 1}
    {
    }
  }

  lemma SampleUsers(m: Module, rules: InferenceRules, tag: TagId, premises: seq<Premise>)
    requires IsSample(m, rules, tag, premises)
    ensures Users(m, FROM_LITERAL) == {1} && Users(m, COMBINED) == {2} && Users(m, OperationResult(2, 0)) == {}
    ensures ResultsOf(m, 0) == {FROM_LITERAL} && ResultsOf(m, 1) == {COMBINED} && ResultsOf(m, 2) == {OperationResult(2, 0)}
  {
    assert m.operations[1].inputs[1] == FROM_LITERAL;
    assert m.operations[2].inputs[0] == COMBINED;
  }

  // ---------- What the operations produce ----------

  lemma LiteralProduces(m: Module, rules: InferenceRules, tag: TagId, premises: seq<Premise>, x: States)
    requires IsSample(m, rules, tag, premises) && InBounds(m, rules)
    ensures Outputs(m, rules, x, 0) == [INITIAL]
  {
    assert InputStates(m, x, 0) == [];
  }

  /** The secret is added while the literal has not been reached, and only then. */
  lemma TransformProduces(m: Module, rules: InferenceRules, tag: TagId, premises: seq<Premise>, x: States)
    requires IsSample(m, rules, tag, premises) && InBounds(m, rules)
    requires Get(x, STORE) == INITIAL && Get(x, FROM_LITERAL) in {Bottom, INITIAL}
    ensures Outputs(m, rules, x, 1) == [if Get(x, FROM_LITERAL).Bottom? then Tags({tag}, {}) else INITIAL]
  {
    var ins := InputStates(m, x, 1);
    var rule := InferenceRule(ModifyTag(AddSecrecy, tag), premises);
    var own := TransformShape(AddSecrecy, tag, premises);
    assert rules.RulesFor(1)[0] == own && own[1] in own;
    ApplyTransformShape(AddSecrecy, tag, premises, ins, DefaultState(ins));
    assert ins[0] == INITIAL;
    forall p | p in premises
      ensures PremiseHolds(p, ins) <==> Get(x, FROM_LITERAL).Bottom?
    {
      assert m.operations[1].inputs[p.index] == FROM_LITERAL;
    }
    assert premises[0] in premises;
    assert PremisesHold(rule, ins) <==> Get(x, FROM_LITERAL).Bottom?;
    assert INITIAL.SetSecrecy(tag) == Tags({tag}, {});
  }

  lemma OutputProduces(m: Module, rules: InferenceRules, tag: TagId, premises: seq<Premise>, x: States)
    requires IsSample(m, rules, tag, premises) && InBounds(m, rules)
    requires Get(x, COMBINED).Tags? && Get(x, COMBINED).integrity == {}
    ensures Outputs(m, rules, x, 2) == [Get(x, COMBINED)]
  {
    var ins := InputStates(m, x, 2);
    assert ins == [Get(x, COMBINED)];
    assert ins[..0] == [];
    assert JoinAll(ins) == ins[0];
  }

  lemma UsersOfOne(m: Module, v: Value)
    ensures UsersOf(m, {v}) == Users(m, v) && UsersOf(m, {}) == {}
  {
  }

  /** Processing an operation with one result. */
  lemma OneResult(m: Module, rules: InferenceRules, c: Config, o: OpId, v: Value, out: Tags)
    requires InBounds(m, rules) && o in m.operations && m.operations[o].outputs == 1
    requires ResultsOf(m, o) == {v} && v.OperationResult? && v.index == 0
    requires Outputs(m, rules, c.states, o) == [out]
    ensures
      var t := Get(c.states, v).Join(out);
      Next(m, rules, c, o) ==
        Config(c.states[v := t],
               c.worklist - {o} + if v !in c.states || t != c.states[v] then Users(m, v) else {})
  {
    hide InBounds, Users, ResultsOf;
    UsersOfOne(m, v);
    var x := c.states;
    var t := Get(x, v).Join(out);
    assert Push(m, x, o, [out]) == x[v := t];
    assert Written(m, x, o, [out]) == if v !in x || t != x[v] then {v} else {};
  }

  // ---------- The steps ----------

  lemma PopLiteral(m: Module, rules: InferenceRules, tag: TagId, premises: seq<Premise>, c: Config)
    requires IsSample(m, rules, tag, premises) && InBounds(m, rules) && FROM_LITERAL !in c.states
    ensures Next(m, rules, c, 0) == Config(c.states[FROM_LITERAL := INITIAL], c.worklist - {0} + {1})
  {
    LiteralProduces(m, rules, tag, premises, c.states);
    SampleUsers(m, rules, tag, premises);
    hide InBounds, Next, Outputs, Users, ResultsOf;
    OneResult(m, rules, c, 0, FROM_LITERAL, INITIAL);
  }

  lemma PopTransform(m: Module, rules: InferenceRules, tag: TagId, premises: seq<Premise>, c: Config)
    requires IsSample(m, rules, tag, premises) && InBounds(m, rules)
    requires Get(c.states, STORE) == INITIAL && Get(c.states, FROM_LITERAL) in {Bottom, INITIAL}
    ensures
      var out := if Get(c.states, FROM_LITERAL).Bottom? then Tags({tag}, {}) else INITIAL;
      var t := Get(c.states, COMBINED).Join(out);
      Next(m, rules, c, 1) ==
        Config(c.states[COMBINED := t],
               c.worklist - {1} + if COMBINED !in c.states || t != c.states[COMBINED] then {2} else {})
  {
    TransformProduces(m, rules, tag, premises, c.states);
    SampleUsers(m, rules, tag, premises);
    hide InBounds, Next, Outputs, Users, ResultsOf;
    OneResult(m, rules, c, 1, COMBINED, if Get(c.states, FROM_LITERAL).Bottom? then Tags({tag}, {}) else INITIAL);
  }

  lemma PopOutput(m: Module, rules: InferenceRules, tag: TagId, premises: seq<Premise>, c: Config)
    requires IsSample(m, rules, tag, premises) && InBounds(m, rules) && OperationResult(2, 0) !in c.states
    requires Get(c.states, COMBINED).Tags? && Get(c.states, COMBINED).integrity == {}
    ensures Next(m, rules, c, 2) == Config(c.states[OperationResult(2, 0) := Get(c.states, COMBINED)], c.worklist - {2})
  {
    OutputProduces(m, rules, tag, premises, c.states);
    SampleUsers(m, rules, tag, premises);
    hide InBounds, Next, Outputs, Users, ResultsOf;
    OneResult(m, rules, c, 2, OperationResult(2, 0), Get(c.states, COMBINED));
  }

  // ---------- Two runs ----------

  /** The states before the output is popped; `combined` is bottom until the transform is. */
  function At(reached: bool, combined: Tags): States {
    map[STORE := INITIAL] + (if reached then map[FROM_LITERAL := INITIAL] else map[]) +
    if combined.Tags? then map[COMBINED := combined] else map[]
  }

  function FinalStates(combined: Tags): States {
    At(true, combined) + map[OperationResult(2, 0) := combined]
  }

  lemma ReachLiteral(m: Module, rules: InferenceRules, tag: TagId, premises: seq<Premise>, t: Tags, w: set<OpId>)
    requires IsSample(m, rules, tag, premises) && InBounds(m, rules)
    ensures Next(m, rules, Config(At(false, t), w), 0) == Config(At(true, t), w - {0} + {1})
  {
    hide InBounds, Next, IsSample;
    PopLiteral(m, rules, tag, premises, Config(At(false, t), w));
    assert At(false, t)[FROM_LITERAL := INITIAL] == At(true, t);
  }

  /** The first time the transform is popped. */
  lemma ReachTransform(m: Module, rules: InferenceRules, tag: TagId, premises: seq<Premise>, reached: bool, w: set<OpId>)
    requires IsSample(m, rules, tag, premises) && InBounds(m, rules)
    ensures Next(m, rules, Config(At(reached, Bottom), w), 1) ==
            Config(At(reached, if reached then INITIAL else Tags({tag}, {})), w - {1} + {2})
  {
    hide InBounds, Next, IsSample;
    PopTransform(m, rules, tag, premises, Config(At(reached, Bottom), w));
    var t := if reached then INITIAL else Tags({tag}, {});
    assert At(reached, Bottom)[COMBINED := t] == At(reached, t);
  }

  /** Popped again, the transform does not take the secret back. */
  lemma KeepSecret(m: Module, rules: InferenceRules, tag: TagId, premises: seq<Premise>, w: set<OpId>)
    requires IsSample(m, rules, tag, premises) && InBounds(m, rules)
    ensures Next(m, rules, Config(At(true, Tags({tag}, {})), w), 1) == Config(At(true, Tags({tag}, {})), w - {1})
  {
    hide InBounds, Next, IsSample;
    var t := Tags({tag}, {});
    PopTransform(m, rules, tag, premises, Config(At(true, t), w));
    assert t.Join(INITIAL) == t;
    assert At(true, t)[COMBINED := t] == At(true, t);
  }

  lemma ReachOutput(m: Module, rules: InferenceRules, tag: TagId, premises: seq<Premise>, t: Tags, w: set<OpId>)
    requires IsSample(m, rules, tag, premises) && InBounds(m, rules) && t.Tags? && t.integrity == {}
    ensures Next(m, rules, Config(At(true, t), w), 2) == Config(FinalStates(t), w - {2})
  {
    hide InBounds, Next, IsSample;
    PopOutput(m, rules, tag, premises, Config(At(true, t), w));
    assert At(true, t)[OperationResult(2, 0) := t] == FinalStates(t);
  }

  lemma StartOfSample(m: Module, rules: InferenceRules, tag: TagId, premises: seq<Premise>)
    requires IsSample(m, rules, tag, premises)
    ensures InitialConfig(m) == Config(At(false, Bottom), {0, 1}) && m.operations.Keys == {0, 1, 2}
  {
    InitialSample(m, rules, tag, premises);
  }

  /** Popping the transform before the literal it depends on. */
  lemma TransformFirst(m: Module, rules: InferenceRules, tag: TagId, premises: seq<Premise>)
    requires IsSample(m, rules, tag, premises) && InBounds(m, rules)
    ensures IsRun(m, rules, InitialConfig(m), [1, 0, 1, 2], Config(FinalStates(Tags({tag}, {})), {}))
  {
    hide InBounds, Next, InitialConfig, IsRun, IsSample, At, FinalStates;
    StartOfSample(m, rules, tag, premises);
    var s := Tags({tag}, {});
    ReachTransform(m, rules, tag, premises, false, {0, 1});
    assert {0, 1} - {1} + {2} == {0, 2};
    ReachLiteral(m, rules, tag, premises, s, {0, 2});
    assert {0, 2} - {0} + {1} == {1, 2};
    KeepSecret(m, rules, tag, premises, {1, 2});
    assert {1, 2} - {1} == {2};
    ReachOutput(m, rules, tag, premises, s, {2});
    assert {2} - {2} == {};
    FourPops(m, rules, InitialConfig(m), 1, 0, 1, 2);
  }

  lemma LiteralFirst(m: Module, rules: InferenceRules, tag: TagId, premises: seq<Premise>)
    requires IsSample(m, rules, tag, premises) && InBounds(m, rules)
    ensures IsRun(m, rules, InitialConfig(m), [0, 1, 2], Config(FinalStates(INITIAL), {}))
  {
    hide InBounds, Next, InitialConfig, IsRun, IsSample, At, FinalStates;
    StartOfSample(m, rules, tag, premises);
    ReachLiteral(m, rules, tag, premises, Bottom, {0, 1});
    assert {0, 1} - {0} + {1} == {1};
    ReachTransform(m, rules, tag, premises, true, {1});
    assert {1} - {1} + {2} == {2};
    ReachOutput(m, rules, tag, premises, INITIAL, {2});
    assert {2} - {2} == {};
    ThreePops(m, rules, InitialConfig(m), 0, 1, 2);
  }

  lemma FourPops(m: Module, rules: InferenceRules, start: Config, a: OpId, b: OpId, c: OpId, d: OpId)
    requires InBounds(m, rules) && {a, b, c, d} <= m.operations.Keys && a in start.worklist
    requires
      var c1 := Next(m, rules, start, a);
      var c2 := Next(m, rules, c1, b);
      b in c1.worklist && c in c2.worklist && d in Next(m, rules, c2, c).worklist
    ensures
      var c3 := Next(m, rules, Next(m, rules, Next(m, rules, start, a), b), c);
      IsRun(m, rules, start, [a, b, c, d], Next(m, rules, c3, d))
  {
    hide InBounds, Next, IsRun;
    ThreePops(m, rules, start, a, b, c);
    var c3 := Next(m, rules, Next(m, rules, Next(m, rules, start, a), b), c);
    assert [a, b, c] + [d] == [a, b, c, d];
    OneMorePop(m, rules, start, [a, b, c], c3, d);
  }

  lemma ThreePops(m: Module, rules: InferenceRules, start: Config, a: OpId, b: OpId, c: OpId)
    requires InBounds(m, rules) && {a, b, c} <= m.operations.Keys && a in start.worklist
    requires
      var c1 := Next(m, rules, start, a);
      b in c1.worklist && c in Next(m, rules, c1, b).worklist
    ensures IsRun(m, rules, start, [a, b, c], Next(m, rules, Next(m, rules, Next(m, rules, start, a), b), c))
  {
    hide InBounds, Next, IsRun;
    NoPops(m, rules, start);
    assert [] + [a] == [a] && [a] + [b] == [a, b] && [a, b] + [c] == [a, b, c];
    OneMorePop(m, rules, start, [], start, a);
    OneMorePop(m, rules, start, [a], Next(m, rules, start, a), b);
    OneMorePop(m, rules, start, [a, b], Next(m, rules, Next(m, rules, start, a), b), c);
  }

  /** The only input of the output operation is what the transform produced. */
  lemma VerdictOnCombined(m: Module, rules: InferenceRules, tag: TagId, premises: seq<Premise>, t: Tags)
    requires IsSample(m, rules, tag, premises) && t.Tags?
    ensures IsCompliant(m, EGRESS, FinalStates(t)) <==> t.HasNoSecrecy()
  {
    assert m.operations[2].inputs[0] == COMBINED;
    assert COMBINED in m.operations[2].inputs && 2 in m.operations;
    assert IsEgressInput(m, EGRESS, COMBINED);
    forall v | IsEgressInput(m, EGRESS, v)
      ensures v == COMBINED
    {
    }
  }

  /** Both runs are complete and their verdicts differ. */
  lemma PopOrderDecidesVerdict(m: Module, rules: InferenceRules, tag: TagId, premises: seq<Premise>)
    returns (pops: seq<OpId>, c: Config, pops': seq<OpId>, c': Config)
    requires IsSample(m, rules, tag, premises) && InBounds(m, rules)
    ensures IsRun(m, rules, InitialConfig(m), pops, c) && c.worklist == {} && !IsCompliant(m, EGRESS, c.states)
    ensures IsRun(m, rules, InitialConfig(m), pops', c') && c'.worklist == {} && IsCompliant(m, EGRESS, c'.states)
  {
    hide IsRun, InBounds, InitialConfig, IsSample, IsCompliant, FinalStates;
    TransformFirst(m, rules, tag, premises);
    LiteralFirst(m, rules, tag, premises);
    VerdictOnCombined(m, rules, tag, premises, Tags({tag}, {}));
    VerdictOnCombined(m, rules, tag, premises, INITIAL);
    pops, pops' := [1, 0, 1, 2], [0, 1, 2];
    c, c' := Config(FinalStates(Tags({tag}, {})), {}), Config(FinalStates(INITIAL), {});
    assert tag in {tag};
  }
}
