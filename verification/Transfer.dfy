/**
 The transfer equations of the taint analysis and the steps of the worklist
 iteration, as relations on states.
 */
module Transfer {
  import opened Inference
  import opened IfcTags
  import opened TaintRules
  import opened IrModule

  type States = map<Value, Tags>

  /** Values without a state have not been reached. */
  function Get(x: States, v: Value): Tags {
    if v in x then x[v] else Bottom
  }

  function InputStates(m: Module, x: States, o: OpId): (r: seq<Tags>)
    requires o in m.operations
    ensures |r| == |m.operations[o].inputs|
  {
    var ins := m.operations[o].inputs;
    seq(|ins|, k requires 0 <= k < |ins| => Get(x, ins[k]))
  }

  /** The rules never refer to an input or output that an operation of the module does not have. */
  predicate InBounds(m: Module, rules: InferenceRules) {
    forall o :: o in m.operations ==>
      OutputRulesInBounds(rules.RulesFor(o), |m.operations[o].inputs|, m.operations[o].outputs)
  }

  /** What operation `o` produces at output `i`, given the states `x`. */
  function TransferState(m: Module, rules: InferenceRules, x: States, o: OpId, i: nat): Tags
    requires InBounds(m, rules) && o in m.operations
  {
    OutputState(rules.RulesFor(o), InputStates(m, x, o), i)
  }

  predicate IsRestrictedTable(m: Module, rules: InferenceRules) {
    forall o, i :: o in m.operations && i in rules.RulesFor(o) ==> AllRestricted(rules.RulesFor(o)[i])
  }

  // ---------- Solutions ----------

  /** An input that no operation produces. */
  predicate IsEntry(m: Module, v: Value) {
    !v.OperationResult? && exists o :: o in m.operations && v in m.operations[o].inputs
  }

  ghost predicate IsResult(m: Module, v: Value) {
    v.OperationResult? && HasResult(m, v.op, v.index)
  }

  /** `x` is above everything the operations produce from it. */
  ghost predicate IsPostSolution(m: Module, rules: InferenceRules, x: States)
    requires InBounds(m, rules)
  {
    (forall v :: IsEntry(m, v) ==> INITIAL.Leq(Get(x, v))) &&
    (forall o, i: nat :: HasResult(m, o, i) ==> TransferState(m, rules, x, o, i).Leq(Get(x, OperationResult(o, i))))
  }

  /** `x` satisfies the transfer equations. */
  ghost predicate IsSolution(m: Module, rules: InferenceRules, x: States)
    requires InBounds(m, rules)
  {
    (forall v :: IsEntry(m, v) ==> Get(x, v) == INITIAL) &&
    (forall o, i: nat :: HasResult(m, o, i) ==> Get(x, OperationResult(o, i)) == TransferState(m, rules, x, o, i)) &&
    (forall v :: v in x ==> IsEntry(m, v) || IsResult(m, v))
  }

  predicate Below(x: States, y: States) {
    forall v :: v in x ==> x[v].Leq(Get(y, v))
  }

  ghost predicate IsLeastSolution(m: Module, rules: InferenceRules, x: States)
    requires InBounds(m, rules)
  {
    IsSolution(m, rules, x) && forall y :: IsPostSolution(m, rules, y) ==> Below(x, y)
  }

  lemma BelowInputs(m: Module, x: States, y: States, o: OpId)
    requires o in m.operations && Below(x, y)
    ensures AllLeq(InputStates(m, x, o), InputStates(m, y, o))
  {
  }

  /** With restricted rules, larger states produce larger states. */
  lemma TransferIsMonotone(m: Module, rules: InferenceRules, x: States, y: States, o: OpId, i: nat)
    requires InBounds(m, rules) && IsRestrictedTable(m, rules) && HasResult(m, o, i) && Below(x, y)
    ensures TransferState(m, rules, x, o, i).Leq(TransferState(m, rules, y, o, i))
  {
    BelowInputs(m, x, y, o);
    TransformerIsMonotone(rules.RulesFor(o), InputStates(m, x, o), InputStates(m, y, o), i);
  }

  // ---------- Which values are ever reached ----------

  /** A result is reached when its operation needs no input or one of its inputs is reached. */
  ghost predicate IsReachStep(m: Module, s: Step<Value>) {
    (s.body == [] && IsEntry(m, s.head)) ||
    (IsResult(m, s.head) && s.body == [] && m.operations[s.head.op].inputs == []) ||
    (IsResult(m, s.head) && |s.body| == 1 && s.body[0] in m.operations[s.head.op].inputs)
  }

  ghost function ReachSteps(m: Module): iset<Step<Value>> {
    iset s: Step<Value> | IsReachStep(m, s)
  }

  ghost function Reachable(m: Module): iset<Value> {
    LeastModel(ReachSteps(m))
  }

  lemma ReachEntry(m: Module, v: Value)
    requires IsEntry(m, v)
    ensures v in Reachable(m)
  {
    var s: Step<Value> := Step(v, []);
    assert IsReachStep(m, s);
    Infer(ReachSteps(m), s);
  }

  lemma ReachResult(m: Module, o: OpId, i: nat, k: nat)
    requires HasResult(m, o, i)
    requires m.operations[o].inputs == [] || (k < |m.operations[o].inputs| && m.operations[o].inputs[k] in Reachable(m))
    ensures OperationResult(o, i) in Reachable(m)
  {
    var body := if m.operations[o].inputs == [] then [] else [m.operations[o].inputs[k]];
    var s := Step(OperationResult(o, i), body);
    assert IsReachStep(m, s);
    Infer(ReachSteps(m), s);
  }

  // ---------- The worklist iteration ----------

  datatype Config = Config(states: States, worklist: set<OpId>)

  function Entries(m: Module): set<Value> {
    set o, v | o in m.operations && v in m.operations[o].inputs && !v.OperationResult? :: v
  }

  /** All entry values are seeded; operations without inputs or that use an entry value are enqueued. */
  function InitialStates(m: Module): States {
    map v | v in Entries(m) :: INITIAL
  }

  predicate IsSeed(m: Module, o: OpId) {
    o in m.operations && (m.operations[o].inputs == [] || exists v :: v in m.operations[o].inputs && !v.OperationResult?)
  }

  function InitialConfig(m: Module): Config {
    Config(InitialStates(m), set o | o in m.operations && IsSeed(m, o))
  }

  /** Joins what an operation produced into the states of its results. */
  function Push(m: Module, x: States, o: OpId, outs: seq<Tags>): States
    requires o in m.operations && |outs| == m.operations[o].outputs
  {
    x + map v | v in ResultsOf(m, o) :: Get(x, v).Join(outs[v.index])
  }

  function Outputs(m: Module, rules: InferenceRules, x: States, o: OpId): (r: seq<Tags>)
    requires InBounds(m, rules) && o in m.operations
    ensures |r| == m.operations[o].outputs
  {
    seq(m.operations[o].outputs, i requires 0 <= i < m.operations[o].outputs => TransferState(m, rules, x, o, i))
  }

  /** The results that are written: on a first visit, or because the state grew. */
  function Written(m: Module, x: States, o: OpId, outs: seq<Tags>): set<Value>
    requires o in m.operations && |outs| == m.operations[o].outputs
  {
    set v | v in ResultsOf(m, o) && (v !in x || Push(m, x, o, outs)[v] != x[v])
  }

  function UsersOf(m: Module, vs: set<Value>): set<OpId> {
    set u, v | v in vs && u in Users(m, v) :: u
  }

  /** Popping and processing operation `o`. */
  function Next(m: Module, rules: InferenceRules, c: Config, o: OpId): Config
    requires InBounds(m, rules) && o in m.operations
  {
    var outs := Outputs(m, rules, c.states, o);
    Config(Push(m, c.states, o, outs), c.worklist - {o} + UsersOf(m, Written(m, c.states, o, outs)))
  }

  // ---------- What every step keeps ----------

  predicate IsUntouched(m: Module, x: States, o: OpId)
    requires o in m.operations
  {
    m.operations[o].inputs != [] && forall k :: 0 <= k < |m.operations[o].inputs| ==> m.operations[o].inputs[k] !in x
  }

  /** Processing `o` again would change nothing. */
  ghost predicate IsSettled(m: Module, rules: InferenceRules, x: States, o: OpId)
    requires InBounds(m, rules) && o in m.operations
  {
    IsUntouched(m, x, o) ||
    forall i: nat :: i < m.operations[o].outputs ==>
      OperationResult(o, i) in x && TransferState(m, rules, x, o, i).Leq(x[OperationResult(o, i)])
  }

  ghost predicate IsKnown(m: Module, x: States) {
    (forall v :: IsEntry(m, v) ==> v in x && x[v] == INITIAL) &&
    (forall v :: v in x ==> v in Reachable(m) && (IsEntry(m, v) || IsResult(m, v)))
  }

  ghost predicate IsSound(m: Module, rules: InferenceRules, c: Config)
    requires InBounds(m, rules)
  {
    IsKnown(m, c.states) &&
    (forall o :: o in c.worklist ==> o in m.operations && !IsUntouched(m, c.states, o)) &&
    (forall o :: o in m.operations && o !in c.worklist ==> IsSettled(m, rules, c.states, o))
  }

  lemma EntriesAreEntries(m: Module, v: Value)
    ensures v in Entries(m) <==> IsEntry(m, v)
  {
  }

  lemma InitialIsKnown(m: Module)
    ensures IsKnown(m, InitialStates(m))
  {
    hide IsEntry, Entries;
    forall v
      ensures v in Entries(m) <==> IsEntry(m, v)
      ensures IsEntry(m, v) ==> v in Reachable(m)
    {
      EntriesAreEntries(m, v);
      if IsEntry(m, v) {
        ReachEntry(m, v);
      }
    }
  }

  lemma SeedsAreTouched(m: Module, o: OpId)
    requires o in m.operations
    ensures IsSeed(m, o) <==> !IsUntouched(m, InitialStates(m), o)
  {
  }

  lemma InitialIsSound(m: Module, rules: InferenceRules)
    requires InBounds(m, rules)
    ensures IsSound(m, rules, InitialConfig(m))
  {
    InitialIsKnown(m);
    hide IsKnown, IsUntouched, IsSeed, InitialStates, OutputRulesInBounds;
    forall o | o in m.operations
      ensures IsSeed(m, o) <==> !IsUntouched(m, InitialStates(m), o)
    {
      SeedsAreTouched(m, o);
    }
  }

  /** Pushing only touches the results of the operation, and only upwards. */
  lemma PushGrows(m: Module, x: States, o: OpId, outs: seq<Tags>)
    requires o in m.operations && |outs| == m.operations[o].outputs
    ensures Below(x, Push(m, x, o, outs))
    ensures forall v :: v in x ==> v in Push(m, x, o, outs)
    ensures forall v :: v !in ResultsOf(m, o) ==> Get(Push(m, x, o, outs), v) == Get(x, v) && (v in x <==> v in Push(m, x, o, outs))
  {
  }

  /** An operation that is not woken sees the same inputs as before. */
  lemma UnwokenSeesTheSame(m: Module, x: States, o: OpId, outs: seq<Tags>, u: OpId)
    requires o in m.operations && |outs| == m.operations[o].outputs && u in m.operations
    requires u !in UsersOf(m, Written(m, x, o, outs))
    ensures InputStates(m, Push(m, x, o, outs), u) == InputStates(m, x, u)
    ensures IsUntouched(m, Push(m, x, o, outs), u) <==> IsUntouched(m, x, u)
  {
    var ins := m.operations[u].inputs;
    var y := Push(m, x, o, outs);
    forall k | 0 <= k < |ins|
      ensures Get(y, ins[k]) == Get(x, ins[k]) && (ins[k] in x <==> ins[k] in y)
    {
      assert u in Users(m, ins[k]);
    }
  }

  /** The results of an operation that has been enqueued are reachable. */
  lemma ResultIsReachable(m: Module, x: States, o: OpId, v: Value)
    requires IsKnown(m, x) && o in m.operations && !IsUntouched(m, x, o) && v in ResultsOf(m, o)
    ensures v in Reachable(m) && IsResult(m, v)
  {
    hide Reachable;
    var ins := m.operations[o].inputs;
    if ins == [] {
      ReachResult(m, o, v.index, 0);
    } else {
      var k :| 0 <= k < |ins| && ins[k] in x;
      ReachResult(m, o, v.index, k);
    }
  }

  lemma NextIsKnown(m: Module, rules: InferenceRules, c: Config, o: OpId)
    requires InBounds(m, rules) && IsSound(m, rules, c) && o in c.worklist
    ensures IsKnown(m, Next(m, rules, c, o).states)
  {
    hide IsSettled, Reachable, TransferState;
    var outs := Outputs(m, rules, c.states, o);
    PushGrows(m, c.states, o, outs);
    var y := Push(m, c.states, o, outs);
    forall v | v in ResultsOf(m, o)
      ensures v in Reachable(m) && IsResult(m, v)
    {
      ResultIsReachable(m, c.states, o, v);
    }
  }

  lemma NextIsSettled(m: Module, rules: InferenceRules, c: Config, o: OpId, u: OpId)
    requires InBounds(m, rules) && IsSound(m, rules, c) && o in c.worklist
    requires u in m.operations && u !in Next(m, rules, c, o).worklist
    ensures IsSettled(m, rules, Next(m, rules, c, o).states, u)
  {
    var x, outs := c.states, Outputs(m, rules, c.states, o);
    var y := Push(m, x, o, outs);
    UnwokenSeesTheSame(m, x, o, outs, u);
    forall i: nat | i < m.operations[u].outputs
      ensures TransferState(m, rules, y, u, i) == TransferState(m, rules, x, u, i)
    {
    }
    if u == o {
      forall i: nat | i < m.operations[o].outputs
        ensures OperationResult(o, i) in y && TransferState(m, rules, y, o, i).Leq(y[OperationResult(o, i)])
      {
        assert OperationResult(o, i) in ResultsOf(m, o);
      }
    } else {
      assert IsSettled(m, rules, x, u);
      PushGrows(m, x, o, outs);
    }
  }

  /** For all rule tables, monotone or not, a step keeps the invariant. */
  lemma NextIsSound(m: Module, rules: InferenceRules, c: Config, o: OpId)
    requires InBounds(m, rules) && IsSound(m, rules, c) && o in c.worklist
    ensures IsSound(m, rules, Next(m, rules, c, o))
  {
    NextIsKnown(m, rules, c, o);
    forall u | u in m.operations && u !in Next(m, rules, c, o).worklist
      ensures IsSettled(m, rules, Next(m, rules, c, o).states, u)
    {
      NextIsSettled(m, rules, c, o, u);
    }
    hide IsSettled, IsKnown;
    var outs := Outputs(m, rules, c.states, o);
    var y := Push(m, c.states, o, outs);
    PushGrows(m, c.states, o, outs);
    forall u | u in Next(m, rules, c, o).worklist
      ensures u in m.operations && !IsUntouched(m, y, u)
    {
      if u in UsersOf(m, Written(m, c.states, o, outs)) {
        var v :| v in Written(m, c.states, o, outs) && u in Users(m, v);
        var k :| 0 <= k < |m.operations[u].inputs| && m.operations[u].inputs[k] == v;
        assert v in y;
      } else {
        assert !IsUntouched(m, c.states, u);
      }
    }
  }

  // ---------- What restricted rules add ----------

  /** Every state is at most what its operation now produces, and below every post-solution. */
  ghost predicate IsTight(m: Module, rules: InferenceRules, x: States)
    requires InBounds(m, rules)
  {
    (forall o, i: nat :: HasResult(m, o, i) && OperationResult(o, i) in x ==>
      x[OperationResult(o, i)].Leq(TransferState(m, rules, x, o, i))) &&
    (forall y :: IsPostSolution(m, rules, y) ==> Below(x, y))
  }

  lemma InitialIsTight(m: Module, rules: InferenceRules)
    requires InBounds(m, rules)
    ensures IsTight(m, rules, InitialStates(m))
  {
  }

  lemma PushStaysBelow(m: Module, rules: InferenceRules, x: States, o: OpId, y: States)
    requires InBounds(m, rules) && IsRestrictedTable(m, rules) && o in m.operations
    requires Below(x, y) && IsPostSolution(m, rules, y)
    ensures Below(Push(m, x, o, Outputs(m, rules, x, o)), y)
  {
    var z := Push(m, x, o, Outputs(m, rules, x, o));
    forall v | v in z
      ensures z[v].Leq(Get(y, v))
    {
      if v in ResultsOf(m, o) {
        assert HasResult(m, o, v.index);
        TransferIsMonotone(m, rules, x, y, o, v.index);
      }
    }
  }

  lemma NextIsTight(m: Module, rules: InferenceRules, x: States, o: OpId)
    requires InBounds(m, rules) && IsRestrictedTable(m, rules) && o in m.operations && IsTight(m, rules, x)
    ensures IsTight(m, rules, Push(m, x, o, Outputs(m, rules, x, o)))
  {
    var outs := Outputs(m, rules, x, o);
    var z := Push(m, x, o, outs);
    PushGrows(m, x, o, outs);
    forall u, i: nat | HasResult(m, u, i) && OperationResult(u, i) in z
      ensures z[OperationResult(u, i)].Leq(TransferState(m, rules, z, u, i))
    {
      TransferIsMonotone(m, rules, x, z, u, i);
      var v := OperationResult(u, i);
      if v in ResultsOf(m, o) {
        assert z[v] == Get(x, v).Join(TransferState(m, rules, x, u, i));
      } else {
        assert v in x && z[v] == x[v];
      }
    }
    forall y | IsPostSolution(m, rules, y)
      ensures Below(z, y)
    {
      PushStaysBelow(m, rules, x, o, y);
    }
  }

  // ---------- At exit ----------

  /** An operation that was never enqueued satisfies its equations, because bottom in gives bottom out. */
  lemma UntouchedGivesBottom(m: Module, rules: InferenceRules, x: States, o: OpId, i: nat)
    requires InBounds(m, rules) && HasResult(m, o, i) && IsUntouched(m, x, o)
    ensures TransferState(m, rules, x, o, i) == Bottom
  {
    UnreachedInputsGiveBottom(rules.RulesFor(o), InputStates(m, x, o), i);
  }

  /** Sound result for all rule tables: the final states are a post-solution. */
  lemma ExitIsPostSolution(m: Module, rules: InferenceRules, x: States)
    requires InBounds(m, rules) && IsSound(m, rules, Config(x, {}))
    ensures IsPostSolution(m, rules, x)
  {
    forall o, i: nat | HasResult(m, o, i)
      ensures TransferState(m, rules, x, o, i).Leq(Get(x, OperationResult(o, i)))
    {
      assert IsSettled(m, rules, x, o);
      if IsUntouched(m, x, o) {
        UntouchedGivesBottom(m, rules, x, o, i);
      }
    }
  }

  /** The values that have a state at exit do not depend on the order of the pops, nor on the rules. */
  lemma ExitCoversReachable(m: Module, rules: InferenceRules, x: States)
    requires InBounds(m, rules) && IsSound(m, rules, Config(x, {}))
    ensures forall v :: v in x <==> v in Reachable(m)
  {
    var steps := ReachSteps(m);
    var mapped := iset v: Value | v in x;
    forall s | s in steps && AllIn(s.body, mapped)
      ensures s.head in mapped
    {
      if !IsEntry(m, s.head) {
        assert IsSettled(m, rules, x, s.head.op);
        if s.body != [] {
          assert s.body[0] in mapped;
        }
      }
    }
    LeastModelIsLeast(steps, mapped);
  }

  /** With restricted rules the final states are the least solution. */
  lemma ExitIsLeastSolution(m: Module, rules: InferenceRules, x: States)
    requires InBounds(m, rules) && IsSound(m, rules, Config(x, {})) && IsTight(m, rules, x)
    ensures IsLeastSolution(m, rules, x)
  {
    ExitIsPostSolution(m, rules, x);
    forall o, i: nat | HasResult(m, o, i)
      ensures Get(x, OperationResult(o, i)) == TransferState(m, rules, x, o, i)
    {
      LeqIsPartialOrder(Get(x, OperationResult(o, i)), TransferState(m, rules, x, o, i), Bottom);
    }
  }

  /** Two least solutions with states for the same values are the same map. */
  lemma LeastSolutionIsUnique(m: Module, rules: InferenceRules, x: States, y: States)
    requires InBounds(m, rules) && IsLeastSolution(m, rules, x) && IsLeastSolution(m, rules, y)
    requires forall v :: v in x <==> v in y
    ensures x == y
  {
    SolutionIsPostSolution(m, rules, x);
    SolutionIsPostSolution(m, rules, y);
    forall v | v in x
      ensures x[v] == y[v]
    {
      LeqIsPartialOrder(x[v], y[v], Bottom);
    }
  }

  lemma SolutionIsPostSolution(m: Module, rules: InferenceRules, x: States)
    requires InBounds(m, rules) && IsSolution(m, rules, x)
    ensures IsPostSolution(m, rules, x)
  {
  }
}
