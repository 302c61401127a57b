/**
 Modules whose operations only use results of earlier operations, such as those
 decoded from SQL.  On them the analysis reaches every value, the policy check
 never aborts, and one pass over the operations computes the fixpoint.
 */
module Ordered {
  import opened TaintRules
  import opened IrModule
  import opened Transfer
  import opened Fixpoint
  import opened PolicyChecker

  /** `v` is an entry value, or a result of one of the given operations. */
  ghost predicate IsAvailable(m: Module, done: set<OpId>, v: Value) {
    v.OperationResult? ==> v.op in done && HasResult(m, v.op, v.index)
  }

  ghost predicate IsOrder(m: Module, order: seq<OpId>) {
    (forall o :: o in m.operations <==> o in order) &&
    (forall k, v :: 0 <= k < |order| && v in m.operations[order[k]].inputs ==>
      IsAvailable(m, Elements(order[..k]), v)) &&
    (forall j, k :: 0 <= j < k < |order| ==> order[j] != order[k])
  }

  ghost predicate ReachesAll(m: Module, x: States, ops: set<OpId>) {
    forall o, i: nat :: o in ops && HasResult(m, o, i) ==> Get(x, OperationResult(o, i)).Tags?
  }

  /** Once all inputs of an operation are reached, so are its results: no rule makes a state bottom. */
  lemma ReachesNext(m: Module, rules: InferenceRules, x: States, order: seq<OpId>, k: nat)
    requires InBounds(m, rules) && IsPostSolution(m, rules, x) && IsOrder(m, order) && k < |order|
    requires ReachesAll(m, x, Elements(order[..k]))
    ensures ReachesAll(m, x, Elements(order[..k + 1]))
  {
    hide OutputRulesInBounds, OutputState;
    var o := order[k];
    var ins := InputStates(m, x, o);
    forall j | 0 <= j < |ins|
      ensures ins[j].Tags?
    {
      var v := m.operations[o].inputs[j];
      assert v in m.operations[o].inputs;
      assert IsAvailable(m, Elements(order[..k]), v);
      if !v.OperationResult? {
        assert IsEntry(m, v);
      }
    }
    forall u, i: nat | u in Elements(order[..k + 1]) && HasResult(m, u, i)
      ensures Get(x, OperationResult(u, i)).Tags?
    {
      if u == o {
        TransferReaches(m, rules, x, o, i);
      } else {
        assert u in order[..k];
      }
    }
  }

  lemma TransferReaches(m: Module, rules: InferenceRules, x: States, o: OpId, i: nat)
    requires InBounds(m, rules) && HasResult(m, o, i) && !AnyBottom(InputStates(m, x, o))
    ensures TransferState(m, rules, x, o, i).Tags?
  {
    ReachedInputsGiveState(rules.RulesFor(o), InputStates(m, x, o), i);
  }

  lemma {:induction false} ReachesPrefix(m: Module, rules: InferenceRules, x: States, order: seq<OpId>, k: nat)
    requires InBounds(m, rules) && IsPostSolution(m, rules, x) && IsOrder(m, order) && k <= |order|
    ensures ReachesAll(m, x, Elements(order[..k]))
  {
    if k > 0 {
      ReachesPrefix(m, rules, x, order, k - 1);
      ReachesNext(m, rules, x, order, k - 1);
    }
  }

  /** Whatever the rules: every value of an ordered module has a state that is not bottom. */
  lemma OrderedReachesAll(m: Module, rules: InferenceRules, x: States, order: seq<OpId>, v: Value)
    requires InBounds(m, rules) && IsPostSolution(m, rules, x) && IsOrder(m, order)
    requires IsEntry(m, v) || IsResult(m, v)
    ensures v in x && x[v].Tags?
  {
    ReachesPrefix(m, rules, x, order, |order|);
    assert order[..|order|] == order;
    if IsResult(m, v) {
      assert v == OperationResult(v.op, v.index);
      assert v.op in Elements(order);
    }
  }

  /** Whatever the rules: the policy check of an ordered module never aborts. */
  lemma OrderedNeverAborts(m: Module, rules: InferenceRules, egress: set<string>, x: States, order: seq<OpId>)
    requires InBounds(m, rules) && IsPostSolution(m, rules, x) && IsOrder(m, order)
    ensures !Aborts(m, egress, x)
  {
    if v :| v in x && x[v].Bottom? && IsEgressInput(m, egress, v) {
      var o :| o in m.operations && m.operations[o].name in egress && v in m.operations[o].inputs;
      var k :| 0 <= k < |order| && order[k] == o;
      assert IsAvailable(m, Elements(order[..k]), v);
      OrderedReachesAll(m, rules, x, order, v);
    }
  }

  // ---------- One pass in order ----------

  function SetResults(m: Module, rules: InferenceRules, x: States, o: OpId): States
    requires InBounds(m, rules) && o in m.operations
  {
    x + map v | v in ResultsOf(m, o) :: Outputs(m, rules, x, o)[v.index]
  }

  /** The states after one evaluation of each of the given operations. */
  function InOrder(m: Module, rules: InferenceRules, order: seq<OpId>): States
    requires InBounds(m, rules) && forall o :: o in order ==> o in m.operations
  {
    if order == [] then InitialStates(m)
    else
      var n := |order| - 1;
      SetResults(m, rules, InOrder(m, rules, order[..n]), order[n])
  }

  /** The in-order pass computes a solution, whatever the rules. */
  lemma InOrderIsSolution(m: Module, rules: InferenceRules, order: seq<OpId>)
    requires InBounds(m, rules) && IsOrder(m, order)
    ensures IsSolution(m, rules, InOrder(m, rules, order))
  {
    InOrderSolves(m, rules, order, |order|);
    assert order[..|order|] == order;
    var y := InOrder(m, rules, order);
    forall o, i: nat | HasResult(m, o, i)
      ensures Get(y, OperationResult(o, i)) == TransferState(m, rules, y, o, i)
    {
      assert o in Elements(order);
    }
  }

  /** The operations evaluated so far satisfy their equations, and nothing else has a state. */
  ghost predicate Solves(m: Module, rules: InferenceRules, done: set<OpId>, y: States)
    requires InBounds(m, rules)
  {
    (forall v :: v in y <==> IsEntry(m, v) || (IsResult(m, v) && v.op in done)) &&
    (forall v :: IsEntry(m, v) ==> y[v] == INITIAL) &&
    (forall o, i: nat :: o in done && HasResult(m, o, i) ==> Get(y, OperationResult(o, i)) == TransferState(m, rules, y, o, i))
  }

  lemma {:induction false} InOrderSolves(m: Module, rules: InferenceRules, order: seq<OpId>, k: nat)
    requires InBounds(m, rules) && IsOrder(m, order) && k <= |order|
    ensures Solves(m, rules, Elements(order[..k]), InOrder(m, rules, order[..k]))
  {
    hide Solves, InBounds, SetResults;
    if k == 0 {
      InitialSolves(m, rules);
      assert order[..0] == [];
    } else {
      InOrderSolves(m, rules, order, k - 1);
      SolvesNext(m, rules, InOrder(m, rules, order[..k - 1]), order, k - 1);
      assert order[..k][..k - 1] == order[..k - 1];
    }
  }

  lemma InitialSolves(m: Module, rules: InferenceRules)
    requires InBounds(m, rules)
    ensures Solves(m, rules, Elements([]), InitialStates(m))
  {
    forall v
      ensures v in Entries(m) <==> IsEntry(m, v)
    {
      EntriesAreEntries(m, v);
    }
  }

  /** Evaluating an operation does not change the inputs of itself or of an earlier one. */
  lemma EarlierInputsStay(m: Module, rules: InferenceRules, y: States, order: seq<OpId>, j: nat, k: nat)
    requires InBounds(m, rules) && IsOrder(m, order) && j <= k < |order|
    ensures InputStates(m, SetResults(m, rules, y, order[k]), order[j]) == InputStates(m, y, order[j])
  {
    hide OutputState, InBounds;
    var ins := m.operations[order[j]].inputs;
    var z := SetResults(m, rules, y, order[k]);
    forall i | 0 <= i < |ins|
      ensures Get(z, ins[i]) == Get(y, ins[i])
    {
      assert ins[i] in ins;
      assert IsAvailable(m, Elements(order[..j]), ins[i]);
      if ins[i].OperationResult? {
        var l :| 0 <= l < |order[..j]| && order[..j][l] == ins[i].op;
        assert order[l] != order[k];
      }
    }
  }

  lemma SolvesNext(m: Module, rules: InferenceRules, y: States, order: seq<OpId>, k: nat)
    requires InBounds(m, rules) && IsOrder(m, order) && k < |order|
    requires Solves(m, rules, Elements(order[..k]), y)
    ensures Solves(m, rules, Elements(order[..k + 1]), SetResults(m, rules, y, order[k]))
  {
    var o := order[k];
    var z := SetResults(m, rules, y, o);
    assert order[..k + 1] == order[..k] + [o];
    assert Elements(order[..k + 1]) == Elements(order[..k]) + {o};
    forall u, i: nat | u in Elements(order[..k + 1]) && HasResult(m, u, i)
      ensures Get(z, OperationResult(u, i)) == TransferState(m, rules, z, u, i)
    {
      var j :| 0 <= j < |order[..k + 1]| && order[..k + 1][j] == u;
      EarlierInputsStay(m, rules, y, order, j, k);
      SolvedStaysSolved(m, rules, y, order, j, k, i);
    }
    hide OutputState, InBounds, IsOrder, IsEntry;
    forall v
      ensures v in ResultsOf(m, o) <==> IsResult(m, v) && v.op == o
    {
    }
  }

  lemma SolvedStaysSolved(m: Module, rules: InferenceRules, y: States, order: seq<OpId>, j: nat, k: nat, i: nat)
    requires InBounds(m, rules) && IsOrder(m, order) && j <= k < |order| && HasResult(m, order[j], i)
    requires Solves(m, rules, Elements(order[..k]), y)
    requires InputStates(m, SetResults(m, rules, y, order[k]), order[j]) == InputStates(m, y, order[j])
    ensures
      var z := SetResults(m, rules, y, order[k]);
      Get(z, OperationResult(order[j], i)) == TransferState(m, rules, z, order[j], i)
  {
  }

  // ---------- Only one solution ----------

  /** `x` and `y` give the results of the given operations the same states. */
  ghost predicate SameOn(m: Module, done: set<OpId>, x: States, y: States) {
    forall o, i: nat :: o in done && HasResult(m, o, i) ==> Get(x, OperationResult(o, i)) == Get(y, OperationResult(o, i))
  }

  lemma SameInputs(m: Module, rules: InferenceRules, x: States, y: States, order: seq<OpId>, k: nat)
    requires InBounds(m, rules) && IsSolution(m, rules, x) && IsSolution(m, rules, y) && IsOrder(m, order) && k < |order|
    requires SameOn(m, Elements(order[..k]), x, y)
    ensures InputStates(m, x, order[k]) == InputStates(m, y, order[k])
  {
    hide OutputState, InBounds;
    var ins := m.operations[order[k]].inputs;
    forall j | 0 <= j < |ins|
      ensures Get(x, ins[j]) == Get(y, ins[j])
    {
      assert ins[j] in ins;
      assert IsAvailable(m, Elements(order[..k]), ins[j]);
      if !ins[j].OperationResult? {
        assert IsEntry(m, ins[j]);
      } else {
        assert ins[j] == OperationResult(ins[j].op, ins[j].index);
      }
    }
  }

  lemma {:induction false} SolutionsAreSame(m: Module, rules: InferenceRules, x: States, y: States, order: seq<OpId>, k: nat)
    requires InBounds(m, rules) && IsSolution(m, rules, x) && IsSolution(m, rules, y) && IsOrder(m, order) && k <= |order|
    ensures SameOn(m, Elements(order[..k]), x, y)
  {
    if k > 0 {
      SolutionsAreSame(m, rules, x, y, order, k - 1);
      SameInputs(m, rules, x, y, order, k - 1);
      hide OutputState, InBounds, IsOrder, IsEntry;
      var o := order[k - 1];
      assert order[..k] == order[..k - 1] + [o];
      forall u, i: nat | u in Elements(order[..k]) && HasResult(m, u, i)
        ensures Get(x, OperationResult(u, i)) == Get(y, OperationResult(u, i))
      {
        if u !in Elements(order[..k - 1]) {
          assert u == o;
          assert TransferState(m, rules, x, o, i) == TransferState(m, rules, y, o, i);
        }
      }
    }
  }

  /** On an ordered module, whatever the rules, the transfer equations have one solution. */
  lemma SolutionIsUnique(m: Module, rules: InferenceRules, x: States, y: States, order: seq<OpId>)
    requires InBounds(m, rules) && IsSolution(m, rules, x) && IsSolution(m, rules, y) && IsOrder(m, order)
    ensures x == y
  {
    SolutionsAreSame(m, rules, x, y, order, |order|);
    assert order[..|order|] == order;
    SolutionIsPostSolution(m, rules, x);
    SolutionIsPostSolution(m, rules, y);
    forall v
      ensures v in x <==> v in y
      ensures v in x ==> Get(x, v) == Get(y, v)
    {
      if v in x || v in y {
        assert IsEntry(m, v) || IsResult(m, v);
        OrderedReachesAll(m, rules, x, order, v);
        OrderedReachesAll(m, rules, y, order, v);
        if IsResult(m, v) {
          assert v == OperationResult(v.op, v.index) && v.op in Elements(order);
        }
      }
    }
    assert x.Keys == y.Keys;
  }

  /**
   The worklist against the pass: on an ordered module with restricted rules
   every complete run of the worklist ends in the result of the pass.
   */
  lemma WorklistIsInOrderPass(m: Module, rules: InferenceRules, order: seq<OpId>, pops: seq<OpId>, c: Config)
    requires InBounds(m, rules) && IsRestrictedTable(m, rules) && IsOrder(m, order)
    requires IsRun(m, rules, InitialConfig(m), pops, c) && c.worklist == {}
    ensures c.states == InOrder(m, rules, order)
  {
    AllRunsAgree(m, rules, pops, c, pops, c);
    InOrderIsSolution(m, rules, order);
    SolutionIsUnique(m, rules, c.states, InOrder(m, rules, order), order);
  }
}
