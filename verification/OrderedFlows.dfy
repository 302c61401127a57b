/**
 What a verdict on an ordered module means for rule tables that are not
 monotone: a compliant verdict is never wrong, whatever was popped when.
 */
module OrderedFlows {
  import opened IfcTags
  import opened TaintRules
  import opened IrModule
  import opened Transfer
  import opened Fixpoint
  import opened FlowPaths
  import opened PolicyChecker
  import opened Ordered

  // ---------- Flows and post-solutions ----------

  /** In an ordered module every operation produces a state. */
  lemma OrderedTransferReaches(m: Module, rules: InferenceRules, x: States, order: seq<OpId>, o: OpId, i: nat)
    requires InBounds(m, rules) && IsPostSolution(m, rules, x) && IsOrder(m, order) && HasResult(m, o, i)
    ensures TransferState(m, rules, x, o, i).Tags?
  {
    var ins := InputStates(m, x, o);
    var k :| 0 <= k < |order| && order[k] == o;
    forall j | 0 <= j < |ins|
      ensures ins[j].Tags?
    {
      var v := m.operations[o].inputs[j];
      assert v in m.operations[o].inputs;
      assert IsAvailable(m, Elements(order[..k]), v);
      OrderedReachesAll(m, rules, x, order, v);
    }
    TransferReaches(m, rules, x, o, i);
  }

  /** Along a flow in a post-solution, every value carries the tag. */
  lemma {:induction false} FlowIsCovered(m: Module, rules: InferenceRules, x: States, order: seq<OpId>, tag: TagId, path: seq<Value>)
    requires InBounds(m, rules) && IsPostSolution(m, rules, x) && IsOrder(m, order) && IsFlow(m, rules, x, tag, path)
    ensures HasSecrecy(Get(x, path[|path| - 1]), tag)
    decreases |path|
  {
    hide IsOrder, IsPostSolution, TransferState, FlowAt;
    var n := |path| - 1;
    var v := path[n];
    if n > 0 {
      assert Passes(m, rules, x, tag, path[n - 1], path[n - 1 + 1]);
      forall k | 0 <= k < n - 1
        ensures Passes(m, rules, x, tag, path[..n][k], path[..n][k + 1])
      {
        assert Passes(m, rules, x, tag, path[k], path[k + 1]);
      }
      FlowIsCovered(m, rules, x, order, tag, path[..n]);
      var j :| j in FlowAt(m, rules, x, v.op, v.index, tag).inputs && m.operations[v.op].inputs[j] == path[n - 1];
      assert InputStates(m, x, v.op)[j] == Get(x, path[n - 1]);
    }
    OrderedTransferReaches(m, rules, x, order, v.op, v.index);
    TransferFlow(m, rules, x, v.op, v.index, tag);
    ProducedIsCovered(m, rules, x, v, tag);
  }

  lemma ProducedIsCovered(m: Module, rules: InferenceRules, x: States, v: Value, tag: TagId)
    requires InBounds(m, rules) && IsPostSolution(m, rules, x) && IsResult(m, v)
    requires HasSecrecy(TransferState(m, rules, x, v.op, v.index), tag)
    ensures HasSecrecy(Get(x, v), tag)
  {
    assert v == OperationResult(v.op, v.index);
    assert TransferState(m, rules, x, v.op, v.index).Leq(Get(x, OperationResult(v.op, v.index)));
  }

  /** A compliant verdict on an ordered module rules out flows to egress operations, for all rule tables. */
  lemma CompliantMeansNoFlow(m: Module, rules: InferenceRules, egress: set<string>, x: States, order: seq<OpId>)
    requires InBounds(m, rules) && IsPostSolution(m, rules, x) && IsOrder(m, order) && IsCompliant(m, egress, x)
    ensures !exists v, tag :: IsEgressInput(m, egress, v) && FlowsTo(m, rules, x, tag, v)
  {
    hide IsPostSolution, IsOrder, IsEgressInput;
    if v, tag :| IsEgressInput(m, egress, v) && FlowsTo(m, rules, x, tag, v) {
      var path :| IsFlow(m, rules, x, tag, path) && path[|path| - 1] == v;
      FlowIsCovered(m, rules, x, order, tag, path);
    }
  }

  /** The tags of the in-order pass are exactly those that flow, for all rule tables. */
  lemma {:induction false} InOrderTagFlows(m: Module, rules: InferenceRules, x: States, order: seq<OpId>, k: nat, o: OpId, i: nat, tag: TagId)
    requires InBounds(m, rules) && IsSolution(m, rules, x) && IsOrder(m, order) && k <= |order|
    requires o in order[..k] && HasResult(m, o, i) && HasSecrecy(Get(x, OperationResult(o, i)), tag)
    ensures FlowsTo(m, rules, x, tag, OperationResult(o, i))
    decreases k
  {
    if o in order[..k - 1] {
      InOrderTagFlows(m, rules, x, order, k - 1, o, i, tag);
    } else {
      var v := OperationResult(o, i);
      assert order[..k] == order[..k - 1] + [order[k - 1]];
      assert o == order[k - 1];
      assert Get(x, v) == TransferState(m, rules, x, o, i);
      TransferFlow(m, rules, x, o, i, tag);
      hide FlowAt, TransferState, FlowsTo;
      var s := FlowAt(m, rules, x, o, i, tag);
      if s.added {
        FlowStarts(m, rules, x, tag, v);
      } else {
        var j :| j in s.inputs && HasSecrecy(InputStates(m, x, o)[j], tag);
        var u := m.operations[o].inputs[j];
        assert u in m.operations[o].inputs;
        assert IsAvailable(m, Elements(order[..k - 1]), u);
        assert !u.OperationResult? ==> IsEntry(m, u);
        assert u == OperationResult(u.op, u.index);
        InOrderTagFlows(m, rules, x, order, k - 1, u.op, u.index, tag);
        assert Passes(m, rules, x, tag, u, v);
        FlowContinues(m, rules, x, tag, u, v);
      }
    }
  }

  /** Secrecy of the in-order pass is flow. */
  lemma InOrderSecrecyIsFlow(m: Module, rules: InferenceRules, order: seq<OpId>, v: Value, tag: TagId)
    requires InBounds(m, rules) && IsOrder(m, order)
    ensures forall o :: o in order ==> o in m.operations
    ensures HasSecrecy(Get(InOrder(m, rules, order), v), tag) <==> FlowsTo(m, rules, InOrder(m, rules, order), tag, v)
  {
    var x := InOrder(m, rules, order);
    InOrderIsSolution(m, rules, order);
    if FlowsTo(m, rules, x, tag, v) {
      var path :| IsFlow(m, rules, x, tag, path) && path[|path| - 1] == v;
      FlowCarriesTag(m, rules, x, tag, path);
    }
    if HasSecrecy(Get(x, v), tag) {
      assert order[..|order|] == order;
      assert v == OperationResult(v.op, v.index);
      InOrderTagFlows(m, rules, x, order, |order|, v.op, v.index, tag);
    }
  }

  // ---------- Integrity does not depend on the order of the pops ----------

  /** Premises are on tag modifications only; they may decide about secrecy. */
  predicate IsConditionalAtMost(rule: InferenceRule) {
    rule.premises == [] || rule.conclusion.ModifyTag?
  }

  predicate IsConditionalTable(m: Module, rules: InferenceRules) {
    forall o, i, r :: o in m.operations && i in rules.RulesFor(o) && r in rules.RulesFor(o)[i] ==> IsConditionalAtMost(r)
  }

  /** The order on states, as far as integrity is concerned. */
  predicate IntegrityLeq(a: Tags, b: Tags) {
    a.Bottom? || (b.Tags? && b.integrity <= a.integrity)
  }

  predicate AllIntegrityLeq(ins: seq<Tags>, ins': seq<Tags>) {
    |ins| == |ins'| && forall i :: 0 <= i < |ins| ==> IntegrityLeq(ins[i], ins'[i])
  }

  lemma {:induction false} JoinAllIntegrity(ins: seq<Tags>, ins': seq<Tags>)
    requires AllIntegrityLeq(ins, ins')
    ensures IntegrityLeq(JoinAll(ins), JoinAll(ins'))
  {
    if ins != [] {
      JoinAllIntegrity(ins[..|ins| - 1], ins'[..|ins| - 1]);
    }
  }

  lemma {:induction false} MergedIntegrityLeq(merge: MergeKind, indices: seq<nat>, ins: seq<Tags>, ins': seq<Tags>)
    requires AllIntegrityLeq(ins, ins') && !AnyBottom(ins) && !AnyBottom(ins') && IndicesInBounds(indices, |ins|)
    ensures MergedIntegrity(merge, indices, ins') <= MergedIntegrity(merge, indices, ins)
  {
    if indices != [] {
      var n := |indices| - 1;
      assert IntegrityLeq(ins[indices[n]], ins'[indices[n]]);
      MergedIntegrityLeq(merge, indices[..n], ins, ins');
    }
  }

  lemma MergeIntegrity(merge: MergeKind, indices: seq<nat>, ins: seq<Tags>, ins': seq<Tags>, current: Tags, current': Tags)
    requires AllIntegrityLeq(ins, ins') && IntegrityLeq(current, current') && IndicesInBounds(indices, |ins|)
    ensures IntegrityLeq(Merge(merge, indices, ins, current), Merge(merge, indices, ins', current'))
  {
    if !current.Bottom? && !AnyBottom(ins) {
      forall i | 0 <= i < |ins'|
        ensures !ins'[i].Bottom?
      {
        assert IntegrityLeq(ins[i], ins'[i]);
      }
      MergedIntegrityLeq(merge, indices, ins, ins');
    }
  }

  lemma RuleIntegrity(rule: InferenceRule, ins: seq<Tags>, ins': seq<Tags>, current: Tags, current': Tags)
    requires AllIntegrityLeq(ins, ins') && IntegrityLeq(current, current')
    requires RuleInBounds(rule, |ins|) && IsConditionalAtMost(rule)
    ensures IntegrityLeq(Interpret(rule, ins, current), Interpret(rule, ins', current'))
  {
    if PremisesHold(rule, ins') {
      forall p | p in rule.premises
        ensures PremiseHolds(p, ins)
      {
        assert PremiseHolds(p, ins');
        assert IntegrityLeq(ins[p.index], ins'[p.index]);
      }
    }
    match rule.conclusion
    case CopyInput(i) => assert IntegrityLeq(ins[i], ins'[i]);
    case ModifyTag(_, _) =>
    case MergeIntegrityTags(merge, indices) => MergeIntegrity(merge, indices, ins, ins', current, current');
  }

  lemma {:induction false} RulesIntegrity(rules: seq<InferenceRule>, ins: seq<Tags>, ins': seq<Tags>, current: Tags, current': Tags)
    requires AllIntegrityLeq(ins, ins') && IntegrityLeq(current, current') && RulesInBounds(rules, |ins|)
    requires forall r :: r in rules ==> IsConditionalAtMost(r)
    ensures IntegrityLeq(ApplyRules(rules, ins, current), ApplyRules(rules, ins', current'))
  {
    if rules != [] {
      var n := |rules| - 1;
      assert rules[n] in rules;
      RulesIntegrity(rules[..n], ins, ins', current, current');
      RuleIntegrity(rules[n], ins, ins', ApplyRules(rules[..n], ins, current), ApplyRules(rules[..n], ins', current'));
    }
  }

  ghost predicate StatesIntegrityLeq(x: States, z: States) {
    forall v :: v in x ==> IntegrityLeq(x[v], Get(z, v))
  }

  /** The integrity that an operation produces is monotone, even where its secrecy is not. */
  lemma TransferIntegrity(m: Module, rules: InferenceRules, x: States, z: States, o: OpId, i: nat)
    requires InBounds(m, rules) && IsConditionalTable(m, rules) && HasResult(m, o, i) && StatesIntegrityLeq(x, z)
    ensures IntegrityLeq(TransferState(m, rules, x, o, i), TransferState(m, rules, z, o, i))
  {
    var ins, ins' := InputStates(m, x, o), InputStates(m, z, o);
    assert AllIntegrityLeq(ins, ins');
    JoinAllIntegrity(ins, ins');
    var own := rules.RulesFor(o);
    if i in own {
      RulesIntegrity(own[i], ins, ins', DefaultState(ins), DefaultState(ins'));
    }
  }

  lemma InitialIntegrity(m: Module, rules: InferenceRules, z: States)
    requires InBounds(m, rules) && IsSolution(m, rules, z)
    ensures StatesIntegrityLeq(InitialConfig(m).states, z)
  {
    forall v | v in InitialStates(m)
      ensures IntegrityLeq(InitialStates(m)[v], Get(z, v))
    {
      EntriesAreEntries(m, v);
    }
  }

  lemma NextIntegrity(m: Module, rules: InferenceRules, c: Config, o: OpId, z: States)
    requires InBounds(m, rules) && IsConditionalTable(m, rules) && IsSolution(m, rules, z) && o in m.operations
    requires StatesIntegrityLeq(c.states, z)
    ensures StatesIntegrityLeq(Next(m, rules, c, o).states, z)
  {
    var outs := Outputs(m, rules, c.states, o);
    var y := Push(m, c.states, o, outs);
    forall v | v in y
      ensures IntegrityLeq(y[v], Get(z, v))
    {
      if v in ResultsOf(m, o) {
        assert HasResult(m, o, v.index) && v == OperationResult(o, v.index);
        TransferIntegrity(m, rules, c.states, z, o, v.index);
      }
    }
  }

  /** Every state of a run has at least the integrity of the solution. */
  lemma {:induction false} RunIntegrity(m: Module, rules: InferenceRules, pops: seq<OpId>, c: Config, z: States)
    requires InBounds(m, rules) && IsConditionalTable(m, rules) && IsSolution(m, rules, z)
    requires IsRun(m, rules, InitialConfig(m), pops, c)
    ensures StatesIntegrityLeq(c.states, z)
  {
    hide IsConditionalTable, IsSolution, StatesIntegrityLeq, Next, InitialConfig;
    if pops == [] {
      InitialIntegrity(m, rules, z);
    } else {
      var n := |pops| - 1;
      var before :| IsRun(m, rules, InitialConfig(m), pops[..n], before) && pops[n] in before.worklist &&
        pops[n] in m.operations && c == Next(m, rules, before, pops[n]);
      RunIntegrity(m, rules, pops[..n], before, z);
      NextIntegrity(m, rules, before, pops[n], z);
    }
  }

  // ---------- The pass leaves out secrecy at most ----------

  ghost predicate IsCovered(m: Module, x: States, z: States, done: set<OpId>) {
    forall o, i: nat :: o in done && HasResult(m, o, i) ==>
      Get(x, OperationResult(o, i)).Tags? && IsThinned(Get(x, OperationResult(o, i)), Get(z, OperationResult(o, i)))
  }

  lemma CoveredInputs(m: Module, rules: InferenceRules, x: States, z: States, order: seq<OpId>, k: nat)
    requires InBounds(m, rules) && IsKnown(m, x) && IsSolution(m, rules, z) && IsOrder(m, order) && k < |order|
    requires IsCovered(m, x, z, Elements(order[..k]))
    ensures AllThinned(InputStates(m, x, order[k]), InputStates(m, z, order[k]))
  {
    hide OutputState, InBounds;
    var ins := m.operations[order[k]].inputs;
    forall j | 0 <= j < |ins|
      ensures IsThinned(Get(x, ins[j]), Get(z, ins[j]))
    {
      assert ins[j] in ins;
      assert IsAvailable(m, Elements(order[..k]), ins[j]);
      if ins[j].OperationResult? {
        assert ins[j] == OperationResult(ins[j].op, ins[j].index);
      } else {
        assert IsEntry(m, ins[j]);
      }
    }
  }

  lemma CoveredTransfer(m: Module, rules: InferenceRules, x: States, z: States, o: OpId, i: nat)
    requires InBounds(m, rules) && HasResult(m, o, i)
    requires AllThinned(InputStates(m, x, o), InputStates(m, z, o))
    ensures IsThinned(TransferState(m, rules, x, o, i), TransferState(m, rules, z, o, i))
  {
    var ins, ins' := InputStates(m, x, o), InputStates(m, z, o);
    JoinAllThinned(ins, ins');
    var own := rules.RulesFor(o);
    if i in own {
      RulesThinned(own[i], ins, ins', DefaultState(ins), DefaultState(ins'), 0);
    }
  }

  lemma {:induction false} PrefixIsCovered(m: Module, rules: InferenceRules, x: States, z: States, order: seq<OpId>, k: nat)
    requires InBounds(m, rules) && IsKnown(m, x) && IsPostSolution(m, rules, x) && IsSolution(m, rules, z)
    requires IsOrder(m, order) && k <= |order| && StatesIntegrityLeq(x, z)
    ensures IsCovered(m, x, z, Elements(order[..k]))
  {
    hide IsKnown, OutputState, InBounds, IsPostSolution, IsSolution, StatesIntegrityLeq, AllThinned, IsThinned, Get;
    if k > 0 {
      PrefixIsCovered(m, rules, x, z, order, k - 1);
      CoveredInputs(m, rules, x, z, order, k - 1);
      var o := order[k - 1];
      assert order[..k] == order[..k - 1] + [o];
      hide IsOrder;
      forall u, i: nat | u in Elements(order[..k]) && HasResult(m, u, i)
        ensures Get(x, OperationResult(u, i)).Tags? && IsThinned(Get(x, OperationResult(u, i)), Get(z, OperationResult(u, i)))
      {
        if u !in Elements(order[..k - 1]) {
          assert u == o;
          ResultIsCovered(m, rules, x, z, order, o, i);
        }
      }
    }
  }

  lemma ResultIsCovered(m: Module, rules: InferenceRules, x: States, z: States, order: seq<OpId>, o: OpId, i: nat)
    requires InBounds(m, rules) && IsPostSolution(m, rules, x) && IsSolution(m, rules, z) && IsOrder(m, order) && HasResult(m, o, i)
    requires StatesIntegrityLeq(x, z) && AllThinned(InputStates(m, x, o), InputStates(m, z, o))
    ensures Get(x, OperationResult(o, i)).Tags? && IsThinned(Get(x, OperationResult(o, i)), Get(z, OperationResult(o, i)))
  {
    var v := OperationResult(o, i);
    OrderedTransferReaches(m, rules, x, order, o, i);
    CoveredTransfer(m, rules, x, z, o, i);
    assert TransferState(m, rules, x, o, i).Leq(Get(x, v));
    assert Get(z, v) == TransferState(m, rules, z, o, i);
    assert IntegrityLeq(x[v], Get(z, v));
  }

  /**
   On an ordered module whose premises are on tag modifications only, every
   complete run gives every value the integrity of the in-order pass and at
   least its secrecy.
   */
  lemma RunCoversInOrder(m: Module, rules: InferenceRules, order: seq<OpId>, pops: seq<OpId>, c: Config)
    requires InBounds(m, rules) && IsConditionalTable(m, rules) && IsOrder(m, order)
    requires IsRun(m, rules, InitialConfig(m), pops, c) && c.worklist == {}
    ensures forall o :: o in order ==> o in m.operations
    ensures StatesThinned(c.states, InOrder(m, rules, order))
  {
    var x, z := c.states, InOrder(m, rules, order);
    RunIsSound(m, rules, pops, c);
    assert c == Config(x, {});
    ExitIsPostSolution(m, rules, x);
    InOrderIsSolution(m, rules, order);
    RunIntegrity(m, rules, pops, c, z);
    PrefixIsCovered(m, rules, x, z, order, |order|);
    assert order[..|order|] == order;
    SolutionIsPostSolution(m, rules, z);
    hide IsRun, IsConditionalTable, InOrder, StatesIntegrityLeq, InBounds, IsPostSolution;
    forall v
      ensures IsThinned(Get(x, v), Get(z, v))
    {
      if IsResult(m, v) {
        assert v == OperationResult(v.op, v.index) && v.op in Elements(order);
      }
    }
  }

  /** So a compliant verdict of any run means that nothing flows to an egress operation in order. */
  lemma CompliantRunIsRight(m: Module, rules: InferenceRules, egress: set<string>, order: seq<OpId>, pops: seq<OpId>, c: Config)
    requires InBounds(m, rules) && IsConditionalTable(m, rules) && IsOrder(m, order)
    requires IsRun(m, rules, InitialConfig(m), pops, c) && c.worklist == {} && IsCompliant(m, egress, c.states)
    ensures forall o :: o in order ==> o in m.operations
    ensures IsCompliant(m, egress, InOrder(m, rules, order))
    ensures !exists v, tag :: IsEgressInput(m, egress, v) && FlowsTo(m, rules, InOrder(m, rules, order), tag, v)
  {
    RunCoversInOrder(m, rules, order, pops, c);
    var z := InOrder(m, rules, order);
    hide IsRun, IsConditionalTable, InOrder, FlowsTo, IsEgressInput;
    forall v | v in z && z[v].Tags? && IsEgressInput(m, egress, v)
      ensures z[v].HasNoSecrecy()
    {
      assert IsThinned(Get(c.states, v), Get(z, v));
    }
    forall v, tag | IsEgressInput(m, egress, v)
      ensures !FlowsTo(m, rules, z, tag, v)
    {
      InOrderSecrecyIsFlow(m, rules, order, v, tag);
    }
  }
}
