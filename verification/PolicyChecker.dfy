/** The abstract-interpretation policy checker: no secret may reach an egress operation. */
module PolicyChecker {
  import opened Checks
  import opened TaintRules
  import opened IrModule
  import opened Transfer
  import opened Fixpoint
  import opened FlowPaths

  /** `v` is an input of an egress operation. */
  ghost predicate IsEgressInput(m: Module, egress: set<string>, v: Value) {
    exists o :: o in m.operations && m.operations[o].name in egress && v in m.operations[o].inputs
  }

  /** Asking an unreached state for its secrecy aborts the check. */
  ghost predicate Aborts(m: Module, egress: set<string>, x: States) {
    exists v :: v in x && x[v].Bottom? && IsEgressInput(m, egress, v)
  }

  ghost predicate IsCompliant(m: Module, egress: set<string>, x: States) {
    forall v :: v in x && x[v].Tags? && IsEgressInput(m, egress, v) ==> x[v].HasNoSecrecy()
  }

  /** The inputs of one operation; values without a state are unreachable and skipped. */
  method CheckInputs(ins: seq<Value>, x: States, compliant: bool) returns (r: Checked<bool>)
    ensures r == CheckFailed <==> exists v :: v in ins && v in x && x[v].Bottom?
    ensures r.Passed? ==> (r.value <==> compliant && forall v :: v in ins && v in x && x[v].Tags? ==> x[v].HasNoSecrecy())
  {
    var ok := compliant;
    for k := 0 to |ins|
      invariant forall v :: v in ins[..k] && v in x ==> x[v].Tags?
      invariant ok <==> compliant && forall v :: v in ins[..k] && v in x && x[v].Tags? ==> x[v].HasNoSecrecy()
    {
      assert ins[..k + 1] == ins[..k] + [ins[k]];
      var input := ins[k];
      if input !in x {
        continue;
      }
      if x[input].Bottom? {
        return CheckFailed;
      }
      if !x[input].HasNoSecrecy() {
        ok := false;
      }
    }
    assert ins[..|ins|] == ins;
    return Passed(ok);
  }

  /** The egress operations among the visited ones. */
  ghost predicate IsVisitedInput(m: Module, egress: set<string>, seen: set<OpId>, v: Value) {
    exists o :: o in seen && o in m.operations && m.operations[o].name in egress && v in m.operations[o].inputs
  }

  ghost predicate IsChecked(m: Module, egress: set<string>, x: States, seen: set<OpId>, r: Checked<bool>) {
    (r == CheckFailed ==> exists v :: v in x && x[v].Bottom? && IsVisitedInput(m, egress, seen, v)) &&
    (r.Passed? ==>
      (forall v :: v in x && IsVisitedInput(m, egress, seen, v) ==> x[v].Tags?) &&
      (r.value <==> forall v :: v in x && x[v].Tags? && IsVisitedInput(m, egress, seen, v) ==> x[v].HasNoSecrecy()))
  }

  method CheckOperation(m: Module, egress: set<string>, x: States, o: OpId, ghost seen: set<OpId>, before: Checked<bool>)
    returns (r: Checked<bool>)
    requires o in m.operations && IsChecked(m, egress, x, seen, before)
    ensures IsChecked(m, egress, x, seen + {o}, r)
  {
    forall v
      ensures IsVisitedInput(m, egress, seen + {o}, v) <==>
        IsVisitedInput(m, egress, seen, v) || (m.operations[o].name in egress && v in m.operations[o].inputs)
    {
      VisitedOneMore(m, egress, seen, o, v);
    }
    hide IsVisitedInput;
    if before.CheckFailed? {
      return CheckFailed;
    }
    if m.operations[o].name !in egress {
      return before;
    }
    r := CheckInputs(m.operations[o].inputs, x, before.value);
  }

  lemma VisitedOneMore(m: Module, egress: set<string>, seen: set<OpId>, o: OpId, v: Value)
    requires o in m.operations
    ensures IsVisitedInput(m, egress, seen + {o}, v) <==>
      IsVisitedInput(m, egress, seen, v) || (m.operations[o].name in egress && v in m.operations[o].inputs)
  {
  }

  method CheckBlock(m: Module, egress: set<string>, x: States, block: seq<OpId>, ghost seen: set<OpId>, before: Checked<bool>)
    returns (r: Checked<bool>)
    requires (forall o :: o in block ==> o in m.operations) && IsChecked(m, egress, x, seen, before)
    ensures IsChecked(m, egress, x, seen + Elements(block), r)
  {
    hide IsChecked;
    r := before;
    assert seen + Elements(block[..0]) == seen;
    for k := 0 to |block|
      invariant IsChecked(m, egress, x, seen + Elements(block[..k]), r)
    {
      r := CheckOperation(m, egress, x, block[k], seen + Elements(block[..k]), r);
      assert block[..k + 1] == block[..k] + [block[k]];
      assert seen + Elements(block[..k + 1]) == seen + Elements(block[..k]) + {block[k]};
    }
    assert block[..|block|] == block;
  }

  /**
   Computes the tags of the module, by some run of the worklist, and then looks
   at the inputs of every egress operation of every block.
   */
  method IsModulePolicyCompliant(m: Module, rules: InferenceRules, egress: set<string>)
    returns (r: Checked<bool>, ghost x: States, ghost pops: seq<OpId>)
    requires IsWellFormed(m) && InBounds(m, rules)
    ensures IsRun(m, rules, InitialConfig(m), pops, Config(x, {}))
    ensures IsPostSolution(m, rules, x) && (forall v :: v in x <==> v in Reachable(m))
    ensures IsRestrictedTable(m, rules) ==> IsLeastSolution(m, rules, x)
    ensures r == CheckFailed <==> Aborts(m, egress, x)
    ensures r.Passed? ==> (r.value <==> IsCompliant(m, egress, x))
  {
    hide IsRun, InitialConfig, IsPostSolution, IsLeastSolution, Reachable, InBounds, IsRestrictedTable, IsChecked;
    var states, popped, _ := ComputeFixpoint(m, rules);
    x, pops := states, popped;
    r := Passed(true);
    ghost var seen: set<OpId> := {};
    NothingChecked(m, egress, x);
    for b := 0 to |m.blocks|
      invariant IsChecked(m, egress, x, seen, r)
      invariant forall o :: o in seen <==> Owns(m.blocks[..b], o)
    {
      forall o | o in m.blocks[b]
        ensures o in m.operations
      {
        assert Owns(m.blocks, o);
      }
      r := CheckBlock(m, egress, states, m.blocks[b], seen, r);
      seen := seen + Elements(m.blocks[b]);
      forall o
        ensures Owns(m.blocks[..b + 1], o) <==> Owns(m.blocks[..b], o) || o in m.blocks[b]
      {
        OwnsOneMore(m.blocks, b, o);
      }
    }
    assert m.blocks[..|m.blocks|] == m.blocks;
    assert seen == m.operations.Keys;
    AllChecked(m, egress, x, r);
  }

  lemma NothingChecked(m: Module, egress: set<string>, x: States)
    ensures IsChecked(m, egress, x, {}, Passed(true))
  {
  }

  lemma AllChecked(m: Module, egress: set<string>, x: States, r: Checked<bool>)
    requires IsChecked(m, egress, x, m.operations.Keys, r)
    ensures r == CheckFailed <==> Aborts(m, egress, x)
    ensures r.Passed? ==> (r.value <==> IsCompliant(m, egress, x))
  {
  }

  /**
   The verdict is about flows: with restricted rules, the module is compliant
   exactly when no tag has a finite flow from an operation that adds it to an
   input of an egress operation.
   */
  lemma VerdictIsFlow(m: Module, rules: InferenceRules, egress: set<string>, x: States)
    requires InBounds(m, rules) && IsLeastSolution(m, rules, x)
    ensures IsCompliant(m, egress, x) <==>
      !exists v, tag :: IsEgressInput(m, egress, v) && FlowsTo(m, rules, x, tag, v)
  {
    hide IsLeastSolution, FlowsTo, IsEgressInput;
    forall v, tag
      ensures HasSecrecy(Get(x, v), tag) <==> FlowsTo(m, rules, x, tag, v)
    {
      SecrecyIsFlow(m, rules, x, v, tag);
    }
    if v :| v in x && x[v].Tags? && IsEgressInput(m, egress, v) && !x[v].HasNoSecrecy() {
      var tag :| tag in x[v].secrecy;
      assert HasSecrecy(Get(x, v), tag);
    }
    if v, tag :| IsEgressInput(m, egress, v) && FlowsTo(m, rules, x, tag, v) {
      assert HasSecrecy(Get(x, v), tag);
      assert !x[v].HasNoSecrecy();
    }
  }
}
