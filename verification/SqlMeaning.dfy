/**
 What the operations of a SQL module do to tags once policy rules have been
 decoded: in every solution of the transfer equations, how the tags of a result
 depend on those of the operands.
 */
module SqlMeaning {
  import opened Seqs
  import opened IfcTags
  import opened TaintRules
  import opened IrModule
  import opened Transfer
  import opened FlowPaths
  import opened SqlOps
  import opened SqlDecode
  import opened SqlRules

  predicate HasIntegrityTag(t: Tags, tag: TagId) {
    t.Tags? && tag in t.integrity
  }

  /** A state that has not been reached does not contradict a required tag. */
  predicate Vouches(t: Tags, tag: TagId) {
    t.Bottom? || tag in t.integrity
  }

  ghost predicate SomeSecrecy(x: States, vs: seq<Value>, tag: TagId) {
    exists v :: v in vs && HasSecrecy(Get(x, v), tag)
  }

  ghost predicate SomeIntegrity(x: States, vs: seq<Value>, tag: TagId) {
    exists v :: v in vs && HasIntegrityTag(Get(x, v), tag)
  }

  ghost predicate EveryIntegrity(x: States, vs: seq<Value>, tag: TagId) {
    forall v :: v in vs ==> HasIntegrityTag(Get(x, v), tag)
  }

  ghost predicate SomeUnreached(x: States, vs: seq<Value>) {
    exists v :: v in vs && Get(x, v).Bottom?
  }

  ghost predicate AllUnreached(x: States, vs: seq<Value>) {
    forall v :: v in vs ==> Get(x, v).Bottom?
  }

  ghost predicate IsUntargeted(m: Module, o: OpId) {
    forall t :: t in m.operations ==> !IsTargetOf(m, t, o)
  }

  // ---------- The default ----------

  lemma {:induction false} JoinIsReached(ins: seq<Tags>)
    ensures JoinAll(ins).Bottom? <==> forall j :: 0 <= j < |ins| ==> ins[j].Bottom?
  {
    if ins != [] {
      var n := |ins| - 1;
      JoinIsReached(ins[..n]);
      assert forall j :: 0 <= j < n ==> ins[..n][j] == ins[j];
    }
  }

  lemma DefaultMeans(m: Module, x: States, o: OpId, tag: TagId)
    requires o in m.operations
    ensures
      var s, ins := DefaultState(InputStates(m, x, o)), m.operations[o].inputs;
      (s.Bottom? <==> ins != [] && AllUnreached(x, ins)) &&
      (HasSecrecy(s, tag) <==> SomeSecrecy(x, ins, tag)) && !HasIntegrityTag(s, tag)
  {
    var vs, ins := m.operations[o].inputs, InputStates(m, x, o);
    JoinIsReached(ins);
    JoinAllSecrecy(ins, tag);
    forall j | 0 <= j < |ins|
      ensures ins[j] == Get(x, vs[j]) && vs[j] in vs
    {
    }
    if v :| v in vs && HasSecrecy(Get(x, v), tag) {
      var j := IndexOf(vs, v);
      assert HasSecrecy(ins[j], tag);
    }
    if v :| v in vs && Get(x, v).Tags? {
      var j := IndexOf(vs, v);
      assert ins[j].Tags?;
    }
  }

  /** Secrecy of an operation that no transform is about is the union of that of its inputs; integrity is dropped. */
  lemma UntargetedResult(m: Module, policy: Policy, rules: InferenceRules, x: States, o: OpId, i: nat, tag: TagId)
    requires Implements(m, policy, m.operations.Keys, rules) && InBounds(m, rules) && IsSolution(m, rules, x)
    requires HasResult(m, o, i) && IsUntargeted(m, o)
    ensures
      var s, ins := Get(x, OperationResult(o, i)), m.operations[o].inputs;
      (s.Bottom? <==> ins != [] && AllUnreached(x, ins)) &&
      (HasSecrecy(s, tag) <==> SomeSecrecy(x, ins, tag)) && !HasIntegrityTag(s, tag)
  {
    hide IsTargetOf, DefaultState;
    assert rules.RulesFor(o) == map[];
    DefaultMeans(m, x, o, tag);
  }

  // ---------- Merges with a special transform ----------

  lemma {:induction false} UnionMeans(indices: seq<nat>, ins: seq<Tags>, tag: TagId)
    requires IndicesInBounds(indices, |ins|) && !AnyBottom(ins)
    ensures tag in MergedIntegrity(Union, indices, ins) <==> exists k :: 0 <= k < |indices| && tag in ins[indices[k]].integrity
  {
    if indices != [] {
      var n := |indices| - 1;
      UnionMeans(indices[..n], ins, tag);
      if k :| 0 <= k < |indices| && tag in ins[indices[k]].integrity {
        assert k < n ==> indices[..n][k] == indices[k];
      }
      if k :| 0 <= k < n && tag in ins[indices[..n][k]].integrity {
        assert indices[..n][k] == indices[k];
      }
    }
  }

  lemma {:induction false} IntersectionMeans(indices: seq<nat>, ins: seq<Tags>, tag: TagId)
    requires IndicesInBounds(indices, |ins|) && !AnyBottom(ins)
    ensures tag in MergedIntegrity(Intersect, indices, ins) <==>
      indices != [] && forall k :: 0 <= k < |indices| ==> tag in ins[indices[k]].integrity
  {
    if indices != [] {
      var n := |indices| - 1;
      IntersectionMeans(indices[..n], ins, tag);
      assert forall k :: 0 <= k < n ==> indices[..n][k] == indices[k];
    }
  }

  lemma MergeApplies(m: Module, policy: Policy, rules: InferenceRules, x: States, t: OpId)
    requires Implements(m, policy, m.operations.Keys, rules) && InBounds(m, rules) && IsSolution(m, rules, x)
    requires IsTransform(m, t) && HasTarget(m, t) && IsSpecial(GetRuleName(m.operations[t]))
    ensures
      var u := Target(m, t);
      var op, ins := m.operations[u], InputStates(m, x, u);
      var merge := if GetRuleName(m.operations[t]) == UNION_ITAG_RULE then Union else Intersect;
      |GetDirectInputs(op)| <= |ins| &&
      Get(x, OperationResult(u, 0)) == Merge(merge, Positions(|GetDirectInputs(op)|), ins, DefaultState(ins))
  {
    hide Merge, DefaultState;
    var u := Target(m, t);
    var ins := InputStates(m, x, u);
    var own := rules.RulesFor(u);
    assert HasResult(m, u, 0);
    assert own == MergeRules(GetRuleName(m.operations[t]), m.operations[u]);
    var rule := own[0][0];
    assert own[0] == [rule] && own[0][..0] == [];
    assert rule in own[0];
    assert ApplyRules(own[0], ins, DefaultState(ins)) == Interpret(rule, ins, ApplyRules(own[0][..0], ins, DefaultState(ins)));
  }

  /**
   A special transform makes its merge unite, or intersect, the integrity of
   the direct inputs; nothing is vouched for if there are none.
   */
  lemma MergeResult(m: Module, policy: Policy, rules: InferenceRules, x: States, t: OpId, tag: TagId)
    requires Implements(m, policy, m.operations.Keys, rules) && InBounds(m, rules) && IsSolution(m, rules, x)
    requires IsTransform(m, t) && HasTarget(m, t) && IsSpecial(GetRuleName(m.operations[t]))
    ensures
      var op := m.operations[Target(m, t)];
      var s, direct := Get(x, OperationResult(Target(m, t), 0)), GetDirectInputs(op);
      (s.Bottom? <==> SomeUnreached(x, op.inputs)) &&
      (s.Tags? ==>
        (HasSecrecy(s, tag) <==> SomeSecrecy(x, op.inputs, tag)) &&
        (HasIntegrityTag(s, tag) <==>
          if GetRuleName(m.operations[t]) == UNION_ITAG_RULE then SomeIntegrity(x, direct, tag)
          else direct != [] && EveryIntegrity(x, direct, tag)))
  {
    hide Implements, InBounds, IsSolution, DefaultState, Merge;
    var u := Target(m, t);
    MergeApplies(m, policy, rules, x, t);
    DefaultMeans(m, x, u, tag);
    var merge := if GetRuleName(m.operations[t]) == UNION_ITAG_RULE then Union else Intersect;
    MergeMeans(m, x, u, merge, DefaultState(InputStates(m, x, u)), tag);
  }

  /** Merging the integrity of the direct inputs into a state. */
  lemma MergeMeans(m: Module, x: States, u: OpId, merge: MergeKind, current: Tags, tag: TagId)
    requires u in m.operations && IsMerge(m.operations[u])
    requires current.Bottom? ==> m.operations[u].inputs != [] && AllUnreached(x, m.operations[u].inputs)
    ensures
      var op := m.operations[u];
      var direct := GetDirectInputs(op);
      var s := Merge(merge, Positions(|direct|), InputStates(m, x, u), current);
      (s.Bottom? <==> SomeUnreached(x, op.inputs)) &&
      (s.Tags? ==>
        current.Tags? && s.secrecy == current.secrecy &&
        (HasIntegrityTag(s, tag) <==>
          if merge == Union then SomeIntegrity(x, direct, tag) else direct != [] && EveryIntegrity(x, direct, tag)))
  {
    var op, ins := m.operations[u], InputStates(m, x, u);
    var direct := GetDirectInputs(op);
    BottomInputs(m, x, u);
    if current.Bottom? {
      assert op.inputs[0] in op.inputs;
    }
    if !AnyBottom(ins) {
      UnionMeans(Positions(|direct|), ins, tag);
      IntersectionMeans(Positions(|direct|), ins, tag);
      hide MergedIntegrity, AnyBottom;
      forall j | 0 <= j < |direct|
        ensures direct[j] in direct
        ensures tag in ins[j].integrity <==> HasIntegrityTag(Get(x, direct[j]), tag)
      {
        assert direct[j] == op.inputs[j] && ins[j] == Get(x, op.inputs[j]);
        assert op.inputs[j] in op.inputs;
      }
      forall v | v in direct
        ensures exists j :: 0 <= j < |direct| && direct[j] == v && Positions(|direct|)[j] == j
      {
        var j := IndexOf(direct, v);
      }
    }
  }

  lemma BottomInputs(m: Module, x: States, u: OpId)
    requires u in m.operations
    ensures AnyBottom(InputStates(m, x, u)) <==> SomeUnreached(x, m.operations[u].inputs)
  {
    var vs, ins := m.operations[u].inputs, InputStates(m, x, u);
    if v :| v in vs && Get(x, v).Bottom? {
      var j := IndexOf(vs, v);
      assert ins[j].Bottom?;
    }
    if j :| 0 <= j < |ins| && ins[j].Bottom? {
      assert vs[j] in vs;
    }
  }

  // ---------- Ordinary transforms ----------

  /** Every precondition's input has the tag that the precondition requires. */
  ghost predicate PreconditionsHold(x: States, op: Operation, rule: SqlPolicyRule, tags: map<string, TagId>)
    requires IsTagTransform(op) && forall p :: p in rule.preconditions ==> p.argument in PreconditionIndices(op)
  {
    forall p :: p in rule.preconditions ==>
      p.requiredIntegrityTag in tags &&
      Vouches(Get(x, op.inputs[PreconditionIndices(op)[p.argument]]), tags[p.requiredIntegrityTag])
  }

  /** What a policy action does to the tags of the transformed value. */
  function Act(action: Action, tag: TagId, s: Tags): Tags
    requires s.Tags?
  {
    match action
    case Unknown => s
    case AddConfidentiality => Tags(s.secrecy + {tag}, s.integrity)
    case RemoveConfidentiality => Tags(s.secrecy - {tag}, s.integrity)
    case AddIntegrityTag => Tags(s.secrecy, s.integrity + {tag})
  }

  lemma TransformApplies(m: Module, policy: Policy, rules: InferenceRules, x: States, t: OpId)
    requires Implements(m, policy, m.operations.Keys, rules) && InBounds(m, rules) && IsSolution(m, rules, x)
    requires IsTransform(m, t) && CanDecode(m, policy, t) && !IsSpecial(GetRuleName(m.operations[t]))
    ensures
      var op := m.operations[t];
      var rule := policy[GetRuleName(op)];
      var second := InferenceRule(ModifyTag(KindOf(rule.action), TagOf(rules.tags, rule.tag)),
                                  Premises(rule.preconditions, PreconditionIndices(op), rules.tags));
      NamesAllTags(m, policy, rules.tags, t) && RuleInBounds(second, |op.inputs|) &&
      Get(x, OperationResult(t, 0)) == Interpret(second, InputStates(m, x, t), InputStates(m, x, t)[0])
  {
    var op := m.operations[t];
    var rule := policy[GetRuleName(op)];
    var premises := Premises(rule.preconditions, PreconditionIndices(op), rules.tags);
    assert HasResult(m, t, 0);
    assert rules.RulesFor(t) == RulesFrom(m, policy, rules.tags, t);
    var shape := TransformShape(KindOf(rule.action), TagOf(rules.tags, rule.tag), premises);
    assert rules.RulesFor(t)[0] == shape && shape[1] in shape;
    hide Interpret;
    ApplyTransformShape(KindOf(rule.action), TagOf(rules.tags, rule.tag), premises, InputStates(m, x, t), DefaultState(InputStates(m, x, t)));
  }

  /**
   An ordinary transform does to the state of its first input what the action
   of its policy rule says, provided that its preconditions hold.
   */
  lemma TransformResult(m: Module, policy: Policy, rules: InferenceRules, x: States, t: OpId)
    requires Implements(m, policy, m.operations.Keys, rules) && InBounds(m, rules) && IsSolution(m, rules, x)
    requires IsTransform(m, t) && CanDecode(m, policy, t) && !IsSpecial(GetRuleName(m.operations[t]))
    ensures
      var op := m.operations[t];
      var rule, first := policy[GetRuleName(op)], Get(x, op.inputs[0]);
      rule.tag in rules.tags &&
      Get(x, OperationResult(t, 0)) ==
        if first.Tags? && PreconditionsHold(x, op, rule, rules.tags) then Act(rule.action, rules.tags[rule.tag], first) else first
  {
    hide Implements, InBounds, IsSolution, PreconditionsHold;
    var op := m.operations[t];
    var rule := policy[GetRuleName(op)];
    TransformApplies(m, policy, rules, x, t);
    PreconditionsAreMet(m, policy, rules.tags, x, t);
    hide PremisesHold, IsTagTransform;
    assert InputStates(m, x, t)[0] == Get(x, op.inputs[0]);
  }

  lemma PreconditionsAreMet(m: Module, policy: Policy, tags: map<string, TagId>, x: States, t: OpId)
    requires IsTransform(m, t) && CanDecode(m, policy, t) && !IsSpecial(GetRuleName(m.operations[t]))
    requires NamesAllTags(m, policy, tags, t)
    ensures
      var op := m.operations[t];
      var rule := policy[GetRuleName(op)];
      var premises := Premises(rule.preconditions, PreconditionIndices(op), tags);
      (forall p :: p in premises ==> p.index < |op.inputs|) &&
      ((forall p :: p in premises ==> PremiseHolds(p, InputStates(m, x, t))) <==> PreconditionsHold(x, op, rule, tags))
  {
    var op := m.operations[t];
    var rule := policy[GetRuleName(op)];
    var indices, ins := PreconditionIndices(op), InputStates(m, x, t);
    var premises := Premises(rule.preconditions, indices, tags);
    forall i | 0 <= i < |premises|
      ensures premises[i].index < |ins|
      ensures PremiseHolds(premises[i], ins) <==>
        Vouches(Get(x, op.inputs[indices[rule.preconditions[i].argument]]), tags[rule.preconditions[i].requiredIntegrityTag])
    {
      assert rule.preconditions[i] in rule.preconditions;
      assert ins[premises[i].index] == Get(x, op.inputs[premises[i].index]);
    }
    hide IsTagTransform, PremiseHolds, Vouches;
    if forall p :: p in premises ==> PremiseHolds(p, ins) {
      forall q | q in rule.preconditions
        ensures q.requiredIntegrityTag in tags && Vouches(Get(x, op.inputs[indices[q.argument]]), tags[q.requiredIntegrityTag])
      {
        var i := IndexOf(rule.preconditions, q);
        assert premises[i] in premises;
      }
    }
    if PreconditionsHold(x, op, rule, tags) {
      forall p | p in premises
        ensures PremiseHolds(p, ins)
      {
        var i := IndexOf(premises, p);
        assert rule.preconditions[i] in rule.preconditions;
      }
    }
  }
}
