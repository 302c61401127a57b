/**
 What the check of a SQL query answers, in terms of the query and the policy
 alone: when the policy fits the query, and when the query is compliant.
 */
module SqlVerdict {
  import opened Seqs
  import opened IfcTags
  import opened TaintRules
  import opened IrModule
  import opened Transfer
  import opened PolicyChecker
  import opened Ordered
  import opened SqlOps
  import opened SqlDecode
  import opened RulesBuilder
  import opened SqlRules
  import opened SqlLabels

  // ---------- The verdict ----------

  function Operands(e: Expression): set<nat> {
    match e
    case MergeOperation(ins, controls) => set id | id in ins + controls
    case TagTransform(node, _, entries) => {node} + entries.Values
    case _ => {}
  }

  function OperationName(e: Expression): string {
    match e
    case Literal(_) => "sql.literal"
    case MergeOperation(_, _) => "sql.merge"
    case TagTransform(_, _, _) => "sql.tag_transform"
    case _ => ""
  }

  /** No secret gets to an operation that is an egress; the last expression is output. */
  predicate LeaksNothing(pairs: seq<IdExpressionPair>, policy: Policy, egress: set<string>) {
    var labels := Evaluate(pairs, policy, |pairs|);
    (pairs != [] && "sql.sql_output" in egress ==> Of(labels, pairs[|pairs| - 1].id).secrecy == {}) &&
    forall k, id :: 0 <= k < |pairs| && OperationName(pairs[k].expression) in egress && id in Operands(pairs[k].expression) ==>
      Of(labels, id).secrecy == {}
  }

  /** The inputs of an operation are the values of the operands of its expression. */
  lemma InputsAreOperands(pairs: seq<IdExpressionPair>, m: Module, values: ValueTable, ops: seq<Operation>, k: nat)
    requires IsQuery(pairs, m, values, ops) && k < |pairs| && !pairs[k].expression.SourceTableColumn?
    ensures Position(pairs, k) in m.operations
    ensures m.operations[Position(pairs, k)].name == OperationName(pairs[k].expression)
    ensures forall v :: v in m.operations[Position(pairs, k)].inputs <==>
      exists id :: id in Operands(pairs[k].expression) && v == Lookup(values, id)
    ensures forall id :: id in Operands(pairs[k].expression) ==> id in Ids(pairs)
  {
    PairIsDecoded(pairs, m, values, ops, k);
    hide IsQuery;
    IdsOfPrefix(pairs, k);
    match pairs[k].expression
    case Literal(_) => assert Operands(pairs[k].expression) == {}; LiteralOperands(pairs, m, values, ops, k);
    case MergeOperation(_, _) => MergeOperands(pairs, m, values, ops, k);
    case TagTransform(_, _, _) => TransformOperands(pairs, m, values, ops, k);
    case NotSet =>
  }

  lemma LiteralOperands(pairs: seq<IdExpressionPair>, m: Module, values: ValueTable, ops: seq<Operation>, k: nat)
    requires IsQuery(pairs, m, values, ops) && k < |pairs| && pairs[k].expression.Literal?
    ensures Position(pairs, k) in m.operations && m.operations[Position(pairs, k)].inputs == []
    ensures m.operations[Position(pairs, k)].name == "sql.literal"
  {
    LiteralShape(pairs, m, values, ops, k);
  }

  lemma MergeOperands(pairs: seq<IdExpressionPair>, m: Module, values: ValueTable, ops: seq<Operation>, k: nat)
    requires IsQuery(pairs, m, values, ops) && k < |pairs| && pairs[k].expression.MergeOperation?
    ensures Position(pairs, k) in m.operations && m.operations[Position(pairs, k)].name == "sql.merge"
    ensures forall v :: v in m.operations[Position(pairs, k)].inputs <==>
      exists id :: id in Operands(pairs[k].expression) && v == Lookup(values, id)
    ensures Operands(pairs[k].expression) <= Ids(pairs[..k])
  {
    MergeShape(pairs, m, values, ops, k);
    PairIsDecoded(pairs, m, values, ops, k);
    hide IsQuery, IsDecoded, IsMerge, GetDirectInputs, Ids;
    var e := pairs[k].expression;
    var all, vs := e.inputs + e.controlInputs, m.operations[Position(pairs, k)].inputs;
    forall id | id in all
      ensures Lookup(values, id) in vs && id in Ids(pairs[..k])
    {
      var i := IndexOf(all, id);
      assert vs[i] == Lookup(values, id);
    }
    forall v | v in vs
      ensures exists id :: id in Operands(e) && v == Lookup(values, id)
    {
      var i := IndexOf(vs, v);
      assert all[i] in Operands(e);
    }
  }

  lemma TransformReferences(e: Expression, seen: set<nat>)
    requires e.TagTransform? && IsDecodable(e, seen)
    ensures Operands(e) <= seen
  {
  }

  lemma TransformOperands(pairs: seq<IdExpressionPair>, m: Module, values: ValueTable, ops: seq<Operation>, k: nat)
    requires IsQuery(pairs, m, values, ops) && k < |pairs| && pairs[k].expression.TagTransform?
    ensures Position(pairs, k) in m.operations && m.operations[Position(pairs, k)].name == "sql.tag_transform"
    ensures forall v :: v in m.operations[Position(pairs, k)].inputs <==>
      exists id :: id in Operands(pairs[k].expression) && v == Lookup(values, id)
    ensures Operands(pairs[k].expression) <= Ids(pairs[..k])
  {
    hide IsQuery, IsDecoded, IsDecodable, Ids, IsTagTransform, PreconditionIndices, IsTransform, Lookup;
    TransformShapeOf(pairs, m, values, ops, k);
    PairIsDecoded(pairs, m, values, ops, k);
    TransformReferences(pairs[k].expression, Ids(pairs[..k]));
    var e, op := pairs[k].expression, m.operations[Position(pairs, k)];
    assert op.inputs[0] in op.inputs;
    forall a | a in e.tagPreconditions
      ensures Lookup(values, e.tagPreconditions[a]) in op.inputs
    {
      TransformIsReadable(m, Position(pairs, k));
      ArgumentIsInput(op, values, e.tagPreconditions, a);
    }
  }

  lemma TransformIsReadable(m: Module, o: OpId)
    requires IsTransform(m, o)
    ensures IsTagTransform(m.operations[o])
  {
  }

  /** The tags of a state are none exactly if its labels are none. */
  lemma NoSecrecyIff(tags: map<string, TagId>, s: Tags, l: Labels)
    requires Matches(tags, s, l)
    ensures s.Tags? && (s.secrecy == {} <==> l.secrecy == {})
  {
    if n :| n in l.secrecy {
      assert tags[n] in Numbers(tags, l.secrecy);
    }
  }

  lemma OutputShape(pairs: seq<IdExpressionPair>, m: Module, values: ValueTable, ops: seq<Operation>)
    requires IsQuery(pairs, m, values, ops)
    ensures pairs != [] && |ops| in m.operations && m.operations.Keys == NumbersBelow(|ops| + 1)
    ensures m.operations[|ops|].name == "sql.sql_output"
    ensures m.operations[|ops|].inputs == [Lookup(values, pairs[|pairs| - 1].id)]
    ensures |ops| == OperationCount(pairs)
  {
    var all := ops + [CreateSqlOutput(Lookup(values, pairs[|pairs| - 1].id))];
    assert m == GlobalModule(all) && all[|ops|] == CreateSqlOutput(Lookup(values, pairs[|pairs| - 1].id));
  }

  /** The secrecy of an operand, as a tag and as a label. */
  lemma OperandSecrecy(pairs: seq<IdExpressionPair>, m: Module, values: ValueTable, ops: seq<Operation>, policy: Policy,
                       rules: InferenceRules, x: States, order: seq<OpId>, o: OpId, id: nat)
    requires IsQuery(pairs, m, values, ops) && IsAnalysis(m, policy, rules, x, order)
    requires o in m.operations && id in Ids(pairs) && Lookup(values, id) in m.operations[o].inputs
    ensures
      var v := Lookup(values, id);
      v in x && x[v].Tags? && (x[v].HasNoSecrecy() <==> Of(Evaluate(pairs, policy, |pairs|), id).secrecy == {})
  {
    hide IsQuery, Agrees, Matches, IsOrder, Implements, InBounds, IsSolution, IsNumbering;
    LabelsAreTags(pairs, m, values, ops, policy, rules, x, order, |pairs|);
    assert pairs[..|pairs|] == pairs;
    OperandAgrees(m, order, rules.tags, x, values, Evaluate(pairs, policy, |pairs|), o, id);
    NoSecrecyIff(rules.tags, Get(x, Lookup(values, id)), Of(Evaluate(pairs, policy, |pairs|), id));
  }

  /** An egress input is an operand of an expression, or the last expression. */
  lemma EgressOperand(pairs: seq<IdExpressionPair>, m: Module, values: ValueTable, ops: seq<Operation>, o: OpId, v: Value)
    returns (k: nat, id: nat)
    requires IsQuery(pairs, m, values, ops) && o in m.operations && v in m.operations[o].inputs
    ensures v == Lookup(values, id) && id in Ids(pairs) && k <= |pairs|
    ensures
      if k == |pairs| then m.operations[o].name == "sql.sql_output" && pairs != [] && id == pairs[|pairs| - 1].id
      else m.operations[o].name == OperationName(pairs[k].expression) && id in Operands(pairs[k].expression)
  {
    OutputShape(pairs, m, values, ops);
    hide IsQuery;
    if o == |ops| {
      k, id := |pairs|, pairs[|pairs| - 1].id;
    } else {
      k := DecodedFrom(pairs, o);
      assert o == Position(pairs, k);
      InputsAreOperands(pairs, m, values, ops, k);
      id :| id in Operands(pairs[k].expression) && v == Lookup(values, id);
    }
  }

  lemma EgressInput(m: Module, egress: set<string>, o: OpId, v: Value)
    requires o in m.operations && m.operations[o].name in egress && v in m.operations[o].inputs
    ensures IsEgressInput(m, egress, v)
  {
  }

  /** A solution is compliant exactly when, by its labels, the arena leaks nothing. */
  lemma VerdictIsLabels(pairs: seq<IdExpressionPair>, m: Module, values: ValueTable, ops: seq<Operation>, policy: Policy,
                        rules: InferenceRules, x: States, order: seq<OpId>, egress: set<string>)
    requires IsQuery(pairs, m, values, ops) && IsAnalysis(m, policy, rules, x, order)
    ensures IsCompliant(m, egress, x) <==> LeaksNothing(pairs, policy, egress)
  {
    hide IsQuery, IsAnalysis, Evaluate, Of, Operands, OperationName;
    OutputShape(pairs, m, values, ops);
    if IsCompliant(m, egress, x) {
      hide IsEgressInput, IsCompliant;
      var last := pairs[|pairs| - 1].id;
      if "sql.sql_output" in egress {
        CompliantOperand(pairs, m, values, ops, policy, rules, x, order, egress, |ops|, last);
      }
      forall k, id | 0 <= k < |pairs| && OperationName(pairs[k].expression) in egress && id in Operands(pairs[k].expression)
        ensures Of(Evaluate(pairs, policy, |pairs|), id).secrecy == {}
      {
        ColumnsHaveNoOperands(pairs[k].expression);
        InputsAreOperands(pairs, m, values, ops, k);
        CompliantOperand(pairs, m, values, ops, policy, rules, x, order, egress, Position(pairs, k), id);
      }
    }
    if LeaksNothing(pairs, policy, egress) {
      forall v | v in x && x[v].Tags? && IsEgressInput(m, egress, v)
        ensures x[v].HasNoSecrecy()
      {
        var o :| o in m.operations && m.operations[o].name in egress && v in m.operations[o].inputs;
        var k, id := EgressOperand(pairs, m, values, ops, o, v);
        OperandSecrecy(pairs, m, values, ops, policy, rules, x, order, o, id);
      }
    }
  }

  lemma ColumnsHaveNoOperands(e: Expression)
    ensures e.SourceTableColumn? ==> Operands(e) == {}
  {
  }

  lemma CompliantOperand(pairs: seq<IdExpressionPair>, m: Module, values: ValueTable, ops: seq<Operation>, policy: Policy,
                         rules: InferenceRules, x: States, order: seq<OpId>, egress: set<string>, o: OpId, id: nat)
    requires IsQuery(pairs, m, values, ops) && IsAnalysis(m, policy, rules, x, order) && IsCompliant(m, egress, x)
    requires o in m.operations && m.operations[o].name in egress
    requires id in Ids(pairs) && Lookup(values, id) in m.operations[o].inputs
    ensures Of(Evaluate(pairs, policy, |pairs|), id).secrecy == {}
  {
    OperandSecrecy(pairs, m, values, ops, policy, rules, x, order, o, id);
    EgressInput(m, egress, o, Lookup(values, id));
  }

  // ---------- When the policy fits the arena ----------

  predicate TransformFits(pairs: seq<IdExpressionPair>, policy: Policy, e: Expression)
    requires e.TagTransform?
  {
    if e.ruleName in {UNION_ITAG_RULE, INTERSECT_ITAG_RULE} then
      e.tagPreconditions == map[] &&
      exists k :: 0 <= k < |pairs| && pairs[k].id == e.transformedNode && pairs[k].expression.MergeOperation?
    else
      e.ruleName in policy && policy[e.ruleName].action != Unknown &&
      forall p :: p in policy[e.ruleName].preconditions ==> p.argument in e.tagPreconditions
  }

  predicate IsRefinement(e: Expression) {
    e.TagTransform? && e.ruleName in {UNION_ITAG_RULE, INTERSECT_ITAG_RULE}
  }

  /** Every transform has its rule, and no merge is refined twice. */
  predicate PolicyFits(pairs: seq<IdExpressionPair>, policy: Policy) {
    (forall k :: 0 <= k < |pairs| && pairs[k].expression.TagTransform? ==> TransformFits(pairs, policy, pairs[k].expression)) &&
    forall j, k :: 0 <= j < k < |pairs| && IsRefinement(pairs[j].expression) && IsRefinement(pairs[k].expression) ==>
      pairs[j].expression.transformedNode != pairs[k].expression.transformedNode
  }

  /** The operation of a node: that of the expression with this id. */
  lemma NodeOfTransform(pairs: seq<IdExpressionPair>, m: Module, values: ValueTable, ops: seq<Operation>, k: nat) returns (i: nat)
    requires IsQuery(pairs, m, values, ops) && k < |pairs| && pairs[k].expression.TagTransform?
    ensures i < |pairs| && pairs[i].id == pairs[k].expression.transformedNode
    ensures Lookup(values, pairs[i].id).OperationResult? <==> !pairs[i].expression.SourceTableColumn?
    ensures !pairs[i].expression.SourceTableColumn? ==>
      Lookup(values, pairs[i].id) == OperationResult(Position(pairs, i), 0) && Position(pairs, i) in m.operations
  {
    PairIsDecoded(pairs, m, values, ops, k);
    IdsOfPrefix(pairs, k);
    i := IdIsPair(pairs, pairs[k].expression.transformedNode);
    PairIsDecoded(pairs, m, values, ops, i);
  }

  lemma IdsDiffer(pairs: seq<IdExpressionPair>)
    requires AreDecodable(pairs)
    ensures forall i, k :: 0 <= i < k < |pairs| ==> pairs[i].id != pairs[k].id
  {
    forall i, k | 0 <= i < k < |pairs|
      ensures pairs[i].id != pairs[k].id
    {
      assert pairs[..k][i] == pairs[i];
      assert pairs[..k][i].id in Ids(pairs[..k]);
    }
  }

  lemma MergeIsMerge(pairs: seq<IdExpressionPair>, m: Module, values: ValueTable, ops: seq<Operation>, i: nat)
    requires IsQuery(pairs, m, values, ops) && i < |pairs| && !pairs[i].expression.SourceTableColumn?
    ensures Position(pairs, i) in m.operations
    ensures
      var op := m.operations[Position(pairs, i)];
      op.name == MERGE_OP && IsMerge(op) <==> pairs[i].expression.MergeOperation?
  {
    InputsAreOperands(pairs, m, values, ops, i);
    PairIsDecoded(pairs, m, values, ops, i);
    hide IsQuery;
    if pairs[i].expression.MergeOperation? {
      MergeShape(pairs, m, values, ops, i);
    }
  }

  lemma HasTargetIff(pairs: seq<IdExpressionPair>, m: Module, values: ValueTable, ops: seq<Operation>, k: nat)
    requires IsQuery(pairs, m, values, ops) && k < |pairs| && IsRefinement(pairs[k].expression)
    ensures IsTransform(m, Position(pairs, k))
    ensures HasTarget(m, Position(pairs, k)) <==>
      pairs[k].expression.tagPreconditions == map[] &&
      exists i :: 0 <= i < |pairs| && pairs[i].id == pairs[k].expression.transformedNode && pairs[i].expression.MergeOperation?
  {
    hide IsTagTransform, PreconditionIndices, IsMerge;
    TransformShapeOf(pairs, m, values, ops, k);
    var i := NodeOfTransform(pairs, m, values, ops, k);
    IdsDiffer(pairs);
    hide IsQuery;
    if !pairs[i].expression.SourceTableColumn? {
      MergeIsMerge(pairs, m, values, ops, i);
    }
    assert |pairs[k].expression.tagPreconditions| == 0 <==> pairs[k].expression.tagPreconditions == map[];
  }

  lemma CanDecodeIff(pairs: seq<IdExpressionPair>, m: Module, values: ValueTable, ops: seq<Operation>, policy: Policy, k: nat)
    requires IsQuery(pairs, m, values, ops) && k < |pairs| && pairs[k].expression.TagTransform?
    ensures CanDecode(m, policy, Position(pairs, k)) <==> TransformFits(pairs, policy, pairs[k].expression)
  {
    hide IsTagTransform, PreconditionIndices, IsMerge;
    TransformShapeOf(pairs, m, values, ops, k);
    if IsRefinement(pairs[k].expression) {
      HasTargetIff(pairs, m, values, ops, k);
    }
  }

  /** Two refinements have the same target exactly if they are about the same node. */
  lemma SameTargetIff(pairs: seq<IdExpressionPair>, m: Module, values: ValueTable, ops: seq<Operation>, j: nat, k: nat)
    requires IsQuery(pairs, m, values, ops) && j < |pairs| && k < |pairs|
    requires IsRefinement(pairs[j].expression) && IsRefinement(pairs[k].expression)
    requires IsTransform(m, Position(pairs, j)) && HasTarget(m, Position(pairs, j))
    requires IsTransform(m, Position(pairs, k)) && HasTarget(m, Position(pairs, k))
    ensures Target(m, Position(pairs, j)) == Target(m, Position(pairs, k)) <==>
      pairs[j].expression.transformedNode == pairs[k].expression.transformedNode
  {
    hide IsQuery, IsTagTransform, PreconditionIndices, IsMerge;
    TransformShapeOf(pairs, m, values, ops, j);
    TransformShapeOf(pairs, m, values, ops, k);
    var a := NodeOfTransform(pairs, m, values, ops, j);
    var b := NodeOfTransform(pairs, m, values, ops, k);
    if Target(m, Position(pairs, j)) == Target(m, Position(pairs, k)) {
      PositionsDiffer(pairs, a, b);
    }
  }

  lemma DifferentNodes(pairs: seq<IdExpressionPair>, m: Module, values: ValueTable, ops: seq<Operation>, policy: Policy, j: nat, k: nat)
    requires IsQuery(pairs, m, values, ops) && (forall o :: o in m.operations ==> CanDecode(m, policy, o))
    requires TargetsDiffer(m, m.operations.Keys)
    requires j < k < |pairs| && IsRefinement(pairs[j].expression) && IsRefinement(pairs[k].expression)
    ensures pairs[j].expression.transformedNode != pairs[k].expression.transformedNode
  {
    hide IsQuery, IsTagTransform, PreconditionIndices, IsMerge, HasTarget, Target, HasRule;
    TransformShapeOf(pairs, m, values, ops, j);
    TransformShapeOf(pairs, m, values, ops, k);
    PositionsGrow(pairs, j, k);
    var a, b := Position(pairs, j), Position(pairs, k);
    assert CanDecode(m, policy, a) && CanDecode(m, policy, b);
    hide IsTransform, Position, CanDecode;
    SameTargetIff(pairs, m, values, ops, j, k);
    assert IsTargetOf(m, a, Target(m, a)) && IsTargetOf(m, b, Target(m, b));
  }

  lemma SameTargetMeansSame(pairs: seq<IdExpressionPair>, m: Module, values: ValueTable, ops: seq<Operation>, t: OpId, t': OpId, u: OpId)
    requires IsQuery(pairs, m, values, ops) && IsTargetOf(m, t, u) && IsTargetOf(m, t', u)
    requires forall j, k :: 0 <= j < k < |pairs| && IsRefinement(pairs[j].expression) && IsRefinement(pairs[k].expression) ==>
      pairs[j].expression.transformedNode != pairs[k].expression.transformedNode
    ensures t == t'
  {
    hide IsQuery, IsTagTransform, PreconditionIndices, IsMerge;
    TargetsAreMerges(m, t, u);
    TargetsAreMerges(m, t', u);
    var j := TransformComesFrom(pairs, m, values, ops, t);
    var k := TransformComesFrom(pairs, m, values, ops, t');
    TransformShapeOf(pairs, m, values, ops, j);
    TransformShapeOf(pairs, m, values, ops, k);
    hide HasTarget, Target, Position;
    if IsSpecial(GetRuleName(m.operations[t])) && IsSpecial(GetRuleName(m.operations[t'])) {
      SameTargetIff(pairs, m, values, ops, j, k);
    }
  }

  lemma NoTwoTargets(m: Module)
    requires forall t, t', u :: IsTargetOf(m, t, u) && IsTargetOf(m, t', u) ==> t == t'
    ensures TargetsDiffer(m, m.operations.Keys)
  {
  }

  /** Decoding the policy rules for a module can be decided by looking at the arena. */
  lemma PolicyFitsIff(pairs: seq<IdExpressionPair>, m: Module, values: ValueTable, ops: seq<Operation>, policy: Policy)
    requires IsQuery(pairs, m, values, ops)
    ensures PolicyFits(pairs, policy) <==>
      (forall o :: o in m.operations ==> CanDecode(m, policy, o)) && TargetsDiffer(m, m.operations.Keys)
  {
    hide IsQuery, TransformFits, IsTransform, TargetsDiffer, HasTarget, HasRule;
    forall k | 0 <= k < |pairs| && pairs[k].expression.TagTransform?
      ensures Position(pairs, k) in m.operations
      ensures CanDecode(m, policy, Position(pairs, k)) <==> TransformFits(pairs, policy, pairs[k].expression)
    {
      TransformShapeOf(pairs, m, values, ops, k);
      CanDecodeIff(pairs, m, values, ops, policy, k);
    }
    forall o | o in m.operations && !CanDecode(m, policy, o)
      ensures exists k :: 0 <= k < |pairs| && pairs[k].expression.TagTransform? && o == Position(pairs, k)
    {
      var k := TransformComesFrom(pairs, m, values, ops, o);
    }
    hide CanDecode, IsRefinement;
    if (forall o :: o in m.operations ==> CanDecode(m, policy, o)) && TargetsDiffer(m, m.operations.Keys) {
      forall j, k | 0 <= j < k < |pairs| && IsRefinement(pairs[j].expression) && IsRefinement(pairs[k].expression)
        ensures pairs[j].expression.transformedNode != pairs[k].expression.transformedNode
      {
        DifferentNodes(pairs, m, values, ops, policy, j, k);
      }
    }
    if PolicyFits(pairs, policy) {
      forall t, t', u | IsTargetOf(m, t, u) && IsTargetOf(m, t', u)
        ensures t == t'
      {
        SameTargetMeansSame(pairs, m, values, ops, t, t', u);
      }
      NoTwoTargets(m);
    }
  }

  // ---------- Confidentiality under conditions ----------

  /** A transform whose rule adds confidentiality under a precondition. */
  predicate IsConditional(policy: Policy, e: Expression) {
    e.TagTransform? && !IsRefinement(e) && e.ruleName in policy &&
    policy[e.ruleName].action == AddConfidentiality && policy[e.ruleName].preconditions != []
  }

  predicate HasConditionalSecrecy(pairs: seq<IdExpressionPair>, policy: Policy) {
    exists k :: 0 <= k < |pairs| && IsConditional(policy, pairs[k].expression)
  }

  lemma ConditionalSecrecyIff(pairs: seq<IdExpressionPair>, m: Module, values: ValueTable, ops: seq<Operation>, policy: Policy)
    requires IsQuery(pairs, m, values, ops) && forall o :: o in m.operations ==> CanDecode(m, policy, o)
    ensures HasConditionalSecrecy(pairs, policy) <==> exists t :: t in m.operations && AddsSecrecyOnCondition(m, policy, t)
  {
    hide IsQuery, IsTagTransform, HasTarget, HasRule;
    if k :| 0 <= k < |pairs| && IsConditional(policy, pairs[k].expression) {
      TransformShapeOf(pairs, m, values, ops, k);
      assert AddsSecrecyOnCondition(m, policy, Position(pairs, k));
    }
    if t :| t in m.operations && AddsSecrecyOnCondition(m, policy, t) {
      var k := TransformComesFrom(pairs, m, values, ops, t);
      TransformShapeOf(pairs, m, values, ops, k);
      RuleIsInPolicy(m, policy, t);
      assert IsConditional(policy, pairs[k].expression);
    }
  }

  lemma RuleIsInPolicy(m: Module, policy: Policy, t: OpId)
    requires IsTransform(m, t) && CanDecode(m, policy, t) && !IsSpecial(GetRuleName(m.operations[t]))
    ensures GetRuleName(m.operations[t]) in policy
  {
  }
}
