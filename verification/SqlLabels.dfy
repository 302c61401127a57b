/**
 A meaning for arenas of SQL expressions that mentions neither operations nor
 rules nor tag numbers: every expression has the names of the secrets it may
 reveal and of the guarantees it carries.  The taint analysis of the decoded
 module computes it.
 */
module SqlLabels {
  import opened Seqs
  import opened IfcTags
  import opened TaintRules
  import opened IrModule
  import opened Transfer
  import opened FlowPaths
  import opened Ordered
  import opened SqlOps
  import opened SqlDecode
  import opened SqlRules
  import opened SqlMeaning

  // ---------- The labels of an arena ----------

  datatype Labels = Labels(secrecy: set<string>, integrity: set<string>)

  const NO_LABELS := Labels({}, {})

  type LabelTable = map<nat, Labels>

  function Of(table: LabelTable, id: nat): Labels {
    if id in table then table[id] else NO_LABELS
  }

  function AllSecrecy(table: LabelTable, ids: seq<nat>): set<string> {
    set i, n | 0 <= i < |ids| && n in Of(table, ids[i]).secrecy :: n
  }

  function SomeonesIntegrity(table: LabelTable, ids: seq<nat>): set<string> {
    set i, n | 0 <= i < |ids| && n in Of(table, ids[i]).integrity :: n
  }

  function EveryonesIntegrity(table: LabelTable, ids: seq<nat>): set<string> {
    if ids == [] then {}
    else set n | n in Of(table, ids[0]).integrity && forall i :: 0 <= i < |ids| ==> n in Of(table, ids[i]).integrity
  }

  /** Some transform of the arena tells with `rule` how to merge the integrity at `id`. */
  predicate IsRefined(pairs: seq<IdExpressionPair>, rule: string, id: nat) {
    exists k :: 0 <= k < |pairs| && pairs[k].expression.TagTransform? &&
      pairs[k].expression.ruleName == rule && pairs[k].expression.transformedNode == id
  }

  function MergedIntegrityOf(pairs: seq<IdExpressionPair>, table: LabelTable, id: nat, ins: seq<nat>): set<string> {
    if IsRefined(pairs, "##raksha_internal#union_itag_rule", id) then SomeonesIntegrity(table, ins)
    else if IsRefined(pairs, "##raksha_internal#intersect_itag_rule", id) then EveryonesIntegrity(table, ins)
    else {}
  }

  predicate AreMet(table: LabelTable, entries: map<string, nat>, preconditions: seq<Precondition>) {
    forall p :: p in preconditions ==>
      p.argument in entries && p.requiredIntegrityTag in Of(table, entries[p.argument]).integrity
  }

  function Acted(rule: SqlPolicyRule, l: Labels): Labels {
    match rule.action
    case Unknown => l
    case AddConfidentiality => Labels(l.secrecy + {rule.tag}, l.integrity)
    case RemoveConfidentiality => Labels(l.secrecy - {rule.tag}, l.integrity)
    case AddIntegrityTag => Labels(l.secrecy, l.integrity + {rule.tag})
  }

  function TransformedLabels(policy: Policy, table: LabelTable, node: nat, rule: string, entries: map<string, nat>): Labels {
    var l := Of(table, node);
    if rule in {UNION_ITAG_RULE, INTERSECT_ITAG_RULE} then Labels(l.secrecy, {})
    else if rule in policy && AreMet(table, entries, policy[rule].preconditions) then Acted(policy[rule], l)
    else l
  }

  function LabelsOf(pairs: seq<IdExpressionPair>, policy: Policy, table: LabelTable, pair: IdExpressionPair): Labels {
    match pair.expression
    case NotSet => NO_LABELS
    case SourceTableColumn(_) => NO_LABELS
    case Literal(_) => NO_LABELS
    case MergeOperation(ins, controls) =>
      Labels(AllSecrecy(table, ins + controls), MergedIntegrityOf(pairs, table, pair.id, ins))
    case TagTransform(node, rule, entries) => TransformedLabels(policy, table, node, rule, entries)
  }

  /** The labels of the first `n` expressions. */
  function Evaluate(pairs: seq<IdExpressionPair>, policy: Policy, n: nat): (table: LabelTable)
    requires n <= |pairs|
    ensures table.Keys == Ids(pairs[..n])
  {
    if n == 0 then map[]
    else
      var before := Evaluate(pairs, policy, n - 1);
      assert pairs[..n] == pairs[..n - 1] + [pairs[n - 1]];
      IdsOneMore(pairs[..n]);
      before[pairs[n - 1].id := LabelsOf(pairs, policy, before, pairs[n - 1])]
  }

  // ---------- Names and numbers of tags ----------

  function Numbers(tags: map<string, TagId>, names: set<string>): set<TagId> {
    set n | n in names && n in tags :: tags[n]
  }

  ghost predicate IsNumbering(tags: map<string, TagId>) {
    forall a, b :: a in tags && b in tags && tags[a] == tags[b] ==> a == b
  }

  lemma NumberOfName(tags: map<string, TagId>, names: set<string>, n: string)
    requires IsNumbering(tags) && n in tags
    ensures tags[n] in Numbers(tags, names) <==> n in names
  {
  }

  lemma NumbersOneMore(tags: map<string, TagId>, names: set<string>, n: string)
    requires IsNumbering(tags) && n in tags
    ensures Numbers(tags, names + {n}) == Numbers(tags, names) + {tags[n]}
    ensures Numbers(tags, names - {n}) == Numbers(tags, names) - {tags[n]}
  {
  }

  /** The state stands for the labels. */
  ghost predicate Matches(tags: map<string, TagId>, s: Tags, l: Labels) {
    l.secrecy <= tags.Keys && l.integrity <= tags.Keys &&
    s == Tags(Numbers(tags, l.secrecy), Numbers(tags, l.integrity))
  }

  ghost predicate AllMatch(tags: map<string, TagId>, x: States, values: ValueTable, table: LabelTable, ids: seq<nat>) {
    forall i :: 0 <= i < |ids| ==> Matches(tags, Get(x, Lookup(values, ids[i])), Of(table, ids[i]))
  }

  lemma SecrecyMatches(tags: map<string, TagId>, x: States, values: ValueTable, table: LabelTable, ids: seq<nat>, tag: TagId)
    requires AllMatch(tags, x, values, table, ids)
    ensures SomeSecrecy(x, LookupAll(values, ids), tag) <==> tag in Numbers(tags, AllSecrecy(table, ids))
    ensures AllSecrecy(table, ids) <= tags.Keys && !SomeUnreached(x, LookupAll(values, ids))
  {
    var vs := LookupAll(values, ids);
    forall i | 0 <= i < |ids|
      ensures Matches(tags, Get(x, vs[i]), Of(table, ids[i])) && vs[i] in vs
    {
    }
    if v :| v in vs && HasSecrecy(Get(x, v), tag) {
      var i := IndexOf(vs, v);
      var n :| n in Of(table, ids[i]).secrecy && n in tags && tags[n] == tag;
      assert n in AllSecrecy(table, ids);
    }
    if tag in Numbers(tags, AllSecrecy(table, ids)) {
      var n :| n in AllSecrecy(table, ids) && n in tags && tags[n] == tag;
      var i :| 0 <= i < |ids| && n in Of(table, ids[i]).secrecy;
      assert HasSecrecy(Get(x, vs[i]), tag);
    }
  }

  lemma UnionMatches(tags: map<string, TagId>, x: States, values: ValueTable, table: LabelTable, ids: seq<nat>, tag: TagId)
    requires AllMatch(tags, x, values, table, ids)
    ensures SomeIntegrity(x, LookupAll(values, ids), tag) <==> tag in Numbers(tags, SomeonesIntegrity(table, ids))
    ensures SomeonesIntegrity(table, ids) <= tags.Keys
  {
    var vs := LookupAll(values, ids);
    forall i | 0 <= i < |ids|
      ensures Matches(tags, Get(x, vs[i]), Of(table, ids[i])) && vs[i] in vs
    {
    }
    if v :| v in vs && HasIntegrityTag(Get(x, v), tag) {
      var i := IndexOf(vs, v);
      var n :| n in Of(table, ids[i]).integrity && n in tags && tags[n] == tag;
      assert n in SomeonesIntegrity(table, ids);
    }
    if tag in Numbers(tags, SomeonesIntegrity(table, ids)) {
      var n :| n in SomeonesIntegrity(table, ids) && n in tags && tags[n] == tag;
      var i :| 0 <= i < |ids| && n in Of(table, ids[i]).integrity;
      assert HasIntegrityTag(Get(x, vs[i]), tag);
    }
  }

  lemma IntersectionMatches(tags: map<string, TagId>, x: States, values: ValueTable, table: LabelTable, ids: seq<nat>, tag: TagId)
    requires AllMatch(tags, x, values, table, ids) && IsNumbering(tags)
    ensures ids != [] && EveryIntegrity(x, LookupAll(values, ids), tag) <==> tag in Numbers(tags, EveryonesIntegrity(table, ids))
    ensures EveryonesIntegrity(table, ids) <= tags.Keys
  {
    var vs := LookupAll(values, ids);
    forall i | 0 <= i < |ids|
      ensures Matches(tags, Get(x, vs[i]), Of(table, ids[i])) && vs[i] in vs
    {
    }
    if ids != [] && EveryIntegrity(x, vs, tag) {
      assert HasIntegrityTag(Get(x, vs[0]), tag);
      var n :| n in Of(table, ids[0]).integrity && n in tags && tags[n] == tag;
      forall i | 0 <= i < |ids|
        ensures n in Of(table, ids[i]).integrity
      {
        assert HasIntegrityTag(Get(x, vs[i]), tag);
        NumberOfName(tags, Of(table, ids[i]).integrity, n);
      }
      assert n in EveryonesIntegrity(table, ids);
    }
    if tag in Numbers(tags, EveryonesIntegrity(table, ids)) {
      var n :| n in EveryonesIntegrity(table, ids) && n in tags && tags[n] == tag;
      forall v | v in vs
        ensures HasIntegrityTag(Get(x, v), tag)
      {
        var i := IndexOf(vs, v);
        assert n in Of(table, ids[i]).integrity;
      }
    }
  }

  // ---------- The operations of an arena ----------

  ghost predicate IsQuery(pairs: seq<IdExpressionPair>, m: Module, values: ValueTable, ops: seq<Operation>) {
    AreDecodable(pairs) && IsModuleOf(pairs, m, values, ops)
  }

  /** The operation of an expression that is not a column. */
  function Position(pairs: seq<IdExpressionPair>, k: nat): OpId
    requires k <= |pairs|
  {
    OperationCount(pairs[..k])
  }

  lemma {:induction false} PositionsGrow(pairs: seq<IdExpressionPair>, j: nat, k: nat)
    requires j <= k <= |pairs|
    ensures Position(pairs, j) <= Position(pairs, k)
    ensures j < k && !pairs[j].expression.SourceTableColumn? ==> Position(pairs, j) < Position(pairs, k)
  {
    if j < k {
      PositionsGrow(pairs, j, k - 1);
      assert pairs[..k][..k - 1] == pairs[..k - 1];
    }
  }

  lemma PairIsDecoded(pairs: seq<IdExpressionPair>, m: Module, values: ValueTable, ops: seq<Operation>, k: nat)
    requires IsQuery(pairs, m, values, ops) && k < |pairs|
    ensures values.Keys == Ids(pairs) && pairs[k].id in values
    ensures IsDecodable(pairs[k].expression, Ids(pairs[..k])) && pairs[k].id !in Ids(pairs[..k])
    ensures IsDecoded(pairs[k].expression, values, ops, values[pairs[k].id])
    ensures !pairs[k].expression.SourceTableColumn? ==>
      var o := Position(pairs, k);
      values[pairs[k].id] == OperationResult(o, 0) && o < |ops| && o in m.operations && m.operations[o] == ops[o]
  {
    hide IsDecodable, IsDecoded, Ids;
    var all := ops + [CreateSqlOutput(Lookup(values, pairs[|pairs| - 1].id))];
    assert IsPairDecoded(pairs[k], OperationCount(pairs[..k]), values, ops);
    PositionsGrow(pairs, k, |pairs|);
    assert pairs[..|pairs|] == pairs;
    assert forall o :: 0 <= o < |ops| ==> all[o] == ops[o];
  }

  lemma LiteralShape(pairs: seq<IdExpressionPair>, m: Module, values: ValueTable, ops: seq<Operation>, k: nat)
    requires IsQuery(pairs, m, values, ops) && k < |pairs| && pairs[k].expression.Literal?
    ensures Position(pairs, k) in m.operations
    ensures m.operations[Position(pairs, k)] ==
      Operation("sql.literal", [], 1, map["literal_string" := StringAttribute(pairs[k].expression.text)])
  {
    PairIsDecoded(pairs, m, values, ops, k);
  }

  lemma MergeShape(pairs: seq<IdExpressionPair>, m: Module, values: ValueTable, ops: seq<Operation>, k: nat)
    requires IsQuery(pairs, m, values, ops) && k < |pairs| && pairs[k].expression.MergeOperation?
    ensures Position(pairs, k) in m.operations
    ensures
      var e, op := pairs[k].expression, m.operations[Position(pairs, k)];
      op.name == MERGE_OP && IsMerge(op) && op.outputs == 1 &&
      op.attributes == map["control_input_start_index" := Int64Attribute(|e.inputs|)] &&
      op.inputs == LookupAll(values, e.inputs + e.controlInputs) && GetDirectInputs(op) == LookupAll(values, e.inputs)
  {
    hide IsModuleOf, AreDecodable;
    PairIsDecoded(pairs, m, values, ops, k);
    var e := pairs[k].expression;
    MergeRoundTrip(LookupAll(values, e.inputs), LookupAll(values, e.controlInputs));
    assert LookupAll(values, e.inputs + e.controlInputs) == LookupAll(values, e.inputs) + LookupAll(values, e.controlInputs);
  }

  /** The transform has the names and inputs of its expression. */
  lemma TransformShapeOf(pairs: seq<IdExpressionPair>, m: Module, values: ValueTable, ops: seq<Operation>, k: nat)
    requires IsQuery(pairs, m, values, ops) && k < |pairs| && pairs[k].expression.TagTransform?
    ensures Position(pairs, k) in m.operations
    ensures
      var e, op := pairs[k].expression, m.operations[Position(pairs, k)];
      op.name == TAG_TRANSFORM_OP && op.outputs == 1 && IsTransform(m, Position(pairs, k)) && GetRuleName(op) == e.ruleName &&
      "rule_name" in op.attributes && op.attributes["rule_name"] == StringAttribute(e.ruleName) &&
      |op.inputs| == |e.tagPreconditions| + 1 && op.inputs[0] == Lookup(values, e.transformedNode) &&
      PreconditionIndices(op).Keys == e.tagPreconditions.Keys &&
      (forall a :: a in e.tagPreconditions ==> op.inputs[PreconditionIndices(op)[a]] == Lookup(values, e.tagPreconditions[a])) &&
      forall v :: v in op.inputs ==>
        v == Lookup(values, e.transformedNode) || exists a :: a in e.tagPreconditions && v == Lookup(values, e.tagPreconditions[a])
  {
    hide IsTransformOf, Enumerates, HasDistinctNames, IsTagTransform;
    PairIsDecoded(pairs, m, values, ops, k);
    hide IsQuery;
    var e, op := pairs[k].expression, m.operations[Position(pairs, k)];
    var preconditions: Preconditions :| Enumerates(preconditions, e.tagPreconditions, values) && HasDistinctNames(preconditions) &&
      IsTransformOf(op, e.ruleName, Lookup(values, e.transformedNode), preconditions);
    TransformRoundTrip(op, e.ruleName, Lookup(values, e.transformedNode), preconditions);
    TransformInputs(op, e.ruleName, e.transformedNode, e.tagPreconditions, values, preconditions);
  }

  lemma TransformInputs(op: Operation, rule: string, node: nat, entries: map<string, nat>, values: ValueTable, preconditions: Preconditions)
    requires IsTransformOf(op, rule, Lookup(values, node), preconditions) && HasDistinctNames(preconditions) && IsTagTransform(op)
    requires Enumerates(preconditions, entries, values)
    ensures op.name == TAG_TRANSFORM_OP && op.outputs == 1
    ensures "rule_name" in op.attributes && op.attributes["rule_name"] == StringAttribute(rule)
    ensures |op.inputs| == |entries| + 1 && op.inputs[0] == Lookup(values, node)
    ensures PreconditionIndices(op).Keys == entries.Keys
    ensures forall a :: a in entries ==> op.inputs[PreconditionIndices(op)[a]] == Lookup(values, entries[a])
    ensures forall v :: v in op.inputs ==> v == Lookup(values, node) || exists a :: a in entries && v == Lookup(values, entries[a])
  {
    TransformRoundTrip(op, rule, Lookup(values, node), preconditions);
    forall a
      ensures a in entries <==> HasName(preconditions, a)
    {
      if a in entries {
        EnumerationCovers(preconditions, entries, values, a);
      }
    }
    hide IsTagTransform;
    forall a | a in entries
      ensures op.inputs[PreconditionIndices(op)[a]] == Lookup(values, entries[a])
    {
      var i :| 0 <= i < |preconditions| && preconditions[i].0 == a;
    }
    forall v | v in op.inputs
      ensures v == Lookup(values, node) || exists a :: a in entries && v == Lookup(values, entries[a])
    {
      var i := IndexOf(op.inputs, v);
      if i > 0 {
        assert op.inputs[i - 1 + 1] == preconditions[i - 1].1;
        assert preconditions[i - 1].0 in entries;
      }
    }
  }

  /** Transforms come from expressions. */
  lemma TransformComesFrom(pairs: seq<IdExpressionPair>, m: Module, values: ValueTable, ops: seq<Operation>, t: OpId) returns (k: nat)
    requires IsQuery(pairs, m, values, ops) && IsTransform(m, t)
    ensures k < |pairs| && pairs[k].expression.TagTransform? && t == Position(pairs, k)
  {
    var all := ops + [CreateSqlOutput(Lookup(values, pairs[|pairs| - 1].id))];
    assert t < |all| && m.operations[t] == all[t];
    assert t < |ops|;
    k := DecodedFrom(pairs, t);
    PairIsDecoded(pairs, m, values, ops, k);
  }

  // ---------- Which operations transforms are about ----------

  lemma TargetsAreMerges(m: Module, t: OpId, u: OpId)
    requires IsTargetOf(m, t, u)
    ensures u in m.operations
    ensures if IsSpecial(GetRuleName(m.operations[t])) then m.operations[u].name == MERGE_OP else t == u
  {
  }

  lemma OnlyMergesAreTargeted(pairs: seq<IdExpressionPair>, m: Module, values: ValueTable, ops: seq<Operation>, k: nat)
    requires IsQuery(pairs, m, values, ops) && k < |pairs|
    requires pairs[k].expression.Literal? || (pairs[k].expression.TagTransform? && IsSpecial(pairs[k].expression.ruleName))
    ensures IsUntargeted(m, Position(pairs, k))
  {
    if pairs[k].expression.Literal? {
      LiteralShape(pairs, m, values, ops, k);
    } else {
      TransformShapeOf(pairs, m, values, ops, k);
    }
    hide IsQuery, IsTagTransform;
    forall t | t in m.operations
      ensures !IsTargetOf(m, t, Position(pairs, k))
    {
      if IsTargetOf(m, t, Position(pairs, k)) {
        TargetsAreMerges(m, t, Position(pairs, k));
      }
    }
  }

  /** A transform that refines the merge of an expression is one of the arena. */
  lemma TargetIsRefined(pairs: seq<IdExpressionPair>, m: Module, values: ValueTable, ops: seq<Operation>, k: nat, t: OpId)
    requires IsQuery(pairs, m, values, ops) && k < |pairs| && pairs[k].expression.MergeOperation?
    requires IsTargetOf(m, t, Position(pairs, k))
    ensures IsSpecial(GetRuleName(m.operations[t])) && IsRefined(pairs, GetRuleName(m.operations[t]), pairs[k].id)
  {
    hide IsQuery, IsRefined, IsDecoded;
    MergeShape(pairs, m, values, ops, k);
    TargetsAreMerges(m, t, Position(pairs, k));
    var j := TransformComesFrom(pairs, m, values, ops, t);
    TransformShapeOf(pairs, m, values, ops, j);
    var e := pairs[j].expression;
    PairIsDecoded(pairs, m, values, ops, j);
    PairIsDecoded(pairs, m, values, ops, k);
    var i := IdIsPair(pairs[..j], e.transformedNode);
    PairIsDecoded(pairs, m, values, ops, i);
    assert Lookup(values, pairs[i].id).OperationResult? && Lookup(values, pairs[i].id).op == Position(pairs, k);
    NodeIsOperation(pairs, m, values, ops, i);
    PositionsDiffer(pairs, i, k);
    assert IsRefined(pairs, e.ruleName, pairs[k].id) by {
      RefinedBy(pairs, j);
    }
  }

  lemma RefinedBy(pairs: seq<IdExpressionPair>, j: nat)
    requires j < |pairs| && pairs[j].expression.TagTransform?
    ensures IsRefined(pairs, pairs[j].expression.ruleName, pairs[j].expression.transformedNode)
  {
  }

  lemma IdIsPair(pairs: seq<IdExpressionPair>, id: nat) returns (i: nat)
    requires id in Ids(pairs)
    ensures i < |pairs| && pairs[i].id == id
  {
    i :| 0 <= i < |pairs| && pairs[i].id == id;
  }

  lemma NodeIsOperation(pairs: seq<IdExpressionPair>, m: Module, values: ValueTable, ops: seq<Operation>, i: nat)
    requires IsQuery(pairs, m, values, ops) && i < |pairs|
    requires Lookup(values, pairs[i].id).OperationResult?
    ensures !pairs[i].expression.SourceTableColumn?
  {
    PairIsDecoded(pairs, m, values, ops, i);
  }

  lemma PositionsDiffer(pairs: seq<IdExpressionPair>, i: nat, k: nat)
    requires i < |pairs| && k < |pairs| && Position(pairs, i) == Position(pairs, k)
    requires !pairs[i].expression.SourceTableColumn? && !pairs[k].expression.SourceTableColumn?
    ensures i == k
  {
    PositionsGrow(pairs, if i < k then i else k, if i < k then k else i);
  }

  /** A special transform of the arena that refers to a merge is about its operation. */
  lemma RefinementIsTarget(pairs: seq<IdExpressionPair>, m: Module, values: ValueTable, ops: seq<Operation>, policy: Policy,
                           rule: string, k: nat)
    returns (t: OpId)
    requires IsQuery(pairs, m, values, ops) && k < |pairs| && pairs[k].expression.MergeOperation?
    requires IsSpecial(rule) && IsRefined(pairs, rule, pairs[k].id) && forall o :: o in m.operations ==> CanDecode(m, policy, o)
    ensures IsTargetOf(m, t, Position(pairs, k)) && GetRuleName(m.operations[t]) == rule
  {
    var j :| 0 <= j < |pairs| && pairs[j].expression.TagTransform? &&
      pairs[j].expression.ruleName == rule && pairs[j].expression.transformedNode == pairs[k].id;
    hide IsQuery, IsRefined, IsDecoded, IsTagTransform, HasRule;
    t := Position(pairs, j);
    TransformShapeOf(pairs, m, values, ops, j);
    PairIsDecoded(pairs, m, values, ops, k);
    assert CanDecode(m, policy, t);
  }

  // ---------- The analysis computes the labels ----------

  /** `x` solves the equations of a decoded rule table on a module that can be evaluated in order. */
  ghost predicate IsAnalysis(m: Module, policy: Policy, rules: InferenceRules, x: States, order: seq<OpId>) {
    InBounds(m, rules) && Implements(m, policy, m.operations.Keys, rules) && IsSolution(m, rules, x) &&
    IsOrder(m, order) && IsNumbering(rules.tags)
  }

  /** The values of the table have states that stand for their labels. */
  ghost predicate Agrees(m: Module, tags: map<string, TagId>, x: States, values: ValueTable, table: LabelTable) {
    forall id :: id in table && (IsEntry(m, Lookup(values, id)) || IsResult(m, Lookup(values, id))) ==>
      Matches(tags, Get(x, Lookup(values, id)), table[id])
  }

  lemma OperandAgrees(m: Module, order: seq<OpId>, tags: map<string, TagId>, x: States, values: ValueTable, table: LabelTable,
                      o: OpId, id: nat)
    requires IsOrder(m, order) && Agrees(m, tags, x, values, table)
    requires o in m.operations && id in table && Lookup(values, id) in m.operations[o].inputs
    ensures Matches(tags, Get(x, Lookup(values, id)), Of(table, id))
  {
    hide Matches;
    var k := IndexOf(order, o);
    assert IsAvailable(m, Elements(order[..k]), Lookup(values, id));
  }

  lemma OperandsAgree(m: Module, order: seq<OpId>, tags: map<string, TagId>, x: States, values: ValueTable, table: LabelTable,
                      o: OpId, ids: seq<nat>)
    requires IsOrder(m, order) && Agrees(m, tags, x, values, table) && o in m.operations
    requires forall i :: 0 <= i < |ids| ==> ids[i] in table && Lookup(values, ids[i]) in m.operations[o].inputs
    ensures AllMatch(tags, x, values, table, ids)
  {
    hide IsOrder, Agrees, Matches;
    forall i | 0 <= i < |ids|
      ensures Matches(tags, Get(x, Lookup(values, ids[i])), Of(table, ids[i]))
    {
      OperandAgrees(m, order, tags, x, values, table, o, ids[i]);
    }
  }

  lemma NothingMatches(tags: map<string, TagId>, s: Tags)
    requires s.Tags? && (forall tag :: !HasSecrecy(s, tag) && !HasIntegrityTag(s, tag))
    ensures Matches(tags, s, NO_LABELS)
  {
    MembersMatch(tags, s, NO_LABELS);
  }

  lemma LiteralMatches(pairs: seq<IdExpressionPair>, m: Module, values: ValueTable, ops: seq<Operation>, policy: Policy,
                       rules: InferenceRules, x: States, order: seq<OpId>, k: nat)
    requires IsQuery(pairs, m, values, ops) && IsAnalysis(m, policy, rules, x, order)
    requires k < |pairs| && pairs[k].expression.Literal?
    ensures Matches(rules.tags, Get(x, OperationResult(Position(pairs, k), 0)), NO_LABELS)
  {
    LiteralShape(pairs, m, values, ops, k);
    OnlyMergesAreTargeted(pairs, m, values, ops, k);
    hide IsQuery, Implements, InBounds, IsSolution, IsOrder, IsUntargeted, Matches;
    var s := Get(x, OperationResult(Position(pairs, k), 0));
    forall tag
      ensures s.Tags? && !HasSecrecy(s, tag) && !HasIntegrityTag(s, tag)
    {
      UntargetedResult(m, policy, rules, x, Position(pairs, k), 0, tag);
    }
    NothingMatches(rules.tags, s);
  }

  lemma MembersMatch(tags: map<string, TagId>, s: Tags, l: Labels)
    requires s.Tags? && l.secrecy <= tags.Keys && l.integrity <= tags.Keys
    requires forall tag :: HasSecrecy(s, tag) <==> tag in Numbers(tags, l.secrecy)
    requires forall tag :: HasIntegrityTag(s, tag) <==> tag in Numbers(tags, l.integrity)
    ensures Matches(tags, s, l)
  {
    hide Numbers;
    assert forall tag :: tag in s.secrecy <==> HasSecrecy(s, tag);
    assert forall tag :: tag in s.integrity <==> HasIntegrityTag(s, tag);
    assert s.secrecy == Numbers(tags, l.secrecy) && s.integrity == Numbers(tags, l.integrity);
  }

  lemma MergeTag(pairs: seq<IdExpressionPair>, m: Module, values: ValueTable, ops: seq<Operation>, policy: Policy,
                 rules: InferenceRules, x: States, order: seq<OpId>, k: nat, table: LabelTable, tag: TagId)
    requires IsQuery(pairs, m, values, ops) && IsAnalysis(m, policy, rules, x, order)
    requires k < |pairs| && pairs[k].expression.MergeOperation?
    requires
      var e := pairs[k].expression;
      AllMatch(rules.tags, x, values, table, e.inputs + e.controlInputs) && AllMatch(rules.tags, x, values, table, e.inputs)
    ensures
      var e, s := pairs[k].expression, Get(x, OperationResult(Position(pairs, k), 0));
      var integrity := MergedIntegrityOf(pairs, table, pairs[k].id, e.inputs);
      s.Tags? && integrity <= rules.tags.Keys && AllSecrecy(table, e.inputs + e.controlInputs) <= rules.tags.Keys &&
      (HasSecrecy(s, tag) <==> tag in Numbers(rules.tags, AllSecrecy(table, e.inputs + e.controlInputs))) &&
      (HasIntegrityTag(s, tag) <==> tag in Numbers(rules.tags, integrity))
  {
    hide IsQuery, Implements, InBounds, IsSolution, IsOrder, AllMatch, IsRefined, IsTargetOf, IsUntargeted, IsNumbering,
      AllSecrecy, SomeonesIntegrity, EveryonesIntegrity, IsMerge, GetDirectInputs;
    var e, id, o := pairs[k].expression, pairs[k].id, Position(pairs, k);
    MergeShape(pairs, m, values, ops, k);
    SecrecyMatches(rules.tags, x, values, table, e.inputs + e.controlInputs, tag);
    UnionMatches(rules.tags, x, values, table, e.inputs, tag);
    IntersectionMatches(rules.tags, x, values, table, e.inputs, tag);
    NotAllUnreached(x, m.operations[o].inputs);
    hide SomeSecrecy, SomeIntegrity, EveryIntegrity, SomeUnreached, AllUnreached, Numbers;
    if IsRefined(pairs, UNION_ITAG_RULE, id) {
      RefinedMerge(pairs, m, values, ops, policy, rules, x, UNION_ITAG_RULE, k, tag);
    } else if IsRefined(pairs, INTERSECT_ITAG_RULE, id) {
      RefinedMerge(pairs, m, values, ops, policy, rules, x, INTERSECT_ITAG_RULE, k, tag);
    } else {
      PlainMerge(pairs, m, values, ops, policy, rules, x, k, tag);
    }
  }

  lemma RefinedMerge(pairs: seq<IdExpressionPair>, m: Module, values: ValueTable, ops: seq<Operation>, policy: Policy,
                     rules: InferenceRules, x: States, rule: string, k: nat, tag: TagId)
    requires IsQuery(pairs, m, values, ops) && k < |pairs| && pairs[k].expression.MergeOperation?
    requires Implements(m, policy, m.operations.Keys, rules) && InBounds(m, rules) && IsSolution(m, rules, x)
    requires IsSpecial(rule) && IsRefined(pairs, rule, pairs[k].id)
    ensures Position(pairs, k) in m.operations
    ensures
      var e, s := pairs[k].expression, Get(x, OperationResult(Position(pairs, k), 0));
      var ins := m.operations[Position(pairs, k)].inputs;
      (s.Bottom? <==> SomeUnreached(x, ins)) &&
      (s.Tags? ==>
        (HasSecrecy(s, tag) <==> SomeSecrecy(x, ins, tag)) &&
        (HasIntegrityTag(s, tag) <==>
          if rule == UNION_ITAG_RULE then SomeIntegrity(x, LookupAll(values, e.inputs), tag)
          else e.inputs != [] && EveryIntegrity(x, LookupAll(values, e.inputs), tag)))
  {
    hide IsQuery, IsRefined, InBounds, IsSolution, SomeSecrecy, SomeIntegrity, EveryIntegrity, SomeUnreached;
    MergeShape(pairs, m, values, ops, k);
    AllCanDecode(m, policy, rules);
    hide Implements;
    var t := RefinementIsTarget(pairs, m, values, ops, policy, rule, k);
    TargetOf(m, t, Position(pairs, k));
    hide IsTargetOf, IsTransform, HasTarget, Target, IsMerge, GetDirectInputs;
    MergeResult(m, policy, rules, x, t, tag);
  }

  lemma PlainMerge(pairs: seq<IdExpressionPair>, m: Module, values: ValueTable, ops: seq<Operation>, policy: Policy,
                   rules: InferenceRules, x: States, k: nat, tag: TagId)
    requires IsQuery(pairs, m, values, ops) && k < |pairs| && pairs[k].expression.MergeOperation?
    requires Implements(m, policy, m.operations.Keys, rules) && InBounds(m, rules) && IsSolution(m, rules, x)
    requires !IsRefined(pairs, UNION_ITAG_RULE, pairs[k].id) && !IsRefined(pairs, INTERSECT_ITAG_RULE, pairs[k].id)
    ensures Position(pairs, k) in m.operations
    ensures
      var s, ins := Get(x, OperationResult(Position(pairs, k), 0)), m.operations[Position(pairs, k)].inputs;
      (s.Bottom? <==> ins != [] && AllUnreached(x, ins)) &&
      (HasSecrecy(s, tag) <==> SomeSecrecy(x, ins, tag)) && !HasIntegrityTag(s, tag)
  {
    hide IsQuery, IsRefined, InBounds, IsSolution, Implements, SomeSecrecy, AllUnreached, IsTargetOf;
    MergeShape(pairs, m, values, ops, k);
    var o := Position(pairs, k);
    forall t | t in m.operations
      ensures !IsTargetOf(m, t, o)
    {
      if IsTargetOf(m, t, o) {
        TargetIsRefined(pairs, m, values, ops, k, t);
        assert false;
      }
    }
    UntargetedResult(m, policy, rules, x, o, 0, tag);
  }

  lemma AllCanDecode(m: Module, policy: Policy, rules: InferenceRules)
    requires Implements(m, policy, m.operations.Keys, rules)
    ensures forall t :: t in m.operations ==> CanDecode(m, policy, t)
  {
  }

  lemma TargetOf(m: Module, t: OpId, o: OpId)
    requires IsTargetOf(m, t, o)
    ensures IsTransform(m, t) && HasTarget(m, t) && Target(m, t) == o
  {
  }

  lemma NotAllUnreached(x: States, vs: seq<Value>)
    ensures vs != [] && AllUnreached(x, vs) ==> SomeUnreached(x, vs)
  {
    if vs != [] {
      assert vs[0] in vs;
    }
  }

  lemma MergeMatches(pairs: seq<IdExpressionPair>, m: Module, values: ValueTable, ops: seq<Operation>, policy: Policy,
                     rules: InferenceRules, x: States, order: seq<OpId>, k: nat, table: LabelTable)
    requires IsQuery(pairs, m, values, ops) && IsAnalysis(m, policy, rules, x, order)
    requires k < |pairs| && pairs[k].expression.MergeOperation?
    requires Agrees(m, rules.tags, x, values, table) && table.Keys == Ids(pairs[..k])
    ensures Matches(rules.tags, Get(x, OperationResult(Position(pairs, k), 0)), LabelsOf(pairs, policy, table, pairs[k]))
  {
    var e, o := pairs[k].expression, Position(pairs, k);
    MergeShape(pairs, m, values, ops, k);
    PairIsDecoded(pairs, m, values, ops, k);
    var all := e.inputs + e.controlInputs;
    forall i | 0 <= i < |all|
      ensures all[i] in table && Lookup(values, all[i]) in m.operations[o].inputs
    {
      assert m.operations[o].inputs[i] == Lookup(values, all[i]);
    }
    hide IsQuery, Ids, IsDecoded, Agrees, IsOrder, Implements, InBounds, IsSolution, IsNumbering;
    OperandsAgree(m, order, rules.tags, x, values, table, o, all);
    PrefixMatches(rules.tags, x, values, table, e.inputs, e.controlInputs);
    hide IsAnalysis, AllMatch, AllSecrecy, MergedIntegrityOf, Matches, Numbers;
    MergeTag(pairs, m, values, ops, policy, rules, x, order, k, table, 0);
    var s, l := Get(x, OperationResult(o, 0)), LabelsOf(pairs, policy, table, pairs[k]);
    forall tag
      ensures HasSecrecy(s, tag) <==> tag in Numbers(rules.tags, l.secrecy)
      ensures HasIntegrityTag(s, tag) <==> tag in Numbers(rules.tags, l.integrity)
    {
      MergeTag(pairs, m, values, ops, policy, rules, x, order, k, table, tag);
    }
    MembersMatch(rules.tags, s, l);
  }

  lemma PrefixMatches(tags: map<string, TagId>, x: States, values: ValueTable, table: LabelTable, ids: seq<nat>, more: seq<nat>)
    requires AllMatch(tags, x, values, table, ids + more)
    ensures AllMatch(tags, x, values, table, ids)
  {
    hide Matches;
    forall i | 0 <= i < |ids|
      ensures Matches(tags, Get(x, Lookup(values, ids[i])), Of(table, ids[i]))
    {
      assert (ids + more)[i] == ids[i];
    }
  }

  // ---------- Transforms ----------

  lemma ActMatches(tags: map<string, TagId>, rule: SqlPolicyRule, s: Tags, l: Labels)
    requires IsNumbering(tags) && Matches(tags, s, l) && rule.tag in tags
    ensures Matches(tags, Act(rule.action, tags[rule.tag], s), Acted(rule, l))
  {
    NumbersOneMore(tags, l.secrecy, rule.tag);
    NumbersOneMore(tags, l.integrity, rule.tag);
  }

  lemma VouchesIff(tags: map<string, TagId>, s: Tags, l: Labels, n: string)
    requires IsNumbering(tags) && Matches(tags, s, l) && n in tags
    ensures Vouches(s, tags[n]) <==> n in l.integrity
  {
    NumberOfName(tags, l.integrity, n);
  }

  lemma SpecialHasOneInput(m: Module, policy: Policy, o: OpId)
    requires IsTransform(m, o) && CanDecode(m, policy, o) && IsSpecial(GetRuleName(m.operations[o]))
    ensures |m.operations[o].inputs| == 1
  {
  }

  lemma SpecialTransformMatches(pairs: seq<IdExpressionPair>, m: Module, values: ValueTable, ops: seq<Operation>, policy: Policy,
                                rules: InferenceRules, x: States, order: seq<OpId>, k: nat, l: Labels)
    requires IsQuery(pairs, m, values, ops) && IsAnalysis(m, policy, rules, x, order)
    requires k < |pairs| && pairs[k].expression.TagTransform? && IsSpecial(pairs[k].expression.ruleName)
    requires Matches(rules.tags, Get(x, Lookup(values, pairs[k].expression.transformedNode)), l)
    ensures Matches(rules.tags, Get(x, OperationResult(Position(pairs, k), 0)), Labels(l.secrecy, {}))
  {
    hide IsQuery, Implements, InBounds, IsSolution, IsOrder, IsUntargeted, IsNumbering, IsTagTransform;
    TransformShapeOf(pairs, m, values, ops, k);
    OnlyMergesAreTargeted(pairs, m, values, ops, k);
    AllCanDecode(m, policy, rules);
    var o := Position(pairs, k);
    SpecialHasOneInput(m, policy, o);
    hide IsTransform, CanDecode;
    var v := Lookup(values, pairs[k].expression.transformedNode);
    assert m.operations[o].inputs == [v];
    var s := Get(x, OperationResult(o, 0));
    forall tag
      ensures s.Tags? && (HasSecrecy(s, tag) <==> tag in Numbers(rules.tags, l.secrecy)) && !HasIntegrityTag(s, tag)
    {
      UntargetedResult(m, policy, rules, x, o, 0, tag);
    }
    UntargetedResult(m, policy, rules, x, o, 0, 0);
    assert Numbers(rules.tags, {}) == {};
    MembersMatch(rules.tags, s, Labels(l.secrecy, {}));
  }

  lemma IndicesAreInside(op: Operation)
    requires IsTagTransform(op)
    ensures forall a :: a in PreconditionIndices(op) ==> PreconditionIndices(op)[a] < |op.inputs|
  {
  }

  lemma PreconditionsMatch(values: ValueTable, tags: map<string, TagId>, x: States, op: Operation, rule: SqlPolicyRule,
                           entries: map<string, nat>, table: LabelTable)
    requires IsNumbering(tags) && IsTagTransform(op)
    requires PreconditionIndices(op).Keys == entries.Keys
    requires forall a :: a in entries ==> op.inputs[PreconditionIndices(op)[a]] == Lookup(values, entries[a])
    requires forall a :: a in entries ==> Matches(tags, Get(x, Lookup(values, entries[a])), Of(table, entries[a]))
    requires forall p :: p in rule.preconditions ==> p.argument in entries && p.requiredIntegrityTag in tags
    ensures PreconditionsHold(x, op, rule, tags) <==> AreMet(table, entries, rule.preconditions)
  {
    IndicesAreInside(op);
    hide IsTagTransform, PreconditionIndices, Matches, Vouches;
    forall p | p in rule.preconditions
      ensures Vouches(Get(x, op.inputs[PreconditionIndices(op)[p.argument]]), tags[p.requiredIntegrityTag]) <==>
        p.requiredIntegrityTag in Of(table, entries[p.argument]).integrity
    {
      VouchesIff(tags, Get(x, Lookup(values, entries[p.argument])), Of(table, entries[p.argument]), p.requiredIntegrityTag);
    }
  }

  lemma OrdinaryTransformMatches(pairs: seq<IdExpressionPair>, m: Module, values: ValueTable, ops: seq<Operation>, policy: Policy,
                                 rules: InferenceRules, x: States, order: seq<OpId>, k: nat, table: LabelTable)
    requires IsQuery(pairs, m, values, ops) && IsAnalysis(m, policy, rules, x, order)
    requires k < |pairs| && pairs[k].expression.TagTransform? && !IsSpecial(pairs[k].expression.ruleName)
    requires
      var e := pairs[k].expression;
      Matches(rules.tags, Get(x, Lookup(values, e.transformedNode)), Of(table, e.transformedNode)) &&
      forall a :: a in e.tagPreconditions ==>
        Matches(rules.tags, Get(x, Lookup(values, e.tagPreconditions[a])), Of(table, e.tagPreconditions[a]))
    ensures Matches(rules.tags, Get(x, OperationResult(Position(pairs, k), 0)), LabelsOf(pairs, policy, table, pairs[k]))
  {
    var e, o := pairs[k].expression, Position(pairs, k);
    TransformShapeOf(pairs, m, values, ops, k);
    DecodedRule(m, policy, rules, o);
    hide IsQuery, Implements, InBounds, IsSolution, IsOrder, IsTagTransform, PreconditionIndices, IsNumbering;
    var op := m.operations[o];
    var rule := policy[e.ruleName];
    var s, l := Get(x, Lookup(values, e.transformedNode)), Of(table, e.transformedNode);
    TransformResult(m, policy, rules, x, o);
    PreconditionsMatch(values, rules.tags, x, op, rule, e.tagPreconditions, table);
    assert s.Tags?;
    hide PreconditionsHold, AreMet, Matches;
    ActMatches(rules.tags, rule, s, l);
  }

  lemma DecodedRule(m: Module, policy: Policy, rules: InferenceRules, t: OpId)
    requires Implements(m, policy, m.operations.Keys, rules) && IsTransform(m, t) && !IsSpecial(GetRuleName(m.operations[t]))
    ensures CanDecode(m, policy, t) && GetRuleName(m.operations[t]) in policy
    ensures
      var rule := policy[GetRuleName(m.operations[t])];
      rule.tag in rules.tags &&
      forall p :: p in rule.preconditions ==> p.argument in PreconditionIndices(m.operations[t]) && p.requiredIntegrityTag in rules.tags
  {
    hide InferenceRules.RulesFor, RulesFrom;
    assert NamesAllTags(m, policy, rules.tags, t);
  }

  lemma TransformMatches(pairs: seq<IdExpressionPair>, m: Module, values: ValueTable, ops: seq<Operation>, policy: Policy,
                         rules: InferenceRules, x: States, order: seq<OpId>, k: nat, table: LabelTable)
    requires IsQuery(pairs, m, values, ops) && IsAnalysis(m, policy, rules, x, order)
    requires k < |pairs| && pairs[k].expression.TagTransform?
    requires Agrees(m, rules.tags, x, values, table) && table.Keys == Ids(pairs[..k])
    ensures Matches(rules.tags, Get(x, OperationResult(Position(pairs, k), 0)), LabelsOf(pairs, policy, table, pairs[k]))
  {
    hide Agrees, IsOrder, Implements, InBounds, IsSolution, IsNumbering, Matches, IsTagTransform, PreconditionIndices, IsDecoded, Ids;
    var e, o := pairs[k].expression, Position(pairs, k);
    TransformShapeOf(pairs, m, values, ops, k);
    PairIsDecoded(pairs, m, values, ops, k);
    hide IsQuery;
    var op := m.operations[o];
    assert op.inputs[0] in op.inputs;
    OperandAgrees(m, order, rules.tags, x, values, table, o, e.transformedNode);
    if IsSpecial(e.ruleName) {
      SpecialTransformMatches(pairs, m, values, ops, policy, rules, x, order, k, Of(table, e.transformedNode));
    } else {
      forall a | a in e.tagPreconditions
        ensures Matches(rules.tags, Get(x, Lookup(values, e.tagPreconditions[a])), Of(table, e.tagPreconditions[a]))
      {
        ArgumentIsInput(op, values, e.tagPreconditions, a);
        OperandAgrees(m, order, rules.tags, x, values, table, o, e.tagPreconditions[a]);
      }
      OrdinaryTransformMatches(pairs, m, values, ops, policy, rules, x, order, k, table);
    }
  }

  lemma ArgumentIsInput(op: Operation, values: ValueTable, entries: map<string, nat>, a: string)
    requires IsTagTransform(op) && PreconditionIndices(op).Keys == entries.Keys && a in entries
    requires op.inputs[PreconditionIndices(op)[a]] == Lookup(values, entries[a])
    ensures Lookup(values, entries[a]) in op.inputs
  {
  }

  // ---------- All expressions ----------

  lemma ColumnMatches(m: Module, rules: InferenceRules, x: States, v: Value)
    requires InBounds(m, rules) && IsSolution(m, rules, x) && IsEntry(m, v)
    ensures Matches(rules.tags, Get(x, v), NO_LABELS)
  {
  }

  lemma ExpressionMatches(pairs: seq<IdExpressionPair>, m: Module, values: ValueTable, ops: seq<Operation>, policy: Policy,
                          rules: InferenceRules, x: States, order: seq<OpId>, k: nat, table: LabelTable)
    requires IsQuery(pairs, m, values, ops) && IsAnalysis(m, policy, rules, x, order) && k < |pairs|
    requires Agrees(m, rules.tags, x, values, table) && table.Keys == Ids(pairs[..k])
    requires IsEntry(m, Lookup(values, pairs[k].id)) || IsResult(m, Lookup(values, pairs[k].id))
    ensures Matches(rules.tags, Get(x, Lookup(values, pairs[k].id)), LabelsOf(pairs, policy, table, pairs[k]))
  {
    PairIsDecoded(pairs, m, values, ops, k);
    match pairs[k].expression
    case SourceTableColumn(_) => ColumnMatches(m, rules, x, Lookup(values, pairs[k].id));
    case Literal(_) => LiteralMatches(pairs, m, values, ops, policy, rules, x, order, k);
    case MergeOperation(_, _) => MergeMatches(pairs, m, values, ops, policy, rules, x, order, k, table);
    case TagTransform(_, _, _) => TransformMatches(pairs, m, values, ops, policy, rules, x, order, k, table);
    case NotSet =>
  }

  /** The tags that the analysis computes for an expression are numbers of its labels. */
  lemma {:induction false} LabelsAreTags(pairs: seq<IdExpressionPair>, m: Module, values: ValueTable, ops: seq<Operation>, policy: Policy,
                                         rules: InferenceRules, x: States, order: seq<OpId>, n: nat)
    requires IsQuery(pairs, m, values, ops) && IsAnalysis(m, policy, rules, x, order) && n <= |pairs|
    ensures Agrees(m, rules.tags, x, values, Evaluate(pairs, policy, n))
  {
    hide IsQuery, IsAnalysis, Matches, LabelsOf, IsEntry, IsResult, Ids;
    if n > 0 {
      LabelsAreTags(pairs, m, values, ops, policy, rules, x, order, n - 1);
      hide Agrees;
      var before, k := Evaluate(pairs, policy, n - 1), n - 1;
      if IsEntry(m, Lookup(values, pairs[k].id)) || IsResult(m, Lookup(values, pairs[k].id)) {
        ExpressionMatches(pairs, m, values, ops, policy, rules, x, order, k, before);
      }
      AgreesOneMore(m, rules.tags, x, values, before, pairs[k].id, LabelsOf(pairs, policy, before, pairs[k]));
    }
  }

  lemma AgreesOneMore(m: Module, tags: map<string, TagId>, x: States, values: ValueTable, table: LabelTable, id: nat, l: Labels)
    requires Agrees(m, tags, x, values, table)
    requires IsEntry(m, Lookup(values, id)) || IsResult(m, Lookup(values, id)) ==> Matches(tags, Get(x, Lookup(values, id)), l)
    ensures Agrees(m, tags, x, values, table[id := l])
  {
  }
}
