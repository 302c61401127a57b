/**
 For which policies the verdict depends on the order of the pops: a caller can
 tell from the policy rules alone.
 */
module PolicyOrder {
  import opened IfcTags
  import opened TaintRules
  import opened IrModule
  import opened Transfer
  import opened Fixpoint
  import opened PolicyChecker
  import opened SqlOps
  import opened SqlDecode
  import opened RulesBuilder
  import opened SqlRules
  import opened OrderDependence
  import Seqs

  // ---------- A query for a policy rule ----------

  function ArgumentsOf(preconditions: seq<Precondition>): set<string> {
    set i | 0 <= i < |preconditions| :: preconditions[i].argument
  }

  /** Some transform can name the rule and give it its arguments. */
  predicate IsUsable(r: SqlPolicyRule) {
    r.name != "" && !IsSpecial(r.name) && RULE_NAME !in ArgumentsOf(r.preconditions)
  }

  function EntriesFor(r: SqlPolicyRule): map<string, nat> {
    map a | a in ArgumentsOf(r.preconditions) :: 2
  }

  /** A column that is transformed by the rule, with a literal for every precondition. */
  function ArenaFor(r: SqlPolicyRule): seq<IdExpressionPair> {
    [IdExpressionPair(1, SourceTableColumn("column")),
     IdExpressionPair(2, Literal("literal")),
     IdExpressionPair(3, TagTransform(1, r.name, EntriesFor(r)))]
  }

  lemma {:induction false} ArgumentCount(preconditions: seq<Precondition>)
    ensures |ArgumentsOf(preconditions)| <= |preconditions|
  {
    if preconditions != [] {
      var n := |preconditions| - 1;
      ArgumentCount(preconditions[..n]);
      forall a | a in ArgumentsOf(preconditions)
        ensures a in ArgumentsOf(preconditions[..n]) + {preconditions[n].argument}
      {
        var i :| 0 <= i < |preconditions| && preconditions[i].argument == a;
        assert i < n ==> preconditions[..n][i].argument == a;
      }
      SubsetSize(ArgumentsOf(preconditions), ArgumentsOf(preconditions[..n]) + {preconditions[n].argument});
    }
  }

  lemma ArenaIds(r: SqlPolicyRule)
    ensures
      var pairs := ArenaFor(r);
      Ids(pairs[..0]) == {} && Ids(pairs[..1]) == {1} && Ids(pairs[..2]) == {1, 2} && Ids(pairs) == {1, 2, 3}
  {
    var pairs := ArenaFor(r);
    assert pairs[..2][0].id == 1 && pairs[..2][1].id == 2 && pairs[..1][0].id == 1;
    assert pairs[0].id == 1 && pairs[1].id == 2 && pairs[2].id == 3;
  }

  lemma ArenaIsDecodable(r: SqlPolicyRule)
    requires IsUsable(r) && |r.preconditions| < INT64_MAX
    ensures AreDecodable(ArenaFor(r))
  {
    ArenaIds(r);
    ArgumentCount(r.preconditions);
    assert |EntriesFor(r)| == |ArgumentsOf(r.preconditions)| by {
      assert EntriesFor(r).Keys == ArgumentsOf(r.preconditions);
    }
    var pairs := ArenaFor(r);
    assert IsDecodable(pairs[2].expression, {1, 2});
  }

  lemma ArenaCounts(r: SqlPolicyRule)
    ensures
      var pairs := ArenaFor(r);
      OperationCount(pairs[..0]) == 0 && OperationCount(pairs[..1]) == 0 && OperationCount(pairs[..2]) == 1 && OperationCount(pairs) == 2
  {
    var pairs := ArenaFor(r);
    assert pairs[..1][..0] == [] && pairs[..2][..1] == pairs[..1];
    assert OperationCount(pairs[..1]) == 0;
    assert OperationCount(pairs[..2]) == 1;
  }

  // ---------- The decoded query ----------

  /** The module of the query: a literal, the transform and the output. */
  ghost predicate IsQueryModule(r: SqlPolicyRule, m: Module, preconditions: Preconditions) {
    m.operations.Keys == {0, 1, 2} && m.operations[0] == CreateLiteral("literal") &&
    m.operations[2] == CreateSqlOutput(COMBINED) &&
    IsTransformOf(m.operations[1], r.name, STORE, preconditions) && HasDistinctNames(preconditions) &&
    (forall a :: a in ArgumentsOf(r.preconditions) ==> HasName(preconditions, a)) &&
    (forall i :: 0 <= i < |preconditions| ==> preconditions[i].1 == FROM_LITERAL)
  }

  lemma PairsAreDecoded(r: SqlPolicyRule, m: Module, values: ValueTable, ops: seq<Operation>)
    requires IsModuleOf(ArenaFor(r), m, values, ops)
    ensures |ops| == 2 && m == GlobalModule(ops + [CreateSqlOutput(Lookup(values, 3))])
    ensures IsPairDecoded(ArenaFor(r)[0], 0, values, ops) && IsPairDecoded(ArenaFor(r)[1], 0, values, ops)
    ensures IsPairDecoded(ArenaFor(r)[2], 1, values, ops)
  {
    hide OperationCount, IsPairDecoded;
    var pairs := ArenaFor(r);
    ArenaCounts(r);
    assert pairs[..|pairs|] == pairs;
  }

  lemma LiteralIsDecoded(r: SqlPolicyRule, values: ValueTable, ops: seq<Operation>)
    requires |ops| == 2 && IsPairDecoded(ArenaFor(r)[0], 0, values, ops) && IsPairDecoded(ArenaFor(r)[1], 0, values, ops)
    ensures Lookup(values, 1) == STORE && Lookup(values, 2) == FROM_LITERAL && ops[0] == CreateLiteral("literal")
  {
  }

  lemma TransformIsDecoded(r: SqlPolicyRule, values: ValueTable, ops: seq<Operation>) returns (preconditions: Preconditions)
    requires |ops| == 2 && IsPairDecoded(ArenaFor(r)[2], 1, values, ops)
    ensures Enumerates(preconditions, EntriesFor(r), values) && HasDistinctNames(preconditions)
    ensures IsTransformOf(ops[1], r.name, Lookup(values, 1), preconditions) && Lookup(values, 3) == COMBINED
  {
    hide IsTransformOf, Enumerates, HasDistinctNames;
    preconditions :| Enumerates(preconditions, EntriesFor(r), values) && HasDistinctNames(preconditions) &&
      IsTransformOf(ops[1], r.name, Lookup(values, 1), preconditions);
  }

  lemma QueryModuleShape(r: SqlPolicyRule, m: Module, values: ValueTable, ops: seq<Operation>) returns (preconditions: Preconditions)
    requires IsModuleOf(ArenaFor(r), m, values, ops)
    ensures IsQueryModule(r, m, preconditions)
  {
    hide IsTransformOf, HasDistinctNames, IsModuleOf, IsPairDecoded;
    PairsAreDecoded(r, m, values, ops);
    LiteralIsDecoded(r, values, ops);
    preconditions := TransformIsDecoded(r, values, ops);
    forall a | a in ArgumentsOf(r.preconditions)
      ensures HasName(preconditions, a)
    {
      EnumerationCovers(preconditions, EntriesFor(r), values, a);
    }
    var all := ops + [CreateSqlOutput(COMBINED)];
    assert |all| == 3 && all[0] == ops[0] && all[1] == ops[1];
  }

  /** With the decoded rules it is a module on which the order of the pops decides. */
  lemma QueryIsSample(sqlRules: seq<SqlPolicyRule>, r: SqlPolicyRule, m: Module, preconditions: Preconditions, rules: InferenceRules)
    returns (tag: TagId, premises: seq<Premise>)
    requires HasDistinctRules(sqlRules) && r in sqlRules && IsUsable(r)
    requires r.action == AddConfidentiality && r.preconditions != []
    requires IsQueryModule(r, m, preconditions) && Implements(m, PolicyOf(sqlRules), m.operations.Keys, rules)
    ensures IsSample(m, rules, tag, premises)
  {
    var policy := PolicyOf(sqlRules);
    var i := Seqs.IndexOf(sqlRules, r);
    PolicyHasRules(sqlRules, i);
    var op := m.operations[1];
    TransformRoundTrip(op, r.name, STORE, preconditions);
    assert IsTransform(m, 1) && !IsTransform(m, 0) && !IsTransform(m, 2);
    tag := TagOf(rules.tags, r.tag);
    premises := Premises(r.preconditions, PreconditionIndices(op), rules.tags);
    assert rules.RulesFor(1) == RulesFrom(m, policy, rules.tags, 1);
    forall t | t in m.operations
      ensures !IsTargetOf(m, t, 0) && !IsTargetOf(m, t, 2)
    {
    }
    forall p | p in premises
      ensures 1 <= p.index < |op.inputs|
    {
      var j :| 0 <= j < |premises| && premises[j] == p;
      assert r.preconditions[j] in r.preconditions;
    }
    LiteralInputs(r, m, preconditions);
    assert r.preconditions[0].argument in ArgumentsOf(r.preconditions);
  }

  lemma LiteralInputs(r: SqlPolicyRule, m: Module, preconditions: Preconditions)
    requires IsQueryModule(r, m, preconditions)
    ensures forall k :: 1 <= k < |m.operations[1].inputs| ==> m.operations[1].inputs[k] == FROM_LITERAL
    ensures r.preconditions != [] ==> |m.operations[1].inputs| >= 2
  {
    forall k | 1 <= k < |m.operations[1].inputs|
      ensures m.operations[1].inputs[k] == FROM_LITERAL
    {
      assert m.operations[1].inputs[k - 1 + 1] == preconditions[k - 1].1;
    }
    if r.preconditions != [] {
      assert r.preconditions[0].argument in ArgumentsOf(r.preconditions);
    }
  }

  /** The policy rules fit the query, so it really is decoded and checked. */
  lemma RulesFitQuery(sqlRules: seq<SqlPolicyRule>, r: SqlPolicyRule, m: Module, preconditions: Preconditions)
    requires HasDistinctRules(sqlRules) && r in sqlRules && IsUsable(r) && r.action != Unknown
    requires IsQueryModule(r, m, preconditions)
    ensures forall o :: o in m.operations ==> CanDecode(m, PolicyOf(sqlRules), o)
    ensures TargetsDiffer(m, m.operations.Keys)
    ensures IsTransform(m, 1) && !IsTransform(m, 0) && !IsTransform(m, 2) && GetRuleName(m.operations[1]) == r.name
  {
    var i := Seqs.IndexOf(sqlRules, r);
    PolicyHasRules(sqlRules, i);
    TransformRoundTrip(m.operations[1], r.name, STORE, preconditions);
    assert IsTransform(m, 1) && !IsTransform(m, 0) && !IsTransform(m, 2);
    forall p | p in r.preconditions
      ensures p.argument in PreconditionIndices(m.operations[1])
    {
      var j := Seqs.IndexOf(r.preconditions, p);
      assert p.argument in ArgumentsOf(r.preconditions);
    }
  }

  // ---------- The query and its table exist ----------

  lemma {:induction false} ListArguments(names: set<string>) returns (preconditions: Preconditions)
    ensures HasDistinctEntries(preconditions) && |preconditions| == |names|
    ensures forall i :: 0 <= i < |preconditions| ==> preconditions[i].0 in names && preconditions[i].1 == FROM_LITERAL
    decreases |names|
  {
    if names == {} {
      preconditions := [];
    } else {
      var a :| a in names;
      var rest := ListArguments(names - {a});
      preconditions := rest + [(a, FROM_LITERAL)];
    }
  }

  lemma {:induction false} TransformExists(rule: string, v: Value, preconditions: Preconditions, k: nat) returns (op: Operation)
    requires HasDistinctNames(preconditions) && k <= |preconditions|
    ensures IsTransformOf(op, rule, v, preconditions[..k])
  {
    if k == 0 {
      op := Operation(TAG_TRANSFORM_OP, [v], 1, map[RULE_NAME := StringAttribute(rule)]);
    } else {
      var before := TransformExists(rule, v, preconditions, k - 1);
      var name := preconditions[k - 1].0;
      TransformGrows(before, rule, v, preconditions, k - 1);
      op := before.(inputs := before.inputs + [preconditions[k - 1].1], attributes := before.attributes[name := Int64Attribute(k)]);
    }
  }

  lemma QueryExists(r: SqlPolicyRule) returns (m: Module, values: ValueTable, ops: seq<Operation>)
    requires IsUsable(r)
    ensures IsModuleOf(ArenaFor(r), m, values, ops)
  {
    var entries := EntriesFor(r);
    var preconditions := ListArguments(ArgumentsOf(r.preconditions));
    var op := TransformExists(r.name, STORE, preconditions, |preconditions|);
    assert preconditions[..|preconditions|] == preconditions;
    values := map[1 := STORE, 2 := FROM_LITERAL, 3 := COMBINED];
    ops := [CreateLiteral("literal"), op];
    m := GlobalModule(ops + [CreateSqlOutput(COMBINED)]);
    ArenaCounts(r);
    ArenaIds(r);
    var pairs := ArenaFor(r);
    assert |entries| == |ArgumentsOf(r.preconditions)| by {
      assert entries.Keys == ArgumentsOf(r.preconditions);
    }
    assert Enumerates(preconditions, entries, values);
    assert IsDecoded(pairs[2].expression, values, ops, COMBINED);
    assert pairs[..|pairs|] == pairs;
  }

  lemma {:induction false} NumberTags(names: set<string>) returns (tags: map<string, TagId>, tagNames: seq<string>)
    ensures AreInverse(tags, tagNames) && tags.Keys == names
    decreases |names|
  {
    if names == {} {
      tags, tagNames := map[], [];
    } else {
      var n :| n in names;
      tags, tagNames := NumberTags(names - {n});
      tags, tagNames := tags[n := |tagNames|], tagNames + [n];
    }
  }

  /** A table as decoding builds it. */
  ghost predicate IsDecodedTable(sqlRules: seq<SqlPolicyRule>, m: Module, rules: InferenceRules) {
    Implements(m, PolicyOf(sqlRules), m.operations.Keys, rules) && AreInverse(rules.tags, rules.tagNames)
  }

  /** One action for the transform implements the policy, whatever the other rules are. */
  lemma ActionImplements(policy: Policy, m: Module, tags: map<string, TagId>, rules: InferenceRules)
    requires m.operations.Keys == {0, 1, 2} && IsTransform(m, 1) && !IsTransform(m, 0) && !IsTransform(m, 2)
    requires CanDecode(m, policy, 1) && Target(m, 1) == 1 && NamesAllTags(m, policy, tags, 1)
    requires rules.tags == tags && rules.actions == map[1 := "action"]
    requires rules.actionRules == map["action" := RulesFrom(m, policy, tags, 1)]
    ensures Implements(m, policy, m.operations.Keys, rules)
  {
    hide RulesFrom, NamesAllTags, IsTransform, HasTarget, HasRule, Target;
    assert IsTargetOf(m, 1, 1);
  }

  lemma TableExists(sqlRules: seq<SqlPolicyRule>, r: SqlPolicyRule, m: Module, preconditions: Preconditions) returns (rules: InferenceRules)
    requires HasDistinctRules(sqlRules) && r in sqlRules && IsUsable(r) && r.action != Unknown
    requires IsQueryModule(r, m, preconditions)
    ensures IsDecodedTable(sqlRules, m, rules)
  {
    RulesFitQuery(sqlRules, r, m, preconditions);
    var i := Seqs.IndexOf(sqlRules, r);
    PolicyHasRules(sqlRules, i);
    var policy := PolicyOf(sqlRules);
    var needed := {r.tag} + set j | 0 <= j < |r.preconditions| :: r.preconditions[j].requiredIntegrityTag;
    var tags, tagNames := NumberTags(needed);
    hide IsQueryModule, PolicyOf, AreInverse, HasRule, IsTransform;
    rules := InferenceRules(map["action" := RulesFrom(m, policy, tags, 1)], map[1 := "action"], tags, tagNames);
    forall p | p in r.preconditions
      ensures p.requiredIntegrityTag in tags
    {
      var j := Seqs.IndexOf(r.preconditions, p);
    }
    assert m.operations.Keys == {0, 1, 2} by { QueryKeys(r, m, preconditions); }
    ActionImplements(policy, m, tags, rules);
  }

  lemma QueryKeys(r: SqlPolicyRule, m: Module, preconditions: Preconditions)
    requires IsQueryModule(r, m, preconditions)
    ensures m.operations.Keys == {0, 1, 2}
  {
  }

  // ---------- When verdicts agree ----------

  ghost predicate IsCompleteRun(m: Module, rules: InferenceRules, pops: seq<OpId>, c: Config)
    requires InBounds(m, rules)
  {
    IsRun(m, rules, InitialConfig(m), pops, c) && c.worklist == {}
  }

  /** For every query and every decoded table, all complete runs have the same verdict. */
  ghost predicate VerdictsAgree(sqlRules: seq<SqlPolicyRule>) {
    forall pairs, m, values, ops, rules ::
      AreDecodable(pairs) && IsModuleOf(pairs, m, values, ops) && IsDecodedTable(sqlRules, m, rules) ==>
      VerdictsAgreeOn(m, rules)
  }

  ghost predicate VerdictsAgreeOn(m: Module, rules: InferenceRules) {
    InBounds(m, rules) &&
    forall egress, pops, c, pops', c' :: IsCompleteRun(m, rules, pops, c) && IsCompleteRun(m, rules, pops', c') ==>
      (IsCompliant(m, egress, c.states) <==> IsCompliant(m, egress, c'.states))
  }

  /** A usable rule that adds confidentiality under a precondition. */
  predicate IsConditionalSecrecy(r: SqlPolicyRule) {
    IsUsable(r) && r.action == AddConfidentiality && r.preconditions != []
  }

  lemma ConditionalSecrecyDisagrees(sqlRules: seq<SqlPolicyRule>, r: SqlPolicyRule)
    requires HasDistinctRules(sqlRules) && r in sqlRules && IsConditionalSecrecy(r) && |r.preconditions| < INT64_MAX
    ensures !VerdictsAgree(sqlRules)
  {
    ArenaIsDecodable(r);
    var m, values, ops := QueryExists(r);
    var preconditions := QueryModuleShape(r, m, values, ops);
    var rules := TableExists(sqlRules, r, m, preconditions);
    DecodedRulesAreInBounds(m, PolicyOf(sqlRules), rules);
    var tag, premises := QueryIsSample(sqlRules, r, m, preconditions, rules);
    var pops, c, pops', c' := PopOrderDecidesVerdict(m, rules, tag, premises);
    hide AreDecodable, IsModuleOf, IsDecodedTable, IsRun, IsCompliant, InBounds;
    assert IsCompleteRun(m, rules, pops, c) && IsCompleteRun(m, rules, pops', c');
    assert !VerdictsAgreeOn(m, rules);
  }

  /** The transforms of a decoded query name their rule. */
  lemma TransformHasRuleName(pairs: seq<IdExpressionPair>, m: Module, values: ValueTable, ops: seq<Operation>, t: OpId)
    requires AreDecodable(pairs) && IsModuleOf(pairs, m, values, ops) && IsTransform(m, t)
    ensures GetRuleName(m.operations[t]) != ""
  {
    var all := ops + [CreateSqlOutput(Lookup(values, pairs[|pairs| - 1].id))];
    assert t < |all| && m.operations[t] == all[t];
    assert t < |ops|;
    var k := DecodedFrom(pairs, t);
    assert IsPairDecoded(pairs[k], t, values, ops);
    assert IsDecodable(pairs[k].expression, Ids(pairs[..k]));
  }

  lemma UsedRuleIsUsable(sqlRules: seq<SqlPolicyRule>, pairs: seq<IdExpressionPair>, m: Module, values: ValueTable, ops: seq<Operation>, t: OpId)
    returns (i: nat)
    requires AreDecodable(pairs) && IsModuleOf(pairs, m, values, ops)
    requires AddsSecrecyOnCondition(m, PolicyOf(sqlRules), t)
    ensures i < |sqlRules| && IsConditionalSecrecy(sqlRules[i])
  {
    TransformHasRuleName(pairs, m, values, ops, t);
    hide AreDecodable, IsModuleOf;
    var name := GetRuleName(m.operations[t]);
    i := PolicyComesFrom(sqlRules, name);
    var r := sqlRules[i];
    forall a | a in ArgumentsOf(r.preconditions)
      ensures a != RULE_NAME
    {
      var j :| 0 <= j < |r.preconditions| && r.preconditions[j].argument == a;
      assert r.preconditions[j] in r.preconditions;
    }
  }

  lemma UnconditionalRulesAgree(sqlRules: seq<SqlPolicyRule>, pairs: seq<IdExpressionPair>, m: Module, values: ValueTable,
                                ops: seq<Operation>, rules: InferenceRules)
    requires AreDecodable(pairs) && IsModuleOf(pairs, m, values, ops) && IsDecodedTable(sqlRules, m, rules)
    requires forall r :: r in sqlRules ==> !IsConditionalSecrecy(r)
    ensures VerdictsAgreeOn(m, rules)
  {
    forall t | t in m.operations
      ensures !AddsSecrecyOnCondition(m, PolicyOf(sqlRules), t)
    {
      if AddsSecrecyOnCondition(m, PolicyOf(sqlRules), t) {
        var i := UsedRuleIsUsable(sqlRules, pairs, m, values, ops, t);
      }
    }
    DecodedRulesAreInBounds(m, PolicyOf(sqlRules), rules);
    DecodedRulesAreRestrictedIff(m, PolicyOf(sqlRules), rules);
    hide AreDecodable, IsModuleOf, IsDecodedTable, IsRun, IsCompliant, InBounds, IsRestrictedTable;
    forall egress, pops, c, pops', c' | IsCompleteRun(m, rules, pops, c) && IsCompleteRun(m, rules, pops', c')
      ensures IsCompliant(m, egress, c.states) <==> IsCompliant(m, egress, c'.states)
    {
      AllRunsAgree(m, rules, pops, c, pops', c');
    }
  }

  /**
   Verdicts do not depend on the order of the pops exactly when no usable rule
   of the policy adds confidentiality under a precondition.
   */
  lemma VerdictsAgreeIff(sqlRules: seq<SqlPolicyRule>)
    requires HasDistinctRules(sqlRules) && forall r :: r in sqlRules ==> |r.preconditions| < INT64_MAX
    ensures VerdictsAgree(sqlRules) <==> forall r :: r in sqlRules ==> !IsConditionalSecrecy(r)
  {
    hide AreDecodable, IsModuleOf, IsDecodedTable, VerdictsAgreeOn, IsConditionalSecrecy, HasDistinctRules;
    if r :| r in sqlRules && IsConditionalSecrecy(r) {
      ConditionalSecrecyDisagrees(sqlRules, r);
    } else {
      forall pairs, m, values, ops, rules
        | AreDecodable(pairs) && IsModuleOf(pairs, m, values, ops) && IsDecodedTable(sqlRules, m, rules)
        ensures VerdictsAgreeOn(m, rules)
      {
        UnconditionalRulesAgree(sqlRules, pairs, m, values, ops, rules);
      }
    }
  }
}
