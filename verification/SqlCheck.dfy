/** From SQL to a verdict: decode an arena and its policy rules, then check the module. */
module SqlCheck {
  import opened Checks
  import opened TaintRules
  import opened IrModule
  import opened Transfer
  import opened Fixpoint
  import opened FlowPaths
  import opened PolicyChecker
  import opened Ordered
  import opened OrderedFlows
  import opened SqlOps
  import opened SqlDecode
  import opened RulesBuilder
  import opened SqlRules
  import opened SqlLabels
  import opened SqlVerdict

  lemma DecodedModuleIsSql(ops: seq<Operation>)
    requires AreSqlOperations(ops)
    ensures IsSqlModule(GlobalModule(ops)) && IsOwnedOnce(GlobalModule(ops).blocks)
  {
  }

  /** The query and the seed tags can be decoded, and the policy has what the query needs. */
  predicate IsAnswered(pairs: seq<IdExpressionPair>, sqlRules: seq<SqlPolicyRule>, seeds: seq<string>) {
    pairs != [] && AreDecodable(pairs) && HasNoDuplicates(seeds) && HasDistinctRules(sqlRules) &&
    PolicyFits(pairs, PolicyOf(sqlRules))
  }

  /**
   The whole check of a SQL query.  It aborts only if the arena or the rules
   cannot be decoded: the rule interpreter stays in bounds and no state that is
   looked at is bottom.  A compliant verdict is never wrong: by its labels the
   query leaks nothing, and no tag flows to an egress operation, neither with
   the computed states nor with those of one pass over the operations.  Unless
   a rule in use adds confidentiality under a precondition, the states are
   those of that pass, and the verdict is exactly that nothing is leaked.
   */
  method CheckArena(pairs: seq<IdExpressionPair>, sqlRules: seq<SqlPolicyRule>, seeds: seq<string>, egress: set<string>)
    returns (r: Checked<bool>, ghost m: Module, ghost rules: InferenceRules, ghost x: States, ghost pops: seq<OpId>)
    ensures r.Passed? <==> IsAnswered(pairs, sqlRules, seeds)
    ensures r.Passed? && r.value ==> LeaksNothing(pairs, PolicyOf(sqlRules), egress)
    ensures r.Passed? && !HasConditionalSecrecy(pairs, PolicyOf(sqlRules)) ==>
      (r.value <==> LeaksNothing(pairs, PolicyOf(sqlRules), egress))
    ensures pairs != [] && AreDecodable(pairs) ==> exists values, ops :: IsModuleOf(pairs, m, values, ops)
    ensures r.Passed? ==>
      InBounds(m, rules) && Implements(m, PolicyOf(sqlRules), m.operations.Keys, rules) &&
      IsOrder(m, Positions(|m.operations|)) && IsRun(m, rules, InitialConfig(m), pops, Config(x, {})) &&
      (forall v :: IsEntry(m, v) || IsResult(m, v) ==> v in x && x[v].Tags?) &&
      (r.value <==> IsCompliant(m, egress, x))
    ensures r.Passed? && r.value ==>
      (!exists v, tag :: IsEgressInput(m, egress, v) && FlowsTo(m, rules, x, tag, v)) &&
      !exists v, tag :: IsEgressInput(m, egress, v) && FlowsTo(m, rules, InOrder(m, rules, Positions(|m.operations|)), tag, v)
    ensures r.Passed? && !HasConditionalSecrecy(pairs, PolicyOf(sqlRules)) ==>
      x == InOrder(m, rules, Positions(|m.operations|)) &&
      (r.value <==> !exists v, tag :: IsEgressInput(m, egress, v) && FlowsTo(m, rules, x, tag, v))
  {
    hide IsRun, InitialConfig, Implements, InBounds, IsOrder, IsPostSolution, IsCompliant, InOrder, FlowsTo, IsEgressInput, IsLeastSolution,
      IsSqlModule, AreSqlOperations, AreDecoded, AreDecodable, IsWellFormed, IsOwnedOnce, IsRestrictedTable, Aborts,
      AddsSecrecyOnCondition, CanDecode, TargetsDiffer, IsEntry, IsResult, Reachable, IsConditionalTable, IsModuleOf, IsQuery,
      PolicyFits, LeaksNothing, HasConditionalSecrecy, AreInverse;
    m, rules, x, pops := GlobalModule([]), InferenceRules(map[], map[], map[], []), map[], [];
    var context := new DecoderContext();
    var output := context.DecodeExpressionArena(pairs);
    if output.CheckFailed? {
      return CheckFailed, m, rules, x, pops;
    }
    var mod := GlobalModule(context.operations);
    m := mod;
    ghost var ops := context.operations[..|context.operations| - 1];
    assert context.operations == ops + [CreateSqlOutput(Lookup(context.idToValue, pairs[|pairs| - 1].id))];
    ghost var values := context.idToValue;
    DecodedQuery(pairs, m, values, ops);
    PolicyFitsIff(pairs, m, values, ops, PolicyOf(sqlRules));
    DecodedModuleIsOrdered(context.operations);
    DecodedModuleIsSql(context.operations);
    var table := DecodeSqlPolicyRules(sqlRules, mod, seeds);
    if table.CheckFailed? {
      return CheckFailed, m, rules, x, pops;
    }
    rules := table.value;
    DecodedRulesAreInBounds(m, PolicyOf(sqlRules), rules);
    r, x, pops := IsModulePolicyCompliant(mod, table.value, egress);
    ghost var order := Positions(|m.operations|);
    SizeOfModule(context.operations);
    OrderedNeverAborts(m, rules, egress, x, order);
    forall v | IsEntry(m, v) || IsResult(m, v)
      ensures v in x && x[v].Tags?
    {
      OrderedReachesAll(m, rules, x, order, v);
    }
    if r.Passed? && r.value {
      CompliantMeansNoFlow(m, rules, egress, x, order);
      DecodedTableIsConditional(m, PolicyOf(sqlRules), rules);
      CompliantRunIsRight(m, rules, egress, order, pops, Config(x, {}));
    }
    InOrderIsAnalysis(m, PolicyOf(sqlRules), rules, order);
    VerdictIsLabels(pairs, m, values, ops, PolicyOf(sqlRules), rules, InOrder(m, rules, order), order, egress);
    DecodedRulesAreRestrictedIff(m, PolicyOf(sqlRules), rules);
    ConditionalSecrecyIff(pairs, m, values, ops, PolicyOf(sqlRules));
    if !HasConditionalSecrecy(pairs, PolicyOf(sqlRules)) {
      LeastIsInOrder(m, rules, x, order);
      VerdictIsFlow(m, rules, egress, x);
    }
  }

  lemma DecodedQuery(pairs: seq<IdExpressionPair>, m: Module, values: ValueTable, ops: seq<Operation>)
    requires pairs != [] && AreDecodable(pairs) && AreDecoded(pairs, values, ops)
    requires m == GlobalModule(ops + [CreateSqlOutput(Lookup(values, pairs[|pairs| - 1].id))])
    ensures IsModuleOf(pairs, m, values, ops) && IsQuery(pairs, m, values, ops)
  {
  }

  lemma InOrderIsAnalysis(m: Module, policy: Policy, rules: InferenceRules, order: seq<OpId>)
    requires InBounds(m, rules) && Implements(m, policy, m.operations.Keys, rules) && AreInverse(rules.tags, rules.tagNames)
    requires IsOrder(m, order)
    ensures forall o :: o in order ==> o in m.operations
    ensures IsAnalysis(m, policy, rules, InOrder(m, rules, order), order)
  {
    InOrderIsSolution(m, rules, order);
  }

  lemma LeastIsInOrder(m: Module, rules: InferenceRules, x: States, order: seq<OpId>)
    requires InBounds(m, rules) && IsOrder(m, order) && IsLeastSolution(m, rules, x)
    ensures forall o :: o in order ==> o in m.operations
    ensures x == InOrder(m, rules, order)
  {
    InOrderIsSolution(m, rules, order);
    SolutionIsUnique(m, rules, x, InOrder(m, rules, order), order);
  }

  lemma SizeOfModule(ops: seq<Operation>)
    ensures |GlobalModule(ops).operations| == |ops|
  {
    var m := GlobalModule(ops);
    assert m.operations.Keys == NumbersBelow(|ops|);
  }
}
