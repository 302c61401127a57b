/**
 Decoding SQL policy rules into the rule table of the taint analysis.  Every
 tag transform of the module becomes an action of its own.
 */
module SqlRules {
  import opened Checks
  import opened Names
  import opened IfcTags
  import opened TaintRules
  import opened IrModule
  import opened Transfer
  import opened OrderedFlows
  import opened SqlOps
  import opened SqlDecode
  import opened RulesBuilder

  datatype Action = Unknown | AddConfidentiality | RemoveConfidentiality | AddIntegrityTag

  datatype Precondition = Precondition(argument: string, requiredIntegrityTag: string)

  datatype SqlPolicyRule = SqlPolicyRule(name: string, action: Action, tag: string, preconditions: seq<Precondition>)

  // ---------- Action names ----------

  /** Action names are made unique by a counter per rule name. */
  function ActionName(rule: string, n: nat): string {
    rule + "_" + Decimal(n)
  }

  /** Two action names are equal only for the same rule and the same count, even if rule names contain underscores. */
  lemma ActionNamesDoNotCollide(rule: string, n: nat, rule': string, n': nat)
    requires ActionName(rule, n) == ActionName(rule', n')
    ensures rule == rule' && n == n'
  {
    DecimalReads(n);
    DecimalReads(n');
    var (d, e) := (Decimal(n), Decimal(n'));
    var s := ActionName(rule, n);
    if |d| < |e| {
      UnderscoreIsNoDigit(rule, d, rule', e);
    } else if |e| < |d| {
      UnderscoreIsNoDigit(rule', e, rule, d);
    } else {
      assert rule == s[..|rule|] && rule' == s[..|rule'|];
      assert d == s[|rule| + 1..] && e == s[|rule'| + 1..];
    }
  }

  lemma UnderscoreIsNoDigit(rule: string, d: string, rule': string, e: string)
    requires |d| < |e| && forall c :: c in e ==> IsDigit(c)
    ensures rule + "_" + d != rule' + "_" + e
  {
    var i := |e| - |d| - 1;
    assert e[i] in e;
    if |rule| + |d| == |rule'| + |e| {
      assert (rule + "_" + d)[|rule|] == '_';
      assert (rule' + "_" + e)[|rule|] == e[i];
    }
  }

  // ---------- What the rule table must say ----------

  type Policy = map<string, SqlPolicyRule>

  predicate IsSpecial(rule: string) {
    rule == INTERSECT_ITAG_RULE || rule == UNION_ITAG_RULE
  }

  /** Modules of operations as they are created, with all operands inside the module. */
  ghost predicate IsSqlModule(m: Module) {
    forall o :: o in m.operations ==>
      IsSqlOperation(m.operations[o]) &&
      forall v :: v in m.operations[o].inputs && v.OperationResult? ==> v.op in m.operations
  }

  predicate IsTransform(m: Module, o: OpId) {
    o in m.operations && m.operations[o].name == TAG_TRANSFORM_OP && IsTagTransform(m.operations[o])
  }

  /** The operation whose behaviour a tag transform defines: itself, or the merge that a special one refers to. */
  predicate HasTarget(m: Module, o: OpId)
    requires IsTransform(m, o)
  {
    var op := m.operations[o];
    IsSpecial(GetRuleName(op)) ==>
      |op.inputs| == 1 && op.inputs[0].OperationResult? && op.inputs[0].op in m.operations &&
      m.operations[op.inputs[0].op].name == MERGE_OP && IsMerge(m.operations[op.inputs[0].op])
  }

  function Target(m: Module, o: OpId): OpId
    requires IsTransform(m, o) && HasTarget(m, o)
  {
    var op := m.operations[o];
    if IsSpecial(GetRuleName(op)) then op.inputs[0].op else o
  }

  /** An ordinary transform needs a policy rule with a known action, all of whose arguments it has. */
  predicate HasRule(m: Module, policy: Policy, o: OpId)
    requires IsTransform(m, o)
  {
    var op := m.operations[o];
    var name := GetRuleName(op);
    IsSpecial(name) ||
    (name in policy && policy[name].action != Unknown &&
     forall p :: p in policy[name].preconditions ==> p.argument in PreconditionIndices(op))
  }

  predicate CanDecode(m: Module, policy: Policy, o: OpId) {
    IsTransform(m, o) ==> HasTarget(m, o) && HasRule(m, policy, o)
  }

  /** `u` is the target of transform `t`. */
  predicate IsTargetOf(m: Module, t: OpId, u: OpId) {
    IsTransform(m, t) && HasTarget(m, t) && Target(m, t) == u
  }

  function KindOf(action: Action): ModifyKind
    requires action != Unknown
  {
    match action
    case AddConfidentiality => AddSecrecy
    case RemoveConfidentiality => RemoveSecrecy
    case AddIntegrityTag => AddIntegrity
  }

  function TagOf(tags: map<string, TagId>, name: string): TagId {
    if name in tags then tags[name] else 0
  }

  /** Premises in the order of the preconditions, on the inputs that the transform's attributes name. */
  function Premises(preconditions: seq<Precondition>, indices: map<string, nat>, tags: map<string, TagId>): (r: seq<Premise>)
    requires forall p :: p in preconditions ==> p.argument in indices
    ensures |r| == |preconditions|
  {
    seq(|preconditions|, i requires 0 <= i < |preconditions| =>
      InputHasIntegrity(indices[preconditions[i].argument], TagOf(tags, preconditions[i].requiredIntegrityTag)))
  }

  function MergeRules(rule: string, op: Operation): OutputRules
    requires IsMerge(op)
  {
    map[0 := [InferenceRule(
      MergeIntegrityTags(if rule == UNION_ITAG_RULE then Union else Intersect, Positions(|GetDirectInputs(op)|)), [])]]
  }

  function TransformRules(rule: SqlPolicyRule, op: Operation, tags: map<string, TagId>): OutputRules
    requires IsTagTransform(op) && rule.action != Unknown
    requires forall p :: p in rule.preconditions ==> p.argument in PreconditionIndices(op)
  {
    map[0 := TransformShape(KindOf(rule.action), TagOf(tags, rule.tag), Premises(rule.preconditions, PreconditionIndices(op), tags))]
  }

  /** The rules that transform `o` gives to its target. */
  function RulesFrom(m: Module, policy: Policy, tags: map<string, TagId>, o: OpId): OutputRules
    requires IsTransform(m, o) && CanDecode(m, policy, o)
  {
    var op := m.operations[o];
    var name := GetRuleName(op);
    if IsSpecial(name) then MergeRules(name, m.operations[Target(m, o)])
    else TransformRules(policy[name], op, tags)
  }

  predicate NamesAllTags(m: Module, policy: Policy, tags: map<string, TagId>, o: OpId)
    requires IsTransform(m, o) && CanDecode(m, policy, o)
  {
    var name := GetRuleName(m.operations[o]);
    !IsSpecial(name) ==>
      policy[name].tag in tags && forall p :: p in policy[name].preconditions ==> p.requiredIntegrityTag in tags
  }

  // ---------- What has been decoded so far ----------

  /** No two of the operations have the same target. */
  ghost predicate TargetsDiffer(m: Module, done: set<OpId>) {
    forall t, t', u :: t in done && t' in done && IsTargetOf(m, t, u) && IsTargetOf(m, t', u) ==> t == t'
  }

  /** Every decoded transform has its own rules, and no other operation has any. */
  ghost predicate Implements(m: Module, policy: Policy, done: set<OpId>, rules: InferenceRules) {
    (forall t :: t in done ==> CanDecode(m, policy, t)) &&
    (forall t :: t in done && IsTransform(m, t) ==>
      NamesAllTags(m, policy, rules.tags, t) &&
      rules.RulesFor(Target(m, t)) == RulesFrom(m, policy, rules.tags, t)) &&
    (forall u :: (forall t :: t in done ==> !IsTargetOf(m, t, u)) ==> rules.RulesFor(u) == map[])
  }

  /** The state of the builder: each action belongs to one decoded transform. */
  ghost predicate IsBuilt(m: Module, policy: Policy, done: set<OpId>, rules: InferenceRules) {
    (forall t :: t in done ==> CanDecode(m, policy, t)) &&
    (forall u :: u in rules.actions <==> exists t :: t in done && IsTargetOf(m, t, u)) &&
    (forall u :: u in rules.actions ==> rules.actions[u] in rules.actionRules) &&
    (forall t :: t in done && IsTransform(m, t) ==>
      Target(m, t) in rules.actions &&
      NamesAllTags(m, policy, rules.tags, t) &&
      rules.actionRules[rules.actions[Target(m, t)]] == RulesFrom(m, policy, rules.tags, t))
  }

  /** All actions so far have a count below the counter of their rule. */
  ghost predicate AreCounted(actionRules: map<string, OutputRules>, counts: map<string, nat>) {
    forall action :: action in actionRules ==>
      exists rule, n: nat :: rule in counts && n < counts[rule] && action == ActionName(rule, n)
  }

  /** The counter makes every action name new, so adding its rules cannot fail. */
  lemma NextActionIsNew(actionRules: map<string, OutputRules>, counts: map<string, nat>, rule: string, rules: OutputRules)
    requires AreCounted(actionRules, counts)
    ensures
      var n := if rule in counts then counts[rule] else 0;
      ActionName(rule, n) !in actionRules &&
      AreCounted(actionRules[ActionName(rule, n) := rules], counts[rule := n + 1])
  {
    var n := if rule in counts then counts[rule] else 0;
    var action := ActionName(rule, n);
    if action in actionRules {
      var rule', n': nat :| rule' in counts && n' < counts[rule'] && action == ActionName(rule', n');
      ActionNamesDoNotCollide(rule, n, rule', n');
    }
    hide ActionName;
    var actionRules', counts' := actionRules[action := rules], counts[rule := n + 1];
    forall a | a in actionRules'
      ensures exists r, k: nat :: r in counts' && k < counts'[r] && a == ActionName(r, k)
    {
      if a != action {
        var r, k: nat :| r in counts && k < counts[r] && a == ActionName(r, k);
        assert r in counts' && k < counts'[r];
      } else {
        assert rule in counts' && n < counts'[rule];
      }
    }
  }

  /** New tags do not change the rules that use old ones. */
  lemma RulesKeepTags(m: Module, policy: Policy, tags: map<string, TagId>, tags': map<string, TagId>, o: OpId)
    requires IsTransform(m, o) && CanDecode(m, policy, o) && NamesAllTags(m, policy, tags, o) && Extends(tags, tags')
    ensures NamesAllTags(m, policy, tags', o) && RulesFrom(m, policy, tags', o) == RulesFrom(m, policy, tags, o)
  {
    var op := m.operations[o];
    var name := GetRuleName(op);
    if !IsSpecial(name) {
      var rule := policy[name];
      assert Premises(rule.preconditions, PreconditionIndices(op), tags') ==
        Premises(rule.preconditions, PreconditionIndices(op), tags);
    }
  }

  /** `after` has one more action, with the rules of transform `t`. */
  ghost predicate IsOneMore(m: Module, policy: Policy, before: InferenceRules, after: InferenceRules, t: OpId, action: string) {
    IsTransform(m, t) && CanDecode(m, policy, t) &&
    action !in before.actionRules && Target(m, t) !in before.actions &&
    Extends(before.tags, after.tags) && NamesAllTags(m, policy, after.tags, t) &&
    after.actions == before.actions[Target(m, t) := action] &&
    after.actionRules == before.actionRules[action := RulesFrom(m, policy, after.tags, t)]
  }

  lemma ActionsOneMore(m: Module, policy: Policy, done: set<OpId>, before: InferenceRules, after: InferenceRules, t: OpId, action: string, u: OpId)
    requires IsBuilt(m, policy, done, before) && IsOneMore(m, policy, before, after, t, action)
    ensures u in after.actions <==> exists s :: s in done + {t} && IsTargetOf(m, s, u)
  {
    hide RulesFrom, NamesAllTags, HasRule, Extends, IsTransform, HasTarget, Target;
    if u == Target(m, t) {
      assert IsTargetOf(m, t, u);
      assert t in done + {t};
    } else if u in before.actions {
      var s :| s in done && IsTargetOf(m, s, u);
      assert s in done + {t};
    }
  }

  lemma OldRulesStay(m: Module, policy: Policy, done: set<OpId>, before: InferenceRules, after: InferenceRules, t: OpId, action: string, s: OpId)
    requires IsBuilt(m, policy, done, before) && IsOneMore(m, policy, before, after, t, action)
    requires s in done && IsTransform(m, s)
    ensures CanDecode(m, policy, s) && NamesAllTags(m, policy, after.tags, s) && Target(m, s) in after.actions
    ensures after.actions[Target(m, s)] in after.actionRules
    ensures after.actionRules[after.actions[Target(m, s)]] == RulesFrom(m, policy, after.tags, s)
  {
    hide RulesFrom, NamesAllTags, HasRule, Extends, IsTransform, HasTarget, Target;
    assert CanDecode(m, policy, s);
    RulesKeepTags(m, policy, before.tags, after.tags, s);
    assert before.actions[Target(m, s)] in before.actionRules;
  }

  /** Decoding one more transform. */
  lemma BuiltOneMore(m: Module, policy: Policy, done: set<OpId>, before: InferenceRules, after: InferenceRules, t: OpId, action: string)
    requires IsBuilt(m, policy, done, before) && IsOneMore(m, policy, before, after, t, action)
    ensures IsBuilt(m, policy, done + {t}, after)
  {
    hide RulesFrom, NamesAllTags, HasRule, Extends, IsTransform, HasTarget, Target, IsTargetOf;
    forall u
      ensures u in after.actions <==> exists s :: s in done + {t} && IsTargetOf(m, s, u)
    {
      ActionsOneMore(m, policy, done, before, after, t, action, u);
    }
    forall s | s in done && IsTransform(m, s)
      ensures NamesAllTags(m, policy, after.tags, s) && Target(m, s) in after.actions
      ensures after.actions[Target(m, s)] in after.actionRules
      ensures after.actionRules[after.actions[Target(m, s)]] == RulesFrom(m, policy, after.tags, s)
    {
      OldRulesStay(m, policy, done, before, after, t, action, s);
    }
  }

  lemma SkipOperation(m: Module, policy: Policy, done: set<OpId>, rules: InferenceRules, o: OpId)
    requires IsBuilt(m, policy, done, rules) && !IsTransform(m, o)
    ensures IsBuilt(m, policy, done + {o}, rules)
  {
  }

  lemma BuiltImplements(m: Module, policy: Policy, done: set<OpId>, rules: InferenceRules)
    requires IsBuilt(m, policy, done, rules)
    ensures Implements(m, policy, done, rules)
  {
    hide RulesFrom, NamesAllTags, HasRule, IsTransform, HasTarget, Target;
  }

  // ---------- Decoding ----------

  predicate HasDistinctRules(rules: seq<SqlPolicyRule>) {
    forall i, j :: 0 <= i < j < |rules| ==> rules[i].name != rules[j].name
  }

  function PolicyOf(rules: seq<SqlPolicyRule>): Policy {
    if rules == [] then map[]
    else
      var n := |rules| - 1;
      PolicyOf(rules[..n])[rules[n].name := rules[n]]
  }

  lemma {:induction false} PolicyHasNames(rules: seq<SqlPolicyRule>, name: string)
    ensures name in PolicyOf(rules) <==> exists i :: 0 <= i < |rules| && rules[i].name == name
  {
    if rules != [] {
      var n := |rules| - 1;
      PolicyHasNames(rules[..n], name);
      if i :| 0 <= i < |rules| && rules[i].name == name {
        assert i < n ==> rules[..n][i].name == name;
      }
      if i :| 0 <= i < n && rules[..n][i].name == name {
        assert rules[i].name == name;
      }
    }
  }

  /** Each rule of a policy is found under its name. */
  lemma {:induction false} PolicyHasRules(rules: seq<SqlPolicyRule>, i: nat)
    requires HasDistinctRules(rules) && i < |rules|
    ensures rules[i].name in PolicyOf(rules) && PolicyOf(rules)[rules[i].name] == rules[i]
  {
    var n := |rules| - 1;
    if i < n {
      PolicyHasRules(rules[..n], i);
    }
  }

  method CollectRules(rules: seq<SqlPolicyRule>) returns (r: Checked<Policy>)
    ensures r.Passed? <==> HasDistinctRules(rules)
    ensures r.Passed? ==> r.value == PolicyOf(rules)
  {
    var policy: Policy := map[];
    for k := 0 to |rules|
      invariant HasDistinctRules(rules[..k]) && policy == PolicyOf(rules[..k])
    {
      PolicyHasNames(rules[..k], rules[k].name);
      if rules[k].name in policy {
        var i :| 0 <= i < k && rules[..k][i].name == rules[k].name;
        assert rules[i].name == rules[k].name;
        return CheckFailed;
      }
      forall i | 0 <= i < k
        ensures rules[i].name != rules[k].name
      {
        assert rules[..k][i] == rules[i];
      }
      policy := policy[rules[k].name := rules[k]];
      assert rules[..k + 1][..k] == rules[..k];
    }
    assert rules[..|rules|] == rules;
    return Passed(policy);
  }

  /** The premises of a rule, creating the tags they need. */
  method DecodePreconditions(preconditions: seq<Precondition>, indices: map<string, nat>, builder: InferenceRulesBuilder)
    returns (r: Checked<seq<Premise>>)
    requires builder.Valid()
    modifies builder`tags, builder`tagNames
    ensures r.Passed? <==> forall p :: p in preconditions ==> p.argument in indices
    ensures builder.Valid() && Extends(old(builder.tags), builder.tags) && old(builder.tagNames) <= builder.tagNames
    ensures r.Passed? ==>
      r.value == Premises(preconditions, indices, builder.tags) &&
      forall p :: p in preconditions ==> p.requiredIntegrityTag in builder.tags
  {
    var premises := [];
    for k := 0 to |preconditions|
      invariant builder.Valid() && Extends(old(builder.tags), builder.tags) && old(builder.tagNames) <= builder.tagNames
      invariant forall i :: 0 <= i < k ==> preconditions[i].argument in indices && preconditions[i].requiredIntegrityTag in builder.tags
      invariant |premises| == k
      invariant forall i :: 0 <= i < k ==> premises[i] == InputHasIntegrity(
        indices[preconditions[i].argument], TagOf(builder.tags, preconditions[i].requiredIntegrityTag))
    {
      var tag := builder.GetOrCreateTagId(preconditions[k].requiredIntegrityTag);
      if preconditions[k].argument !in indices {
        assert preconditions[k] in preconditions;
        return CheckFailed;
      }
      premises := premises + [InputHasIntegrity(indices[preconditions[k].argument], tag)];
    }
    return Passed(premises);
  }

  method AddInferenceRuleForTagTransform(rule: SqlPolicyRule, op: Operation, action: string, builder: InferenceRulesBuilder)
    returns (ok: bool)
    requires builder.Valid() && IsTagTransform(op) && action !in builder.actionRules
    modifies builder`tags, builder`tagNames, builder`actionRules
    ensures ok <==> rule.action != Unknown && forall p :: p in rule.preconditions ==> p.argument in PreconditionIndices(op)
    ensures ok ==>
      builder.Valid() && Extends(old(builder.tags), builder.tags) && old(builder.tagNames) <= builder.tagNames &&
      rule.tag in builder.tags && (forall p :: p in rule.preconditions ==> p.requiredIntegrityTag in builder.tags) &&
      builder.actionRules == old(builder.actionRules)[action := TransformRules(rule, op, builder.tags)]
  {
    var indices := GetPreconditionInputIndices(op);
    var premises := DecodePreconditions(rule.preconditions, indices.value, builder);
    if premises.CheckFailed? || rule.action == Unknown {
      return false;
    }
    ghost var before := builder.tags;
    var tag := builder.GetOrCreateTagId(rule.tag);
    PremisesKeepTags(rule.preconditions, indices.value, before, builder.tags);
    ok := builder.AddOutputRulesForAction(action, map[0 := [
      InferenceRule(CopyInput(0), []),
      InferenceRule(ModifyTag(KindOf(rule.action), tag), premises.value)]]);
  }

  lemma PremisesKeepTags(preconditions: seq<Precondition>, indices: map<string, nat>, tags: map<string, TagId>, tags': map<string, TagId>)
    requires forall p :: p in preconditions ==> p.argument in indices && p.requiredIntegrityTag in tags
    requires Extends(tags, tags')
    ensures Premises(preconditions, indices, tags') == Premises(preconditions, indices, tags)
  {
  }

  method AddInferenceRuleForMerge(op: Operation, rule: string, action: string, builder: InferenceRulesBuilder)
    returns (ok: bool)
    requires IsMerge(op) && action !in builder.actionRules
    modifies builder`actionRules
    ensures ok && builder.actionRules == old(builder.actionRules)[action := MergeRules(rule, op)]
  {
    var start := GetControlInputStartIndex(op).value;
    var kind := if rule == UNION_ITAG_RULE then Union else Intersect;
    ok := builder.AddOutputRulesForAction(action, map[0 := [InferenceRule(MergeIntegrityTags(kind, Positions(start)), [])]]);
  }

  /** A target is free exactly when no decoded transform has it. */
  lemma FreeTarget(m: Module, policy: Policy, done: set<OpId>, rules: InferenceRules, o: OpId)
    requires IsBuilt(m, policy, done, rules) && TargetsDiffer(m, done) && o !in done && IsTransform(m, o) && HasTarget(m, o)
    ensures TargetsDiffer(m, done + {o}) <==> Target(m, o) !in rules.actions
  {
    hide RulesFrom, NamesAllTags, HasRule, IsTransform, HasTarget, Target;
    var u := Target(m, o);
    assert IsTargetOf(m, o, u);
    if u in rules.actions {
      var t :| t in done && IsTargetOf(m, t, u);
      assert t in done + {o} && o in done + {o};
    }
  }

  /** An ordinary transform cannot be marked already: special ones mark merges. */
  lemma OrdinaryTargetIsFree(m: Module, policy: Policy, done: set<OpId>, rules: InferenceRules, o: OpId)
    requires IsBuilt(m, policy, done, rules) && o !in done && IsTransform(m, o) && !IsSpecial(GetRuleName(m.operations[o]))
    ensures o !in rules.actions
  {
  }

  /** The result of decoding one transform. */
  twostate predicate IsStep(m: Module, policy: Policy, done: set<OpId>, builder: InferenceRulesBuilder, counts: map<string, nat>, o: OpId, ok: bool)
    reads builder
  {
    (ok <==> CanDecode(m, policy, o) && TargetsDiffer(m, done + {o})) &&
    (ok ==> builder.Valid() && old(builder.tagNames) <= builder.tagNames &&
            IsBuilt(m, policy, done + {o}, builder.Table()) && AreCounted(builder.actionRules, counts))
  }

  method DecodeSpecial(m: Module, policy: Policy, builder: InferenceRulesBuilder, counts0: map<string, nat>, o: OpId, ghost done: set<OpId>)
    returns (ok: bool, counts: map<string, nat>)
    requires IsSqlModule(m) && IsTransform(m, o) && IsSpecial(GetRuleName(m.operations[o])) && o !in done
    requires builder.Valid() && IsBuilt(m, policy, done, builder.Table()) && TargetsDiffer(m, done)
    requires AreCounted(builder.actionRules, counts0)
    modifies builder
    ensures IsStep(m, policy, done, builder, counts, o, ok)
  {
    hide IsBuilt, TargetsDiffer, AreCounted, ActionName, MergeRules, IsSqlModule, AreInverse;
    var op := m.operations[o];
    var rule := GetRuleName(op);
    var n := if rule in counts0 then counts0[rule] else 0;
    var action := ActionName(rule, n);
    counts := counts0[rule := n + 1];
    if |op.inputs| != 1 || !op.inputs[0].OperationResult? {
      return false, counts;
    }
    var target := op.inputs[0].op;
    assert op.inputs[0] in op.inputs;
    OperandIsSqlOperation(m, o, op.inputs[0]);
    ghost var before := builder.Table();
    ok := builder.MarkOperationAsAction(target, action);
    if m.operations[target].name != MERGE_OP {
      return false, counts;
    }
    FreeTarget(m, policy, done, before, o);
    if !ok {
      return false, counts;
    }
    NextActionIsNew(builder.actionRules, counts0, rule, MergeRules(rule, m.operations[target]));
    ok := AddInferenceRuleForMerge(m.operations[target], rule, action, builder);
    BuiltOneMore(m, policy, done, before, builder.Table(), o, action);
  }

  lemma OperandIsSqlOperation(m: Module, o: OpId, v: Value)
    requires IsSqlModule(m) && o in m.operations && v in m.operations[o].inputs && v.OperationResult?
    ensures v.op in m.operations && IsSqlOperation(m.operations[v.op])
  {
  }

  method DecodeOrdinary(m: Module, policy: Policy, builder: InferenceRulesBuilder, counts0: map<string, nat>, o: OpId, ghost done: set<OpId>)
    returns (ok: bool, counts: map<string, nat>)
    requires IsSqlModule(m) && IsTransform(m, o) && !IsSpecial(GetRuleName(m.operations[o])) && o !in done
    requires builder.Valid() && IsBuilt(m, policy, done, builder.Table()) && TargetsDiffer(m, done)
    requires AreCounted(builder.actionRules, counts0)
    modifies builder
    ensures IsStep(m, policy, done, builder, counts, o, ok)
  {
    hide IsBuilt, TargetsDiffer, AreCounted, ActionName, TransformRules, IsSqlModule, AreInverse, IsTagTransform;
    var op := m.operations[o];
    var rule := GetRuleName(op);
    var n := if rule in counts0 then counts0[rule] else 0;
    var action := ActionName(rule, n);
    counts := counts0[rule := n + 1];
    ghost var before := builder.Table();
    OrdinaryTargetIsFree(m, policy, done, before, o);
    ok := builder.MarkOperationAsAction(o, action);
    assert ok;
    if rule !in policy {
      return false, counts;
    }
    NextActionIsNew(builder.actionRules, counts0, rule, map[]);
    ok := AddInferenceRuleForTagTransform(policy[rule], op, action, builder);
    if ok {
      FreeTarget(m, policy, done, before, o);
      NextActionIsNew(before.actionRules, counts0, rule, TransformRules(policy[rule], op, builder.tags));
      BuiltOneMore(m, policy, done, before, builder.Table(), o, action);
    }
  }

  /** What is known after decoding the operations in `done`; `ok` is false once a check has failed. */
  ghost predicate IsProgress(m: Module, policy: Policy, done: set<OpId>, rules: InferenceRules, counts: map<string, nat>, ok: bool) {
    (ok <==> (forall o :: o in done ==> CanDecode(m, policy, o)) && TargetsDiffer(m, done)) &&
    (ok ==> AreInverse(rules.tags, rules.tagNames) && IsBuilt(m, policy, done, rules) && AreCounted(rules.actionRules, counts))
  }

  method DecodeOperation(m: Module, policy: Policy, builder: InferenceRulesBuilder, counts0: map<string, nat>, o: OpId, ghost done: set<OpId>)
    returns (ok: bool, counts: map<string, nat>)
    requires IsSqlModule(m) && o in m.operations && o !in done
    requires IsProgress(m, policy, done, builder.Table(), counts0, true)
    modifies builder
    ensures IsProgress(m, policy, done + {o}, builder.Table(), counts, ok)
    ensures ok ==> old(builder.tagNames) <= builder.tagNames
  {
    hide IsBuilt, AreCounted, IsSqlModule, AreInverse, CanDecode, TargetsDiffer;
    NamedTransform(m, o);
    if m.operations[o].name != TAG_TRANSFORM_OP {
      SkipOperation(m, policy, done, builder.Table(), o);
      SkippedTargets(m, policy, done, o);
      return true, counts0;
    }
    if IsSpecial(GetRuleName(m.operations[o])) {
      ok, counts := DecodeSpecial(m, policy, builder, counts0, o, done);
    } else {
      ok, counts := DecodeOrdinary(m, policy, builder, counts0, o, done);
    }
  }

  lemma NamedTransform(m: Module, o: OpId)
    requires IsSqlModule(m) && o in m.operations
    ensures IsTransform(m, o) <==> m.operations[o].name == TAG_TRANSFORM_OP
  {
  }

  lemma SkippedTargets(m: Module, policy: Policy, done: set<OpId>, o: OpId)
    requires TargetsDiffer(m, done) && !IsTransform(m, o)
    ensures TargetsDiffer(m, done + {o}) && CanDecode(m, policy, o)
  {
  }

  method DecodeBlock(m: Module, policy: Policy, builder: InferenceRulesBuilder, counts0: map<string, nat>, block: seq<OpId>, ghost done: set<OpId>)
    returns (ok: bool, counts: map<string, nat>)
    requires IsSqlModule(m) && HasNoRepeats(block) && forall o :: o in block ==> o in m.operations && o !in done
    requires IsProgress(m, policy, done, builder.Table(), counts0, true)
    modifies builder
    ensures ok ==> old(builder.tagNames) <= builder.tagNames
    ensures IsProgress(m, policy, done + Elements(block), builder.Table(), counts, ok)
  {
    hide IsSqlModule, IsProgress;
    ok, counts := true, counts0;
    assert done + Elements(block[..0]) == done;
    for k := 0 to |block|
      invariant old(builder.tagNames) <= builder.tagNames
      invariant IsProgress(m, policy, done + Elements(block[..k]), builder.Table(), counts, true)
    {
      assert block[k] in block;
      assert block[k] !in Elements(block[..k]);
      ok, counts := DecodeOperation(m, policy, builder, counts, block[k], done + Elements(block[..k]));
      assert block[..k + 1] == block[..k] + [block[k]];
      assert done + Elements(block[..k + 1]) == done + Elements(block[..k]) + {block[k]};
      if !ok {
        FailureStays(m, policy, done + Elements(block[..k + 1]), done + Elements(block), builder.Table(), counts);
        return false, counts;
      }
    }
    assert block[..|block|] == block;
    return true, counts;
  }

  /** Once a check has failed, further operations do not matter. */
  lemma FailureStays(m: Module, policy: Policy, done: set<OpId>, more: set<OpId>, rules: InferenceRules, counts: map<string, nat>)
    requires done <= more && IsProgress(m, policy, done, rules, counts, false)
    ensures IsProgress(m, policy, more, rules, counts, false)
  {
  }

  /**
   Decodes the rules for a module.  It fails exactly when a seed tag or a rule
   name is repeated, a transform has no rule or no target, or two transforms
   have the same target; in particular never because two action names collide.
   */
  method DecodeSqlPolicyRules(sqlRules: seq<SqlPolicyRule>, m: Module, seeds: seq<string>) returns (r: Checked<InferenceRules>)
    requires IsWellFormed(m) && IsOwnedOnce(m.blocks) && IsSqlModule(m)
    ensures r.Passed? <==>
      HasNoDuplicates(seeds) && HasDistinctRules(sqlRules) &&
      (forall o :: o in m.operations ==> CanDecode(m, PolicyOf(sqlRules), o)) && TargetsDiffer(m, m.operations.Keys)
    ensures r.Passed? ==>
      Implements(m, PolicyOf(sqlRules), m.operations.Keys, r.value) &&
      AreInverse(r.value.tags, r.value.tagNames) && seeds <= r.value.tagNames
  {
    hide IsSqlModule, AreInverse, Implements, HasNoRepeats, HasDistinctRules, HasNoDuplicates;
    var builder := new InferenceRulesBuilder();
    var seeded := builder.AddSeedTags(seeds);
    if !seeded {
      return CheckFailed;
    }
    var policy :- CollectRules(sqlRules);
    var counts: map<string, nat>, ok := map[], true;
    ghost var done: set<OpId> := {};
    NoProgress(m, policy, builder.Table());
    hide IsProgress;
    for b := 0 to |m.blocks|
      invariant seeds <= builder.tagNames
      invariant IsProgress(m, policy, done, builder.Table(), counts, true)
      invariant forall o :: o in done <==> Owns(m.blocks[..b], o)
      invariant done <= m.operations.Keys
    {
      forall o | o in m.blocks[b]
        ensures o in m.operations && o !in done
      {
        assert Owns(m.blocks, o);
      }
      ok, counts := DecodeBlock(m, policy, builder, counts, m.blocks[b], done);
      if !ok {
        FailureStays(m, policy, done + Elements(m.blocks[b]), m.operations.Keys, builder.Table(), counts);
        assert !AllDecode(m, policy) by { FailedProgress(m, policy, builder.Table(), counts); }
        return CheckFailed;
      }
      done := done + Elements(m.blocks[b]);
      forall o
        ensures Owns(m.blocks[..b + 1], o) <==> Owns(m.blocks[..b], o) || o in m.blocks[b]
      {
        OwnsOneMore(m.blocks, b, o);
      }
    }
    assert m.blocks[..|m.blocks|] == m.blocks;
    assert done == m.operations.Keys;
    Finished(m, policy, builder.Table(), counts);
    var rules := builder.Build();
    return Passed(rules);
  }

  ghost predicate AllDecode(m: Module, policy: Policy) {
    (forall o :: o in m.operations ==> CanDecode(m, policy, o)) && TargetsDiffer(m, m.operations.Keys)
  }

  lemma NoProgress(m: Module, policy: Policy, rules: InferenceRules)
    requires AreInverse(rules.tags, rules.tagNames) && rules.actions == map[] && rules.actionRules == map[]
    ensures IsProgress(m, policy, {}, rules, map[], true)
  {
  }

  lemma FailedProgress(m: Module, policy: Policy, rules: InferenceRules, counts: map<string, nat>)
    requires IsProgress(m, policy, m.operations.Keys, rules, counts, false)
    ensures !AllDecode(m, policy)
  {
  }

  lemma Finished(m: Module, policy: Policy, rules: InferenceRules, counts: map<string, nat>)
    requires IsProgress(m, policy, m.operations.Keys, rules, counts, true)
    ensures AllDecode(m, policy) && Implements(m, policy, m.operations.Keys, rules) && AreInverse(rules.tags, rules.tagNames)
  {
    BuiltImplements(m, policy, m.operations.Keys, rules);
  }

  // ---------- The decoded rules are well formed ----------

  lemma TransformRulesInBounds(m: Module, policy: Policy, tags: map<string, TagId>, t: OpId)
    requires IsTransform(m, t) && CanDecode(m, policy, t)
    ensures
      var u := Target(m, t);
      u in m.operations && OutputRulesInBounds(RulesFrom(m, policy, tags, t), |m.operations[u].inputs|, m.operations[u].outputs)
  {
  }

  /** The decoded rules never refer to an input or output that their operation does not have. */
  lemma DecodedRulesAreInBounds(m: Module, policy: Policy, rules: InferenceRules)
    requires Implements(m, policy, m.operations.Keys, rules)
    ensures InBounds(m, rules)
  {
    forall u | u in m.operations
      ensures OutputRulesInBounds(rules.RulesFor(u), |m.operations[u].inputs|, m.operations[u].outputs)
    {
      if t :| t in m.operations && IsTargetOf(m, t, u) {
        TransformRulesInBounds(m, policy, rules.tags, t);
        hide RulesFrom, InferenceRules.RulesFor, OutputRulesInBounds, IsTransform, HasTarget;
        assert rules.RulesFor(Target(m, t)) == RulesFrom(m, policy, rules.tags, t);
      } else {
        assert rules.RulesFor(u) == map[];
      }
    }
  }

  /** Transform `t` uses a rule that adds a secrecy tag under a condition. */
  predicate AddsSecrecyOnCondition(m: Module, policy: Policy, t: OpId) {
    IsTransform(m, t) && CanDecode(m, policy, t) && !IsSpecial(GetRuleName(m.operations[t])) &&
    var rule := policy[GetRuleName(m.operations[t])];
    rule.action == AddConfidentiality && rule.preconditions != []
  }

  lemma TransformRulesRestricted(m: Module, policy: Policy, tags: map<string, TagId>, t: OpId)
    requires IsTransform(m, t) && CanDecode(m, policy, t)
    ensures
      var rules := RulesFrom(m, policy, tags, t);
      (forall i :: i in rules ==> AllRestricted(rules[i])) <==> !AddsSecrecyOnCondition(m, policy, t)
  {
    var rules := RulesFrom(m, policy, tags, t);
    assert 0 in rules;
    forall i | i in rules
      ensures i == 0 && rules[0][|rules[0]| - 1] in rules[0]
    {
    }
  }

  /** All decoded rules are of the restricted kinds exactly when no rule in use adds secrecy on a condition. */
  lemma DecodedRulesAreRestrictedIff(m: Module, policy: Policy, rules: InferenceRules)
    requires Implements(m, policy, m.operations.Keys, rules)
    ensures IsRestrictedTable(m, rules) <==> forall t :: t in m.operations ==> !AddsSecrecyOnCondition(m, policy, t)
  {
    forall t | t in m.operations && IsTransform(m, t)
      ensures IsTargetOf(m, t, Target(m, t)) && Target(m, t) in m.operations
      ensures (forall i :: i in rules.RulesFor(Target(m, t)) ==> AllRestricted(rules.RulesFor(Target(m, t))[i])) <==>
        !AddsSecrecyOnCondition(m, policy, t)
    {
      TransformRulesRestricted(m, policy, rules.tags, t);
    }
    hide InferenceRules.RulesFor, AllRestricted, RulesFrom, HasRule, HasTarget, Target;
    if forall t :: t in m.operations ==> !AddsSecrecyOnCondition(m, policy, t) {
      forall u, i | u in m.operations && i in rules.RulesFor(u)
        ensures AllRestricted(rules.RulesFor(u)[i])
      {
        var t :| t in m.operations && IsTargetOf(m, t, u);
        assert IsTransform(m, t);
      }
    }
  }

  /** Decoded premises are on tag modifications only. */
  lemma DecodedTableIsConditional(m: Module, policy: Policy, rules: InferenceRules)
    requires Implements(m, policy, m.operations.Keys, rules)
    ensures IsConditionalTable(m, rules)
  {
    forall o, i, r | o in m.operations && i in rules.RulesFor(o) && r in rules.RulesFor(o)[i]
      ensures IsConditionalAtMost(r)
    {
      var t :| t in m.operations && IsTargetOf(m, t, o);
      assert rules.RulesFor(o) == RulesFrom(m, policy, rules.tags, t);
    }
  }

  /** Every operation's transformer is monotone. */
  ghost predicate IsMonotoneTable(m: Module, rules: InferenceRules)
    requires InBounds(m, rules)
  {
    forall o, i: nat :: HasResult(m, o, i) ==> IsMonotoneOutput(rules.RulesFor(o), |m.operations[o].inputs|, i)
  }

  lemma RestrictedTableIsMonotone(m: Module, rules: InferenceRules)
    requires InBounds(m, rules) && IsRestrictedTable(m, rules)
    ensures IsMonotoneTable(m, rules)
  {
    forall o, i: nat, ins, ins' | HasResult(m, o, i) && |ins| == |m.operations[o].inputs| && AllLeq(ins, ins')
      ensures OutputState(rules.RulesFor(o), ins, i).Leq(OutputState(rules.RulesFor(o), ins', i))
    {
      TransformerIsMonotone(rules.RulesFor(o), ins, ins', i);
    }
  }

  /** The transformers of a decoded table are monotone exactly when no rule in use adds secrecy on a condition. */
  lemma DecodedTableIsMonotoneIff(m: Module, policy: Policy, rules: InferenceRules)
    requires Implements(m, policy, m.operations.Keys, rules)
    ensures InBounds(m, rules)
    ensures IsMonotoneTable(m, rules) <==> forall t :: t in m.operations ==> !AddsSecrecyOnCondition(m, policy, t)
  {
    DecodedRulesAreInBounds(m, policy, rules);
    DecodedRulesAreRestrictedIff(m, policy, rules);
    if t :| t in m.operations && AddsSecrecyOnCondition(m, policy, t) {
      ConditionalTransformIsNotMonotone(m, policy, rules, t);
    } else {
      RestrictedTableIsMonotone(m, rules);
    }
  }

  lemma ConditionalTransformIsNotMonotone(m: Module, policy: Policy, rules: InferenceRules, t: OpId)
    requires Implements(m, policy, m.operations.Keys, rules) && InBounds(m, rules)
    requires t in m.operations && AddsSecrecyOnCondition(m, policy, t)
    ensures !IsMonotoneTable(m, rules)
  {
    var op := m.operations[t];
    var rule := policy[GetRuleName(op)];
    var premises := Premises(rule.preconditions, PreconditionIndices(op), rules.tags);
    TransformRulesInBounds(m, policy, rules.tags, t);
    assert rules.RulesFor(t) == RulesFrom(m, policy, rules.tags, t);
    assert HasResult(m, t, 0);
    TransformIsMonotoneIff(AddSecrecy, TagOf(rules.tags, rule.tag), premises, |op.inputs|, 0, rules.RulesFor(t));
  }

  /** The rule of a name in the policy is one of the given rules. */
  lemma {:induction false} PolicyComesFrom(rules: seq<SqlPolicyRule>, name: string) returns (i: nat)
    requires name in PolicyOf(rules)
    ensures i < |rules| && rules[i] == PolicyOf(rules)[name] && rules[i].name == name
  {
    var n := |rules| - 1;
    if rules[n].name == name {
      i := n;
    } else {
      i := PolicyComesFrom(rules[..n], name);
    }
  }
}
