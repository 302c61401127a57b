/**
 The rule interpreter of the taint analysis: how the states of an operation's
 inputs determine the state of each of its outputs.
 */
module TaintRules {
  import opened Seqs
  import opened Checks
  import opened IfcTags

  datatype Premise = InputHasIntegrity(index: nat, tag: TagId)

  datatype ModifyKind = AddSecrecy | RemoveSecrecy | AddIntegrity

  datatype MergeKind = Union | Intersect

  datatype Conclusion =
    | CopyInput(index: nat)
    | ModifyTag(kind: ModifyKind, tag: TagId)
    | MergeIntegrityTags(merge: MergeKind, indices: seq<nat>)

  datatype InferenceRule = InferenceRule(conclusion: Conclusion, premises: seq<Premise>)

  /** For each output index, the rules to apply in order. */
  type OutputRules = map<nat, seq<InferenceRule>>

  /** The rule table: operations are marked as actions, actions have rules, tags have names. */
  datatype InferenceRules = InferenceRules(
    actionRules: map<string, OutputRules>,
    actions: map<nat, string>,
    tags: map<string, TagId>,
    tagNames: seq<string>)
  {
    /** An operation without an action, or whose action has no rules, has none. */
    function RulesFor(op: nat): OutputRules {
      if op in actions && actions[op] in actionRules then actionRules[actions[op]] else map[]
    }
  }

  // ---------- Index checks ----------

  predicate IndicesInBounds(indices: seq<nat>, inputs: nat) {
    forall k :: 0 <= k < |indices| ==> indices[k] < inputs
  }

  predicate RuleInBounds(rule: InferenceRule, inputs: nat) {
    (forall p :: p in rule.premises ==> p.index < inputs) &&
    match rule.conclusion
    case CopyInput(i) => i < inputs
    case ModifyTag(_, _) => true
    case MergeIntegrityTags(_, indices) => IndicesInBounds(indices, inputs)
  }

  predicate RulesInBounds(rules: seq<InferenceRule>, inputs: nat) {
    forall r :: r in rules ==> RuleInBounds(r, inputs)
  }

  predicate OutputRulesInBounds(rules: OutputRules, inputs: nat, outputs: nat) {
    forall i :: i in rules ==> i < outputs && RulesInBounds(rules[i], inputs)
  }

  // ---------- Interpretation ----------

  /** The state of a seed value. */
  const INITIAL := Tags({}, {})

  function JoinAll(ins: seq<Tags>): Tags {
    if ins == [] then Bottom else JoinAll(ins[..|ins| - 1]).Join(ins[|ins| - 1])
  }

  /** Without rules an operation unions the secrecy of its inputs and drops their integrity. */
  function DefaultState(ins: seq<Tags>): Tags {
    if ins == [] then INITIAL
    else
      var joined := JoinAll(ins);
      if joined.Bottom? then Bottom else Tags(joined.secrecy, {})
  }

  /** Bottom counts as having every integrity tag. */
  predicate PremiseHolds(p: Premise, ins: seq<Tags>)
    requires p.index < |ins|
  {
    ins[p.index].Bottom? || ins[p.index].HasIntegrity(p.tag)
  }

  predicate PremisesHold(rule: InferenceRule, ins: seq<Tags>)
    requires RuleInBounds(rule, |ins|)
  {
    forall p :: p in rule.premises ==> PremiseHolds(p, ins)
  }

  predicate AnyBottom(ins: seq<Tags>) {
    exists i :: 0 <= i < |ins| && ins[i].Bottom?
  }

  /** The integrity tags of the given inputs, merged from left to right; none for no inputs. */
  function MergedIntegrity(merge: MergeKind, indices: seq<nat>, ins: seq<Tags>): set<TagId>
    requires IndicesInBounds(indices, |ins|)
    requires !AnyBottom(ins)
  {
    if indices == [] then {}
    else
      var init, last := indices[..|indices| - 1], ins[indices[|indices| - 1]].integrity;
      if init == [] then last
      else if merge == Union then MergedIntegrity(merge, init, ins) + last
      else MergedIntegrity(merge, init, ins) * last
  }

  function Merge(merge: MergeKind, indices: seq<nat>, ins: seq<Tags>, current: Tags): Tags
    requires IndicesInBounds(indices, |ins|)
  {
    if current.Bottom? then Bottom
    else if AnyBottom(ins) then Bottom
    else Tags(current.secrecy, MergedIntegrity(merge, indices, ins))
  }

  function Interpret(rule: InferenceRule, ins: seq<Tags>, current: Tags): Tags
    requires RuleInBounds(rule, |ins|)
  {
    if !PremisesHold(rule, ins) then current
    else
      match rule.conclusion
      case CopyInput(i) => ins[i]
      case ModifyTag(AddIntegrity, tag) => current.SetIntegrity(tag)
      case ModifyTag(RemoveSecrecy, tag) => current.ClearSecrecy(tag)
      case ModifyTag(AddSecrecy, tag) => current.SetSecrecy(tag)
      case MergeIntegrityTags(merge, indices) => Merge(merge, indices, ins, current)
  }

  function ApplyRules(rules: seq<InferenceRule>, ins: seq<Tags>, current: Tags): Tags
    requires RulesInBounds(rules, |ins|)
  {
    if rules == [] then current
    else
      var n := |rules| - 1;
      Interpret(rules[n], ins, ApplyRules(rules[..n], ins, current))
  }

  /** The state of output `i`. */
  function OutputState(rules: OutputRules, ins: seq<Tags>, i: nat): Tags
    requires i in rules ==> RulesInBounds(rules[i], |ins|)
  {
    if i in rules then ApplyRules(rules[i], ins, DefaultState(ins)) else DefaultState(ins)
  }

  // ---------- Index checks that fail ----------

  /** Premises are looked at in order, until one is not satisfied; an index without an input aborts. */
  function CheckPremises(premises: seq<Premise>, ins: seq<Tags>): Checked<bool> {
    if premises == [] then Passed(true)
    else
      var n := |premises| - 1;
      var before := CheckPremises(premises[..n], ins);
      if before != Passed(true) then before
      else if premises[n].index >= |ins| then CheckFailed
      else Passed(PremiseHolds(premises[n], ins))
  }

  /** Merging looks at its indices only if nothing is bottom. */
  function CheckedMerge(merge: MergeKind, indices: seq<nat>, ins: seq<Tags>, current: Tags): Checked<Tags> {
    if current.Bottom? then Passed(Bottom)
    else if AnyBottom(ins) then Passed(Bottom)
    else if IndicesInBounds(indices, |ins|) then Passed(Merge(merge, indices, ins, current))
    else CheckFailed
  }

  function CheckedInterpret(rule: InferenceRule, ins: seq<Tags>, current: Tags): Checked<Tags> {
    var holds := CheckPremises(rule.premises, ins);
    if holds.CheckFailed? then CheckFailed
    else if !holds.value then Passed(current)
    else
      match rule.conclusion
      case CopyInput(i) => if i < |ins| then Passed(ins[i]) else CheckFailed
      case ModifyTag(AddIntegrity, tag) => Passed(current.SetIntegrity(tag))
      case ModifyTag(RemoveSecrecy, tag) => Passed(current.ClearSecrecy(tag))
      case ModifyTag(AddSecrecy, tag) => Passed(current.SetSecrecy(tag))
      case MergeIntegrityTags(merge, indices) => CheckedMerge(merge, indices, ins, current)
  }

  function CheckedRules(rules: seq<InferenceRule>, ins: seq<Tags>, current: Tags): Checked<Tags> {
    if rules == [] then Passed(current)
    else
      var n := |rules| - 1;
      var before := CheckedRules(rules[..n], ins, current);
      if before.CheckFailed? then CheckFailed else CheckedInterpret(rules[n], ins, before.value)
  }

  /** Some rules are for an output that the operation lacks, or one of the rules aborts. */
  predicate TransformerAborts(rules: OutputRules, ins: seq<Tags>, outputs: nat) {
    exists i :: i in rules && (i >= outputs || CheckedRules(rules[i], ins, DefaultState(ins)).CheckFailed?)
  }

  lemma {:induction false} PremisesInBounds(premises: seq<Premise>, ins: seq<Tags>)
    requires forall p :: p in premises ==> p.index < |ins|
    ensures CheckPremises(premises, ins) == Passed(forall p :: p in premises ==> PremiseHolds(p, ins))
  {
    if premises != [] {
      var n := |premises| - 1;
      forall p
        ensures p in premises <==> p in premises[..n] || p == premises[n]
      {
        InInitOrLast(premises, p);
      }
      PremisesInBounds(premises[..n], ins);
    }
  }

  /** Rules in bounds never abort; then the result is what they mean. */
  lemma {:induction false} RulesInBoundsPass(rules: seq<InferenceRule>, ins: seq<Tags>, current: Tags)
    requires RulesInBounds(rules, |ins|)
    ensures CheckedRules(rules, ins, current) == Passed(ApplyRules(rules, ins, current))
  {
    if rules != [] {
      var n := |rules| - 1;
      assert rules[n] in rules;
      RulesInBoundsPass(rules[..n], ins, current);
      PremisesInBounds(rules[n].premises, ins);
      var before := ApplyRules(rules[..n], ins, current);
      assert CheckedInterpret(rules[n], ins, before) == Passed(Interpret(rules[n], ins, before));
    }
  }

  /** A table in bounds never aborts. */
  lemma TransformerInBounds(rules: OutputRules, ins: seq<Tags>, outputs: nat)
    requires OutputRulesInBounds(rules, |ins|, outputs)
    ensures !TransformerAborts(rules, ins, outputs)
    ensures forall i :: i in rules ==> CheckedRules(rules[i], ins, DefaultState(ins)) == Passed(OutputState(rules, ins, i))
  {
    forall i | i in rules
      ensures i < outputs && CheckedRules(rules[i], ins, DefaultState(ins)) == Passed(OutputState(rules, ins, i))
    {
      RulesInBoundsPass(rules[i], ins, DefaultState(ins));
    }
  }

  // ---------- The interpreter's loops ----------

  method ApplyDefaultOperationTransformer(ins: seq<Tags>) returns (r: Tags)
    ensures r == DefaultState(ins)
  {
    if ins == [] {
      return INITIAL;
    }
    var joined := Bottom;
    for i := 0 to |ins|
      invariant joined == JoinAll(ins[..i])
    {
      assert ins[..i + 1][..i] == ins[..i];
      joined := JoinTags(joined, ins[i]);
    }
    assert ins[..|ins|] == ins;
    return if joined.Bottom? then joined else Tags(joined.secrecy, {});
  }

  method InterpretMergeIntegrityTags(merge: MergeKind, indices: seq<nat>, ins: seq<Tags>, current: Tags) returns (r: Checked<Tags>)
    ensures r == CheckedMerge(merge, indices, ins, current)
  {
    if current.Bottom? {
      return Passed(current);
    }
    if AnyBottom(ins) {
      return Passed(Bottom);
    }
    var firstTime, tags := true, {};
    for k := 0 to |indices|
      invariant firstTime <==> k == 0
      invariant IndicesInBounds(indices[..k], |ins|)
      invariant tags == MergedIntegrity(merge, indices[..k], ins)
    {
      assert indices[..k + 1][..k] == indices[..k];
      if indices[k] >= |ins| {
        return CheckFailed;
      }
      var own := ins[indices[k]].integrity;
      if firstTime {
        firstTime, tags := false, own;
      } else if merge == Union {
        tags := tags + own;
      } else {
        tags := IntersectTags(tags, own);
      }
    }
    assert indices[..|indices|] == indices;
    return Passed(Tags(current.secrecy, tags));
  }

  method ArePremisesSatisfied(premises: seq<Premise>, ins: seq<Tags>) returns (r: Checked<bool>)
    ensures r == CheckPremises(premises, ins)
  {
    for k := 0 to |premises|
      invariant CheckPremises(premises[..k], ins) == Passed(true)
    {
      assert premises[..k + 1][..k] == premises[..k];
      if premises[k].index >= |ins| {
        PremisesStop(premises, ins, k);
        return CheckFailed;
      }
      if !PremiseHolds(premises[k], ins) {
        PremisesStop(premises, ins, k);
        return Passed(false);
      }
    }
    assert premises[..|premises|] == premises;
    return Passed(true);
  }

  /** What the first premises decide is decided. */
  lemma {:induction false} PremisesStop(premises: seq<Premise>, ins: seq<Tags>, k: nat)
    requires k < |premises| && CheckPremises(premises[..k + 1], ins) != Passed(true)
    ensures CheckPremises(premises, ins) == CheckPremises(premises[..k + 1], ins)
    decreases |premises|
  {
    var n := |premises| - 1;
    if k < n {
      assert premises[..n][..k + 1] == premises[..k + 1];
      PremisesStop(premises[..n], ins, k);
    } else {
      assert premises[..k + 1] == premises;
    }
  }

  method InterpretInferenceRule(rule: InferenceRule, ins: seq<Tags>, current: Tags) returns (r: Checked<Tags>)
    ensures r == CheckedInterpret(rule, ins, current)
  {
    var satisfied :- ArePremisesSatisfied(rule.premises, ins);
    if !satisfied {
      return Passed(current);
    }
    match rule.conclusion
    case CopyInput(i) =>
      return if i < |ins| then Passed(ins[i]) else CheckFailed;
    case ModifyTag(kind, tag) =>
      return match kind
        case AddIntegrity => Passed(current.SetIntegrity(tag))
        case RemoveSecrecy => Passed(current.ClearSecrecy(tag))
        case AddSecrecy => Passed(current.SetSecrecy(tag));
    case MergeIntegrityTags(merge, indices) =>
      r := InterpretMergeIntegrityTags(merge, indices, ins, current);
  }

  method FoldRules(rules: seq<InferenceRule>, ins: seq<Tags>, initial: Tags) returns (r: Checked<Tags>)
    ensures r == CheckedRules(rules, ins, initial)
  {
    var state := initial;
    for k := 0 to |rules|
      invariant CheckedRules(rules[..k], ins, initial) == Passed(state)
    {
      assert rules[..k + 1][..k] == rules[..k];
      var next := InterpretInferenceRule(rules[k], ins, state);
      if next.CheckFailed? {
        RulesStop(rules, ins, initial, k + 1);
        return CheckFailed;
      }
      state := next.value;
    }
    assert rules[..|rules|] == rules;
    return Passed(state);
  }

  lemma {:induction false} RulesStop(rules: seq<InferenceRule>, ins: seq<Tags>, current: Tags, k: nat)
    requires k <= |rules| && CheckedRules(rules[..k], ins, current).CheckFailed?
    ensures CheckedRules(rules, ins, current).CheckFailed?
    decreases |rules|
  {
    var n := |rules| - 1;
    if k < |rules| {
      assert rules[..n][..k] == rules[..k];
      RulesStop(rules[..n], ins, current, k);
    } else {
      assert rules[..k] == rules;
    }
  }

  /**
   All outputs start at the default; those with rules are overwritten, in an
   arbitrary order.  Aborts exactly when an index has no input or output.
   */
  method ApplyOperationTransformer(rules: OutputRules, ins: seq<Tags>, outputs: nat) returns (r: Checked<seq<Tags>>)
    ensures r.CheckFailed? <==> TransformerAborts(rules, ins, outputs)
    ensures r.Passed? ==> |r.value| == outputs && forall i :: 0 <= i < outputs ==>
      Passed(r.value[i]) == if i in rules then CheckedRules(rules[i], ins, DefaultState(ins)) else Passed(DefaultState(ins))
  {
    var initial := ApplyDefaultOperationTransformer(ins);
    var results := seq(outputs, i => initial);
    var left := rules.Keys;
    while left != {}
      invariant left <= rules.Keys && |results| == outputs
      invariant forall i :: i in rules.Keys - left ==> i < outputs && CheckedRules(rules[i], ins, initial).Passed?
      invariant forall i :: 0 <= i < outputs ==>
        Passed(results[i]) == if i in rules.Keys - left then CheckedRules(rules[i], ins, initial) else Passed(initial)
      decreases |left|
    {
      var index :| index in left;
      if index >= outputs {
        return CheckFailed;
      }
      var state := FoldRules(rules[index], ins, initial);
      if state.CheckFailed? {
        return CheckFailed;
      }
      results := results[index := state.value];
      left := left - {index};
    }
    return Passed(results);
  }

  // ---------- Monotonicity ----------

  predicate AllLeq(ins: seq<Tags>, ins': seq<Tags>) {
    |ins| == |ins'| && forall i :: 0 <= i < |ins| ==> ins[i].Leq(ins'[i])
  }

  /** The rules whose interpretation can only grow with the inputs. */
  predicate IsRestricted(rule: InferenceRule) {
    rule.premises == [] || (rule.conclusion.ModifyTag? && rule.conclusion.kind != AddSecrecy)
  }

  predicate AllRestricted(rules: seq<InferenceRule>) {
    forall r :: r in rules ==> IsRestricted(r)
  }

  lemma {:induction false} JoinAllIsMonotone(ins: seq<Tags>, ins': seq<Tags>)
    requires AllLeq(ins, ins')
    ensures JoinAll(ins).Leq(JoinAll(ins'))
  {
    if ins != [] {
      JoinAllIsMonotone(ins[..|ins| - 1], ins'[..|ins| - 1]);
    }
  }

  /** Larger inputs have less integrity, so they merge to less. */
  lemma {:induction false} MergedIntegrityIsAntitone(merge: MergeKind, indices: seq<nat>, ins: seq<Tags>, ins': seq<Tags>)
    requires AllLeq(ins, ins') && !AnyBottom(ins) && !AnyBottom(ins')
    requires IndicesInBounds(indices, |ins|)
    ensures MergedIntegrity(merge, indices, ins') <= MergedIntegrity(merge, indices, ins)
  {
    if indices != [] {
      var n := |indices| - 1;
      assert ins[indices[n]].Leq(ins'[indices[n]]);
      MergedIntegrityIsAntitone(merge, indices[..n], ins, ins');
    }
  }

  /** A premise that larger inputs satisfy is satisfied by smaller ones. */
  lemma PremisesAreAntitone(rule: InferenceRule, ins: seq<Tags>, ins': seq<Tags>)
    requires AllLeq(ins, ins') && RuleInBounds(rule, |ins|) && PremisesHold(rule, ins')
    ensures PremisesHold(rule, ins)
  {
  }

  lemma MergeIsMonotone(merge: MergeKind, indices: seq<nat>, ins: seq<Tags>, ins': seq<Tags>, current: Tags, current': Tags)
    requires AllLeq(ins, ins') && current.Leq(current')
    requires IndicesInBounds(indices, |ins|)
    ensures Merge(merge, indices, ins, current).Leq(Merge(merge, indices, ins', current'))
  {
    if !current.Bottom? && !AnyBottom(ins) {
      forall i | 0 <= i < |ins'|
        ensures !ins'[i].Bottom?
      {
        assert ins[i].Leq(ins'[i]);
      }
      MergedIntegrityIsAntitone(merge, indices, ins, ins');
    }
  }

  lemma RestrictedRuleIsMonotone(rule: InferenceRule, ins: seq<Tags>, ins': seq<Tags>, current: Tags, current': Tags)
    requires AllLeq(ins, ins') && current.Leq(current') && RuleInBounds(rule, |ins|) && IsRestricted(rule)
    ensures Interpret(rule, ins, current).Leq(Interpret(rule, ins', current'))
  {
    if PremisesHold(rule, ins') {
      PremisesAreAntitone(rule, ins, ins');
    }
    match rule.conclusion
    case CopyInput(i) =>
    case ModifyTag(kind, tag) =>
    case MergeIntegrityTags(merge, indices) =>
      MergeIsMonotone(merge, indices, ins, ins', current, current');
  }

  lemma {:induction false} RestrictedRulesAreMonotone(rules: seq<InferenceRule>, ins: seq<Tags>, ins': seq<Tags>,
                                                      current: Tags, current': Tags)
    requires AllLeq(ins, ins') && current.Leq(current') && RulesInBounds(rules, |ins|) && AllRestricted(rules)
    ensures ApplyRules(rules, ins, current).Leq(ApplyRules(rules, ins', current'))
  {
    if rules != [] {
      var n := |rules| - 1;
      assert rules[n] in rules;
      RestrictedRulesAreMonotone(rules[..n], ins, ins', current, current');
      RestrictedRuleIsMonotone(rules[n], ins, ins', ApplyRules(rules[..n], ins, current), ApplyRules(rules[..n], ins', current'));
    }
  }

  /** With restricted rules the whole transformer of an output is monotone in the input states. */
  lemma TransformerIsMonotone(rules: OutputRules, ins: seq<Tags>, ins': seq<Tags>, i: nat)
    requires AllLeq(ins, ins')
    requires i in rules ==> RulesInBounds(rules[i], |ins|) && AllRestricted(rules[i])
    ensures OutputState(rules, ins, i).Leq(OutputState(rules, ins', i))
  {
    JoinAllIsMonotone(ins, ins');
    assert DefaultState(ins).Leq(DefaultState(ins'));
    if i in rules {
      RestrictedRulesAreMonotone(rules[i], ins, ins', DefaultState(ins), DefaultState(ins'));
    }
  }

  /** `rule`, on operations with `inputs` inputs, is monotone in the inputs and the accumulated state. */
  ghost predicate IsMonotoneRule(rule: InferenceRule, inputs: nat)
    requires RuleInBounds(rule, inputs)
  {
    forall ins, ins', current: Tags, current': Tags ::
      |ins| == inputs && AllLeq(ins, ins') && current.Leq(current')
      ==> Interpret(rule, ins, current).Leq(Interpret(rule, ins', current'))
  }

  function PremiseTags(rule: InferenceRule): set<TagId> {
    set i | 0 <= i < |rule.premises| :: rule.premises[i].tag
  }

  lemma {:induction false} MergedOfEqual(merge: MergeKind, indices: seq<nat>, ins: seq<Tags>, tags: set<TagId>)
    requires forall i :: 0 <= i < |ins| ==> ins[i] == Tags({}, tags)
    requires IndicesInBounds(indices, |ins|)
    ensures !AnyBottom(ins)
    ensures MergedIntegrity(merge, indices, ins) <= tags
  {
    if indices != [] {
      var n := |indices| - 1;
      MergedOfEqual(merge, indices[..n], ins, tags);
    }
  }

  /** Any other rule can be made to shrink: let the inputs lose the integrity its premises ask for. */
  lemma UnrestrictedRuleShrinks(rule: InferenceRule, inputs: nat)
    requires RuleInBounds(rule, inputs) && !IsRestricted(rule)
    ensures !IsMonotoneRule(rule, inputs)
  {
    var tags := PremiseTags(rule);
    var ins := seq(inputs, i => Tags({}, tags));
    var ins' := seq(inputs, i => Tags({}, {}));
    assert AllLeq(ins, ins');
    forall p | p in rule.premises
      ensures PremiseHolds(p, ins)
    {
      var i :| 0 <= i < |rule.premises| && rule.premises[i] == p;
      assert p.tag in tags;
    }
    assert PremisesHold(rule, ins);
    assert !PremiseHolds(rule.premises[0], ins');
    assert rule.premises[0] in rule.premises;
    assert !PremisesHold(rule, ins');
    var extra := FreshNumber(tags);
    var current := match rule.conclusion
      case CopyInput(_) => Bottom
      case ModifyTag(_, _) => Tags({}, {})
      case MergeIntegrityTags(_, _) => Tags({}, tags + {extra});
    if rule.conclusion.MergeIntegrityTags? {
      MergedOfEqual(rule.conclusion.merge, rule.conclusion.indices, ins, tags);
      assert extra !in Interpret(rule, ins, current).integrity;
      assert extra in current.integrity;
    }
    assert !Interpret(rule, ins, current).Leq(Interpret(rule, ins', current));
  }

  /**
   Exactly the restricted rules are monotone: those without premises, and those
   that remove secrecy or add integrity.
   */
  lemma MonotoneIffRestricted(rule: InferenceRule, inputs: nat)
    requires RuleInBounds(rule, inputs)
    ensures IsMonotoneRule(rule, inputs) <==> IsRestricted(rule)
  {
    if IsRestricted(rule) {
      forall ins, ins', current: Tags, current': Tags
        | |ins| == inputs && AllLeq(ins, ins') && current.Leq(current')
        ensures Interpret(rule, ins, current).Leq(Interpret(rule, ins', current'))
      {
        RestrictedRuleIsMonotone(rule, ins, ins', current, current');
      }
    } else {
      UnrestrictedRuleShrinks(rule, inputs);
    }
  }

  /** The state of output `i` can only grow with the inputs. */
  ghost predicate IsMonotoneOutput(rules: OutputRules, inputs: nat, i: nat)
    requires i in rules ==> RulesInBounds(rules[i], inputs)
  {
    forall ins, ins' :: |ins| == inputs && AllLeq(ins, ins') ==> OutputState(rules, ins, i).Leq(OutputState(rules, ins', i))
  }

  /** A rule that copies the first input and one that then modifies a tag under premises. */
  function TransformShape(kind: ModifyKind, tag: TagId, premises: seq<Premise>): seq<InferenceRule> {
    [InferenceRule(CopyInput(0), []), InferenceRule(ModifyTag(kind, tag), premises)]
  }

  lemma ApplyTransformShape(kind: ModifyKind, tag: TagId, premises: seq<Premise>, ins: seq<Tags>, current: Tags)
    requires ins != [] && RulesInBounds(TransformShape(kind, tag, premises), |ins|)
    ensures ApplyRules(TransformShape(kind, tag, premises), ins, current) ==
            Interpret(InferenceRule(ModifyTag(kind, tag), premises), ins, ins[0])
  {
    var rules := TransformShape(kind, tag, premises);
    assert rules[..1] == [rules[0]] && rules[..1][..0] == [];
    assert rules[0] in rules && rules[1] in rules;
    assert PremisesHold(rules[0], ins);
  }

  /** If the premises are what decides about secrecy, losing integrity loses secrecy. */
  lemma ConditionalSecrecyShrinks(tag: TagId, premises: seq<Premise>, inputs: nat, i: nat, rules: OutputRules)
    requires inputs > 0 && premises != [] && RulesInBounds(TransformShape(AddSecrecy, tag, premises), inputs)
    requires i in rules && rules[i] == TransformShape(AddSecrecy, tag, premises)
    ensures !IsMonotoneOutput(rules, inputs, i)
  {
    var rule := InferenceRule(ModifyTag(AddSecrecy, tag), premises);
    var tags := PremiseTags(rule);
    var ins := seq(inputs, j => Tags({}, tags));
    var ins' := seq(inputs, j => Tags({}, {}));
    assert AllLeq(ins, ins');
    assert rules[i][1] in rules[i];
    forall p | p in premises
      ensures PremiseHolds(p, ins)
    {
      var j :| 0 <= j < |premises| && premises[j] == p;
    }
    assert PremisesHold(rule, ins);
    assert !PremiseHolds(premises[0], ins');
    ApplyTransformShape(AddSecrecy, tag, premises, ins, DefaultState(ins));
    ApplyTransformShape(AddSecrecy, tag, premises, ins', DefaultState(ins'));
    assert tag in OutputState(rules, ins, i).secrecy && tag !in OutputState(rules, ins', i).secrecy;
  }

  /** A transform is monotone exactly when it does not add secrecy under a premise. */
  lemma TransformIsMonotoneIff(kind: ModifyKind, tag: TagId, premises: seq<Premise>, inputs: nat, i: nat, rules: OutputRules)
    requires inputs > 0 && RulesInBounds(TransformShape(kind, tag, premises), inputs)
    requires i in rules && rules[i] == TransformShape(kind, tag, premises)
    ensures IsMonotoneOutput(rules, inputs, i) <==> !(kind == AddSecrecy && premises != [])
  {
    if kind == AddSecrecy && premises != [] {
      ConditionalSecrecyShrinks(tag, premises, inputs, i, rules);
    } else {
      forall ins, ins' | |ins| == inputs && AllLeq(ins, ins')
        ensures OutputState(rules, ins, i).Leq(OutputState(rules, ins', i))
      {
        TransformerIsMonotone(rules, ins, ins', i);
      }
    }
  }

  // ---------- Strictness, and the tags that can appear ----------

  predicate AllBottom(ins: seq<Tags>) {
    forall i :: 0 <= i < |ins| ==> ins[i].Bottom?
  }

  lemma {:induction false} JoinOfBottoms(ins: seq<Tags>)
    requires AllBottom(ins)
    ensures JoinAll(ins) == Bottom
  {
    if ins != [] {
      JoinOfBottoms(ins[..|ins| - 1]);
    }
  }

  lemma {:induction false} RulesKeepBottom(rules: seq<InferenceRule>, ins: seq<Tags>)
    requires RulesInBounds(rules, |ins|) && AllBottom(ins)
    ensures ApplyRules(rules, ins, Bottom) == Bottom
  {
    if rules != [] {
      var n := |rules| - 1;
      assert rules[n] in rules;
      RulesKeepBottom(rules[..n], ins);
    }
  }

  /** An operation none of whose inputs has been reached produces nothing, whatever its rules. */
  lemma UnreachedInputsGiveBottom(rules: OutputRules, ins: seq<Tags>, i: nat)
    requires ins != [] && AllBottom(ins)
    requires i in rules ==> RulesInBounds(rules[i], |ins|)
    ensures OutputState(rules, ins, i) == Bottom
  {
    JoinOfBottoms(ins);
    if i in rules {
      RulesKeepBottom(rules[i], ins);
    }
  }

  lemma JoinOfReached(ins: seq<Tags>)
    requires ins != [] && !AnyBottom(ins)
    ensures JoinAll(ins).Tags?
  {
  }

  lemma {:induction false} RulesKeepReached(rules: seq<InferenceRule>, ins: seq<Tags>, current: Tags)
    requires RulesInBounds(rules, |ins|) && !AnyBottom(ins) && current.Tags?
    ensures ApplyRules(rules, ins, current).Tags?
  {
    if rules != [] {
      var n := |rules| - 1;
      assert rules[n] in rules;
      RulesKeepReached(rules[..n], ins, current);
      match rules[n].conclusion
      case CopyInput(j) => assert !ins[j].Bottom?;
      case ModifyTag(_, _) =>
      case MergeIntegrityTags(_, _) =>
    }
  }

  /** An operation all of whose inputs have been reached produces a state, whatever its rules. */
  lemma ReachedInputsGiveState(rules: OutputRules, ins: seq<Tags>, i: nat)
    requires !AnyBottom(ins)
    requires i in rules ==> RulesInBounds(rules[i], |ins|)
    ensures OutputState(rules, ins, i).Tags?
  {
    if ins != [] {
      JoinOfReached(ins);
    }
    if i in rules {
      RulesKeepReached(rules[i], ins, DefaultState(ins));
    }
  }

  predicate Within(t: Tags, tags: set<TagId>) {
    t.Tags? ==> t.secrecy <= tags && t.integrity <= tags
  }

  predicate AllWithin(ins: seq<Tags>, tags: set<TagId>) {
    forall i :: 0 <= i < |ins| ==> Within(ins[i], tags)
  }

  function RuleTags(rule: InferenceRule): set<TagId> {
    if rule.conclusion.ModifyTag? then {rule.conclusion.tag} else {}
  }

  lemma {:induction false} JoinStaysWithin(ins: seq<Tags>, tags: set<TagId>)
    requires AllWithin(ins, tags)
    ensures Within(JoinAll(ins), tags)
  {
    if ins != [] {
      JoinStaysWithin(ins[..|ins| - 1], tags);
    }
  }

  lemma {:induction false} MergedStaysWithin(merge: MergeKind, indices: seq<nat>, ins: seq<Tags>, tags: set<TagId>)
    requires AllWithin(ins, tags) && !AnyBottom(ins) && IndicesInBounds(indices, |ins|)
    ensures MergedIntegrity(merge, indices, ins) <= tags
  {
    if indices != [] {
      var n := |indices| - 1;
      assert Within(ins[indices[n]], tags);
      MergedStaysWithin(merge, indices[..n], ins, tags);
    }
  }

  lemma {:induction false} RulesStayWithin(rules: seq<InferenceRule>, ins: seq<Tags>, current: Tags, tags: set<TagId>)
    requires RulesInBounds(rules, |ins|) && AllWithin(ins, tags) && Within(current, tags)
    requires forall r :: r in rules ==> RuleTags(r) <= tags
    ensures Within(ApplyRules(rules, ins, current), tags)
  {
    if rules != [] {
      var n := |rules| - 1;
      assert rules[n] in rules;
      RulesStayWithin(rules[..n], ins, current, tags);
      if rules[n].conclusion.MergeIntegrityTags? && !AnyBottom(ins) {
        MergedStaysWithin(rules[n].conclusion.merge, rules[n].conclusion.indices, ins, tags);
      }
    }
  }

  /** No tag appears that neither an input nor a rule mentions. */
  lemma OutputStaysWithin(rules: OutputRules, ins: seq<Tags>, i: nat, tags: set<TagId>)
    requires AllWithin(ins, tags)
    requires i in rules ==> RulesInBounds(rules[i], |ins|) && forall r :: r in rules[i] ==> RuleTags(r) <= tags
    ensures Within(OutputState(rules, ins, i), tags)
  {
    JoinStaysWithin(ins, tags);
    if i in rules {
      RulesStayWithin(rules[i], ins, DefaultState(ins), tags);
    }
  }
}
