/**
 What the secrecy tags of the fixpoint mean: a tag is in the state of a value
 exactly when it flows there along a path from an operation that adds it,
 through operations that pass it on.
 */
module FlowPaths {
  import opened IfcTags
  import opened TaintRules
  import opened IrModule
  import opened Transfer

  // ---------- How rules treat one tag ----------

  /** Where a tag in the current state comes from: a rule that added it, or some of the inputs. */
  datatype Source = Source(added: bool, inputs: set<nat>)

  function FlowStep(rule: InferenceRule, ins: seq<Tags>, tag: TagId, s: Source): Source
    requires RuleInBounds(rule, |ins|)
  {
    if !PremisesHold(rule, ins) then s
    else
      match rule.conclusion
      case CopyInput(i) => Source(false, {i})
      case ModifyTag(AddSecrecy, t) => if t == tag then Source(true, s.inputs) else s
      case ModifyTag(RemoveSecrecy, t) => if t == tag then Source(false, {}) else s
      case ModifyTag(AddIntegrity, _) => s
      case MergeIntegrityTags(_, _) => s
  }

  function InputIndices(n: nat): (r: set<nat>)
    ensures forall j: nat :: j in r <==> j < n
  {
    if n == 0 then {} else InputIndices(n - 1) + {n - 1}
  }

  /** By default a tag of any input is passed on; the rules are then applied in order. */
  function Flow(rules: seq<InferenceRule>, ins: seq<Tags>, tag: TagId): (s: Source)
    requires RulesInBounds(rules, |ins|)
    ensures forall j :: j in s.inputs ==> j < |ins|
  {
    if rules == [] then Source(false, InputIndices(|ins|))
    else
      var n := |rules| - 1;
      assert rules[n] in rules;
      FlowStep(rules[n], ins, tag, Flow(rules[..n], ins, tag))
  }

  predicate HasSecrecy(t: Tags, tag: TagId) {
    t.Tags? && tag in t.secrecy
  }

  /** Some input that `s` draws from has the tag. */
  predicate Supplies(s: Source, ins: seq<Tags>, tag: TagId)
    requires forall j :: j in s.inputs ==> j < |ins|
  {
    s.added || exists j :: j in s.inputs && HasSecrecy(ins[j], tag)
  }

  lemma {:induction false} JoinAllSecrecy(ins: seq<Tags>, tag: TagId)
    ensures HasSecrecy(JoinAll(ins), tag) <==> exists j :: 0 <= j < |ins| && HasSecrecy(ins[j], tag)
  {
    if ins != [] {
      var n := |ins| - 1;
      JoinAllSecrecy(ins[..n], tag);
      if j :| 0 <= j < n && HasSecrecy(ins[..n][j], tag) {
        assert ins[j] == ins[..n][j];
      }
      if j :| 0 <= j < |ins| && HasSecrecy(ins[j], tag) {
        assert j < n ==> ins[..n][j] == ins[j];
      }
    }
  }

  lemma DefaultFlow(ins: seq<Tags>, tag: TagId)
    ensures HasSecrecy(DefaultState(ins), tag) <==> Supplies(Flow([], ins, tag), ins, tag)
  {
    JoinAllSecrecy(ins, tag);
    var s := Flow([], ins, tag);
    if j :| 0 <= j < |ins| && HasSecrecy(ins[j], tag) {
      assert j in s.inputs;
    }
  }

  /** In a state that is not bottom, the tag is there exactly when its source supplies it. */
  lemma {:induction false} FlowIsExact(rules: seq<InferenceRule>, ins: seq<Tags>, tag: TagId)
    requires RulesInBounds(rules, |ins|)
    requires ApplyRules(rules, ins, DefaultState(ins)).Tags?
    ensures HasSecrecy(ApplyRules(rules, ins, DefaultState(ins)), tag) <==> Supplies(Flow(rules, ins, tag), ins, tag)
  {
    if rules == [] {
      DefaultFlow(ins, tag);
    } else {
      var n := |rules| - 1;
      assert rules[n] in rules;
      var before := ApplyRules(rules[..n], ins, DefaultState(ins));
      if before.Tags? {
        FlowIsExact(rules[..n], ins, tag);
      }
      var s := Flow(rules[..n], ins, tag);
      match rules[n].conclusion
      case CopyInput(j) =>
        if PremisesHold(rules[n], ins) {
          assert Supplies(Source(false, {j}), ins, tag) <==> HasSecrecy(ins[j], tag);
        }
      case ModifyTag(kind, t) =>
      case MergeIntegrityTags(_, _) =>
    }
  }

  function RulesAt(rules: InferenceRules, o: OpId, i: nat): seq<InferenceRule> {
    if i in rules.RulesFor(o) then rules.RulesFor(o)[i] else []
  }

  function FlowAt(m: Module, rules: InferenceRules, x: States, o: OpId, i: nat, tag: TagId): (s: Source)
    requires InBounds(m, rules) && o in m.operations
    ensures forall j :: j in s.inputs ==> j < |m.operations[o].inputs|
  {
    Flow(RulesAt(rules, o, i), InputStates(m, x, o), tag)
  }

  lemma TransferFlow(m: Module, rules: InferenceRules, x: States, o: OpId, i: nat, tag: TagId)
    requires InBounds(m, rules) && o in m.operations && TransferState(m, rules, x, o, i).Tags?
    ensures HasSecrecy(TransferState(m, rules, x, o, i), tag) <==>
            Supplies(FlowAt(m, rules, x, o, i, tag), InputStates(m, x, o), tag)
  {
    FlowIsExact(RulesAt(rules, o, i), InputStates(m, x, o), tag);
  }

  // ---------- Paths ----------

  /** Operation `v.op` has a state at result `v` and its rules add the tag there. */
  ghost predicate Adds(m: Module, rules: InferenceRules, x: States, tag: TagId, v: Value)
    requires InBounds(m, rules)
  {
    IsResult(m, v) && Get(x, v).Tags? && FlowAt(m, rules, x, v.op, v.index, tag).added
  }

  /** Operation `v.op` takes `u` as an input from which its rules pass the tag on to result `v`. */
  ghost predicate Passes(m: Module, rules: InferenceRules, x: States, tag: TagId, u: Value, v: Value)
    requires InBounds(m, rules)
  {
    IsResult(m, v) && Get(x, v).Tags? &&
    exists j :: j in FlowAt(m, rules, x, v.op, v.index, tag).inputs && m.operations[v.op].inputs[j] == u
  }

  /** A finite flow: the tag is added at the first value and passed on from each to the next. */
  ghost predicate IsFlow(m: Module, rules: InferenceRules, x: States, tag: TagId, path: seq<Value>)
    requires InBounds(m, rules)
  {
    |path| > 0 && Adds(m, rules, x, tag, path[0]) &&
    forall k :: 0 <= k < |path| - 1 ==> Passes(m, rules, x, tag, path[k], path[k + 1])
  }

  ghost predicate FlowsTo(m: Module, rules: InferenceRules, x: States, tag: TagId, v: Value)
    requires InBounds(m, rules)
  {
    exists path :: IsFlow(m, rules, x, tag, path) && path[|path| - 1] == v
  }

  lemma FlowStarts(m: Module, rules: InferenceRules, x: States, tag: TagId, v: Value)
    requires InBounds(m, rules) && Adds(m, rules, x, tag, v)
    ensures FlowsTo(m, rules, x, tag, v)
  {
    assert IsFlow(m, rules, x, tag, [v]);
  }

  lemma FlowContinues(m: Module, rules: InferenceRules, x: States, tag: TagId, u: Value, v: Value)
    requires InBounds(m, rules) && FlowsTo(m, rules, x, tag, u) && Passes(m, rules, x, tag, u, v)
    ensures FlowsTo(m, rules, x, tag, v)
  {
    hide Adds, Passes;
    var path :| IsFlow(m, rules, x, tag, path) && path[|path| - 1] == u;
    var longer := path + [v];
    forall k | 0 <= k < |longer| - 1
      ensures Passes(m, rules, x, tag, longer[k], longer[k + 1])
    {
      if k < |path| - 1 {
        assert longer[k] == path[k] && longer[k + 1] == path[k + 1];
      }
    }
    assert IsFlow(m, rules, x, tag, longer);
  }

  /** Along a flow in a solution, every value carries the tag. */
  lemma {:induction false} FlowCarriesTag(m: Module, rules: InferenceRules, x: States, tag: TagId, path: seq<Value>)
    requires InBounds(m, rules) && IsSolution(m, rules, x) && IsFlow(m, rules, x, tag, path)
    ensures HasSecrecy(Get(x, path[|path| - 1]), tag)
    decreases |path|
  {
    var n := |path| - 1;
    var v := path[n];
    if n == 0 {
      TransferFlow(m, rules, x, v.op, v.index, tag);
    } else {
      var u := path[n - 1];
      assert Passes(m, rules, x, tag, path[n - 1], path[n - 1 + 1]);
      forall k | 0 <= k < n - 1
        ensures Passes(m, rules, x, tag, path[..n][k], path[..n][k + 1])
      {
        assert Passes(m, rules, x, tag, path[k], path[k + 1]);
      }
      FlowCarriesTag(m, rules, x, tag, path[..n]);
      TransferFlow(m, rules, x, v.op, v.index, tag);
      var j :| j in FlowAt(m, rules, x, v.op, v.index, tag).inputs && m.operations[v.op].inputs[j] == u;
      assert InputStates(m, x, v.op)[j] == Get(x, u);
    }
  }

  // ---------- Every tag has a flow ----------

  /** `y` is `x` with some secrecy tags left out. */
  predicate IsThinned(t: Tags, s: Tags) {
    if t.Bottom? then s.Bottom? else s.Tags? && s.secrecy <= t.secrecy && s.integrity == t.integrity
  }

  predicate AllThinned(ins: seq<Tags>, ins': seq<Tags>) {
    |ins| == |ins'| && forall i :: 0 <= i < |ins| ==> IsThinned(ins[i], ins'[i])
  }

  lemma {:induction false} JoinAllThinned(ins: seq<Tags>, ins': seq<Tags>)
    requires AllThinned(ins, ins')
    ensures IsThinned(JoinAll(ins), JoinAll(ins'))
  {
    if ins != [] {
      JoinAllThinned(ins[..|ins| - 1], ins'[..|ins| - 1]);
    }
  }

  lemma PremisesThinned(rule: InferenceRule, ins: seq<Tags>, ins': seq<Tags>)
    requires AllThinned(ins, ins') && RuleInBounds(rule, |ins|)
    ensures PremisesHold(rule, ins) <==> PremisesHold(rule, ins')
  {
  }

  lemma {:induction false} MergedThinned(merge: MergeKind, indices: seq<nat>, ins: seq<Tags>, ins': seq<Tags>)
    requires AllThinned(ins, ins') && IndicesInBounds(indices, |ins|) && !AnyBottom(ins) && !AnyBottom(ins')
    ensures MergedIntegrity(merge, indices, ins) == MergedIntegrity(merge, indices, ins')
  {
    if indices != [] {
      var n := |indices| - 1;
      assert IsThinned(ins[indices[n]], ins'[indices[n]]);
      MergedThinned(merge, indices[..n], ins, ins');
    }
  }

  lemma AnyBottomThinned(ins: seq<Tags>, ins': seq<Tags>)
    requires AllThinned(ins, ins')
    ensures AnyBottom(ins) <==> AnyBottom(ins')
  {
  }

  /** Premises, bottom and integrity do not depend on secrecy; secrecy only shrinks with secrecy. */
  lemma InterpretThinned(rule: InferenceRule, ins: seq<Tags>, ins': seq<Tags>, t: Tags, t': Tags)
    requires AllThinned(ins, ins') && RuleInBounds(rule, |ins|) && IsThinned(t, t')
    ensures IsThinned(Interpret(rule, ins, t), Interpret(rule, ins', t'))
  {
    PremisesThinned(rule, ins, ins');
    match rule.conclusion
    case CopyInput(i) => assert IsThinned(ins[i], ins'[i]);
    case ModifyTag(_, _) =>
    case MergeIntegrityTags(merge, indices) =>
      AnyBottomThinned(ins, ins');
      if !AnyBottom(ins) {
        MergedThinned(merge, indices, ins, ins');
      }
  }

  lemma {:induction false} RulesThinned(rules: seq<InferenceRule>, ins: seq<Tags>, ins': seq<Tags>, t: Tags, t': Tags, tag: TagId)
    requires AllThinned(ins, ins') && RulesInBounds(rules, |ins|) && IsThinned(t, t')
    ensures IsThinned(ApplyRules(rules, ins, t), ApplyRules(rules, ins', t'))
    ensures Flow(rules, ins, tag) == Flow(rules, ins', tag)
  {
    if rules != [] {
      var n := |rules| - 1;
      assert rules[n] in rules;
      RulesThinned(rules[..n], ins, ins', t, t', tag);
      InterpretThinned(rules[n], ins, ins', ApplyRules(rules[..n], ins, t), ApplyRules(rules[..n], ins', t'));
      PremisesThinned(rules[n], ins, ins');
    }
  }

  ghost predicate StatesThinned(x: States, y: States) {
    forall v :: IsThinned(Get(x, v), Get(y, v))
  }

  lemma TransferThinned(m: Module, rules: InferenceRules, x: States, y: States, o: OpId, i: nat, tag: TagId)
    requires InBounds(m, rules) && o in m.operations && StatesThinned(x, y)
    ensures IsThinned(TransferState(m, rules, x, o, i), TransferState(m, rules, y, o, i))
    ensures FlowAt(m, rules, x, o, i, tag) == FlowAt(m, rules, y, o, i, tag)
  {
    var ins, ins' := InputStates(m, x, o), InputStates(m, y, o);
    assert AllThinned(ins, ins');
    JoinAllThinned(ins, ins');
    assert IsThinned(DefaultState(ins), DefaultState(ins'));
    RulesThinned(RulesAt(rules, o, i), ins, ins', DefaultState(ins), DefaultState(ins'), tag);
  }

  /** The states of `x` with only those secrecy tags that flow there. */
  ghost function OnlyFlows(m: Module, rules: InferenceRules, x: States): States
    requires InBounds(m, rules)
  {
    map v | v in x ::
      if x[v].Bottom? then Bottom
      else Tags((set tag | tag in x[v].secrecy && FlowsTo(m, rules, x, tag, v)), x[v].integrity)
  }

  lemma OnlyFlowsIsThinned(m: Module, rules: InferenceRules, x: States)
    requires InBounds(m, rules)
    ensures StatesThinned(x, OnlyFlows(m, rules, x))
  {
  }

  /** A tag that an operation produces from flows has itself a flow. */
  lemma ProducedTagFlows(m: Module, rules: InferenceRules, x: States, o: OpId, i: nat, tag: TagId)
    requires InBounds(m, rules) && IsSolution(m, rules, x) && HasResult(m, o, i)
    requires HasSecrecy(TransferState(m, rules, OnlyFlows(m, rules, x), o, i), tag)
    ensures FlowsTo(m, rules, x, tag, OperationResult(o, i))
  {
    var y, v := OnlyFlows(m, rules, x), OperationResult(o, i);
    OnlyFlowsIsThinned(m, rules, x);
    TransferThinned(m, rules, x, y, o, i, tag);
    TransferFlow(m, rules, y, o, i, tag);
    hide FlowAt, OnlyFlows, TransferState, FlowsTo;
    assert Get(x, v) == TransferState(m, rules, x, o, i);
    var s := FlowAt(m, rules, x, o, i, tag);
    if s.added {
      FlowStarts(m, rules, x, tag, v);
    } else {
      var j :| j in s.inputs && HasSecrecy(InputStates(m, y, o)[j], tag);
      var u := m.operations[o].inputs[j];
      OnlyFlowsFlow(m, rules, x, u, tag);
      assert Passes(m, rules, x, tag, u, v);
      FlowContinues(m, rules, x, tag, u, v);
    }
  }

  lemma OnlyFlowsFlow(m: Module, rules: InferenceRules, x: States, v: Value, tag: TagId)
    requires InBounds(m, rules) && HasSecrecy(Get(OnlyFlows(m, rules, x), v), tag)
    ensures FlowsTo(m, rules, x, tag, v)
  {
  }

  lemma OnlyFlowsIsPostSolution(m: Module, rules: InferenceRules, x: States)
    requires InBounds(m, rules) && IsSolution(m, rules, x)
    ensures IsPostSolution(m, rules, OnlyFlows(m, rules, x))
  {
    var y := OnlyFlows(m, rules, x);
    OnlyFlowsIsThinned(m, rules, x);
    forall o, i: nat | HasResult(m, o, i)
      ensures TransferState(m, rules, y, o, i).Leq(Get(y, OperationResult(o, i)))
    {
      OnlyFlowsAt(m, rules, x, o, i);
    }
    forall v | IsEntry(m, v)
      ensures INITIAL.Leq(Get(y, v))
    {
      assert IsThinned(Get(x, v), Get(y, v));
    }
  }

  lemma OnlyFlowsAt(m: Module, rules: InferenceRules, x: States, o: OpId, i: nat)
    requires InBounds(m, rules) && IsSolution(m, rules, x) && HasResult(m, o, i)
    ensures TransferState(m, rules, OnlyFlows(m, rules, x), o, i).Leq(Get(OnlyFlows(m, rules, x), OperationResult(o, i)))
  {
    var y, v := OnlyFlows(m, rules, x), OperationResult(o, i);
    OnlyFlowsIsThinned(m, rules, x);
    TransferThinned(m, rules, x, y, o, i, 0);
    assert Get(x, v) == TransferState(m, rules, x, o, i);
    var produced := TransferState(m, rules, y, o, i);
    forall tag | HasSecrecy(produced, tag)
      ensures HasSecrecy(Get(y, v), tag)
    {
      ProducedTagFlows(m, rules, x, o, i, tag);
      assert HasSecrecy(Get(x, v), tag);
    }
    assert IsThinned(Get(x, v), Get(y, v));
    if produced.Tags? {
      assert forall tag :: tag in produced.secrecy ==> HasSecrecy(produced, tag);
    }
  }

  /**
   Secrecy is flow: in the least solution, a tag is in the state of a value
   exactly when a finite flow leads there.
   */
  lemma SecrecyIsFlow(m: Module, rules: InferenceRules, x: States, v: Value, tag: TagId)
    requires InBounds(m, rules) && IsLeastSolution(m, rules, x)
    ensures HasSecrecy(Get(x, v), tag) <==> FlowsTo(m, rules, x, tag, v)
  {
    if FlowsTo(m, rules, x, tag, v) {
      var path :| IsFlow(m, rules, x, tag, path) && path[|path| - 1] == v;
      FlowCarriesTag(m, rules, x, tag, path);
    }
    if HasSecrecy(Get(x, v), tag) {
      OnlyFlowsIsPostSolution(m, rules, x);
      var y := OnlyFlows(m, rules, x);
      assert x[v].Leq(Get(y, v));
      OnlyFlowsFlow(m, rules, x, v, tag);
    }
  }
}
