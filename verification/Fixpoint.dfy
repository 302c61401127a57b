/**
 The worklist iteration.  The element popped next is arbitrary, so what is
 proved here holds for every order in which the worklist can be processed.
 */
module Fixpoint {
  import opened Checks
  import opened IfcTags
  import opened TaintRules
  import opened IrModule
  import opened Transfer
  import opened FixpointBudget

  /** The states after some results of `o` have been pushed. */
  function PushSome(m: Module, x: States, o: OpId, outs: seq<Tags>, done: set<Value>): States
    requires o in m.operations && |outs| == m.operations[o].outputs && done <= ResultsOf(m, o)
  {
    x + map v | v in done :: Get(x, v).Join(outs[v.index])
  }

  /** What an iteration has used up so far. */
  ghost predicate Spent(m: Module, tags: set<TagId>, x: States, w: set<OpId>, x': States, w': set<OpId>) {
    |w'| + Budget(m, tags, x', AllResults(m)) <= |w| + Budget(m, tags, x, AllResults(m))
  }

  ghost predicate Counted(m: Module, tags: set<TagId>, x: States, writes: map<Value, nat>) {
    writes.Keys == AllResults(m) && forall v :: v in writes ==> writes[v] + Remaining(tags, x, v) <= 2 * |tags| + 2
  }

  /** Joins one output into its result, and enqueues its users if it is new or grew. */
  method PushOne(m: Module, g: Graph, target: Value, out: Tags, x0: States, w0: set<OpId>,
                 ghost tags: set<TagId>, ghost writes0: map<Value, nat>)
    returns (x: States, w: set<OpId>, ghost writes: map<Value, nat>)
    requires IsGraph(m, m.operations.Keys, g) && ValueNode(target) in g && target in AllResults(m)
    requires Within(out, tags) && StatesWithin(x0, tags) && Counted(m, tags, x0, writes0)
    ensures x == x0[target := Get(x0, target).Join(out)]
    ensures w == if target !in x0 || x[target] != x0[target] then w0 + Users(m, target) else w0
    ensures StatesWithin(x, tags) && Counted(m, tags, x, writes) && Spent(m, tags, x0, w0, x, w)
  {
    hide IsGraph, Users, Budget, Remaining, AllResults, Within;
    x, w, writes := x0, w0, writes0;
    var before := Get(x, target);
    var after := JoinTags(before, out);
    if target !in x || after != before {
      WritePays(m, tags, x, target, out);
      WriteSpends(tags, x, target, out);
      OnlyOneChanges(tags, x, target, after);
      x := x[target := after];
      writes := writes[target := writes[target] + 1];
      var users := GetUses(m, g, target);
      UnionSize(w, users);
      w := w + users;
    }
  }

  /** What has been done after some of the results have been pushed. */
  ghost predicate IsPushed(m: Module, o: OpId, outs: seq<Tags>, done: set<Value>,
                           x0: States, w0: set<OpId>, x: States, w: set<OpId>)
    requires o in m.operations && |outs| == m.operations[o].outputs
  {
    done <= ResultsOf(m, o) && x == PushSome(m, x0, o, outs, done) &&
    w == w0 + UsersOf(m, Written(m, x0, o, outs) * done)
  }

  lemma PushSomeElsewhere(m: Module, x: States, o: OpId, outs: seq<Tags>, done: set<Value>, v: Value)
    requires o in m.operations && |outs| == m.operations[o].outputs && done <= ResultsOf(m, o) && v !in done
    ensures Get(PushSome(m, x, o, outs, done), v) == Get(x, v) && (v in PushSome(m, x, o, outs, done) <==> v in x)
  {
  }

  lemma PushSomeGrows(m: Module, x: States, o: OpId, outs: seq<Tags>, done: set<Value>, v: Value)
    requires o in m.operations && |outs| == m.operations[o].outputs && done <= ResultsOf(m, o)
    requires v in ResultsOf(m, o) && v !in done
    ensures PushSome(m, x, o, outs, done + {v}) == PushSome(m, x, o, outs, done)[v := Get(x, v).Join(outs[v.index])]
  {
  }

  lemma WrittenWhenItGrows(m: Module, x: States, o: OpId, outs: seq<Tags>, v: Value)
    requires o in m.operations && |outs| == m.operations[o].outputs && v in ResultsOf(m, o)
    ensures v in Written(m, x, o, outs) <==> v !in x || Get(x, v).Join(outs[v.index]) != x[v]
  {
  }

  lemma PushedOneMore(m: Module, o: OpId, outs: seq<Tags>, done: set<Value>,
                      x0: States, w0: set<OpId>, x: States, w: set<OpId>, target: Value)
    requires o in m.operations && |outs| == m.operations[o].outputs
    requires IsPushed(m, o, outs, done, x0, w0, x, w) && target in ResultsOf(m, o) && target !in done
    ensures
      var x' := x[target := Get(x, target).Join(outs[target.index])];
      var w' := if target !in x || x'[target] != x[target] then w + Users(m, target) else w;
      IsPushed(m, o, outs, done + {target}, x0, w0, x', w')
  {
    PushSomeElsewhere(m, x0, o, outs, done, target);
    PushSomeGrows(m, x0, o, outs, done, target);
    WrittenWhenItGrows(m, x0, o, outs, target);
    hide Users, PushSome, Written, UsersOf, ResultsOf;
    var written := Written(m, x0, o, outs);
    if target in written {
      assert written * (done + {target}) == written * done + {target};
      UsersOneMore(m, written * done, target);
    } else {
      assert written * (done + {target}) == written * done;
    }
  }

  /** Joins the outputs of an operation into its results and enqueues the users of those that grew. */
  method PushResults(m: Module, g: Graph, o: OpId, outs: seq<Tags>, x0: States, w0: set<OpId>,
                     ghost tags: set<TagId>, ghost writes0: map<Value, nat>)
    returns (x: States, w: set<OpId>, ghost writes: map<Value, nat>)
    requires IsGraph(m, m.operations.Keys, g) && o in m.operations && |outs| == m.operations[o].outputs
    requires AllWithin(outs, tags) && StatesWithin(x0, tags) && Counted(m, tags, x0, writes0)
    ensures x == Push(m, x0, o, outs)
    ensures w == w0 + UsersOf(m, Written(m, x0, o, outs))
    ensures StatesWithin(x, tags) && Counted(m, tags, x, writes) && Spent(m, tags, x0, w0, x, w)
  {
    hide IsGraph, Users, Budget, AllResults, Within, StatesWithin, Counted, IsPushed, Push, UsersOf, Written;
    x, w, writes := x0, w0, writes0;
    ghost var done: set<Value> := {};
    var left := GetResults(m, g, o);
    NothingPushed(m, o, outs, x0, w0);
    while left != {}
      invariant forall i: nat, v :: (i, v) in left <==> v in ResultsOf(m, o) - done && v.index == i
      invariant done <= ResultsOf(m, o) && IsPushed(m, o, outs, done, x0, w0, x, w)
      invariant StatesWithin(x, tags) && Counted(m, tags, x, writes) && Spent(m, tags, x0, w0, x, w)
      decreases |left|
    {
      var edge :| edge in left;
      var i, target := edge.0, edge.1;
      assert edge == (i, target);
      left := left - {edge};
      ResultIsNode(m, g, o, target);
      PushedOneMore(m, o, outs, done, x0, w0, x, w, target);
      x, w, writes := PushOne(m, g, target, outs[i], x, w, tags, writes);
      done := done + {target};
    }
    assert done == ResultsOf(m, o) by {
      forall v | v in ResultsOf(m, o)
        ensures v in done
      {
        assert (v.index, v) !in left;
      }
    }
    AllPushed(m, o, outs, x0, w0, x, w);
  }

  lemma NothingPushed(m: Module, o: OpId, outs: seq<Tags>, x: States, w: set<OpId>)
    requires o in m.operations && |outs| == m.operations[o].outputs
    ensures IsPushed(m, o, outs, {}, x, w, x, w)
  {
  }

  lemma AllPushed(m: Module, o: OpId, outs: seq<Tags>, x0: States, w0: set<OpId>, x: States, w: set<OpId>)
    requires o in m.operations && |outs| == m.operations[o].outputs
    requires IsPushed(m, o, outs, ResultsOf(m, o), x0, w0, x, w)
    ensures x == Push(m, x0, o, outs) && w == w0 + UsersOf(m, Written(m, x0, o, outs))
  {
  }

  lemma ResultIsNode(m: Module, g: Graph, o: OpId, v: Value)
    requires IsGraph(m, m.operations.Keys, g) && o in m.operations && v in ResultsOf(m, o)
    ensures ValueNode(v) in g && v in AllResults(m)
  {
  }

  lemma UsersOneMore(m: Module, vs: set<Value>, v: Value)
    ensures UsersOf(m, vs + {v}) == UsersOf(m, vs) + Users(m, v)
  {
  }

  lemma OnlyOneChanges(tags: set<TagId>, x: States, target: Value, t: Tags)
    ensures forall v :: v != target ==> Remaining(tags, x[target := t], v) == Remaining(tags, x, v)
  {
  }

  /** The entry values among the visited nodes. */
  ghost predicate IsSeeded(seen: set<Node>, v: Value) {
    ValueNode(v) in seen && !v.OperationResult?
  }

  /** The operations that the visited nodes have put on the worklist. */
  ghost predicate IsEnqueued(m: Module, seen: set<Node>, o: OpId) {
    o in m.operations &&
    ((OperationNode(o) in seen && m.operations[o].inputs == []) ||
     exists v :: v in m.operations[o].inputs && IsSeeded(seen, v))
  }

  lemma EnqueuedOneMore(m: Module, seen: set<Node>, node: Node, o: OpId)
    ensures IsEnqueued(m, seen + {node}, o) <==>
      IsEnqueued(m, seen, o) ||
      (node == OperationNode(o) && o in m.operations && m.operations[o].inputs == []) ||
      (node.ValueNode? && !node.value.OperationResult? && o in Users(m, node.value))
  {
  }

  /** What the visited nodes have contributed. */
  ghost predicate IsSeededBy(m: Module, seen: set<Node>, x: States, w: set<OpId>) {
    (forall v :: v in x <==> IsSeeded(seen, v)) &&
    (forall v :: v in x ==> x[v] == INITIAL) &&
    (forall o :: o in w <==> IsEnqueued(m, seen, o))
  }

  method SeedNode(m: Module, g: Graph, node: Node, x0: States, w0: set<OpId>, ghost seen: set<Node>)
    returns (x: States, w: set<OpId>)
    requires IsGraph(m, m.operations.Keys, g) && node in g && node !in seen && IsSeededBy(m, seen, x0, w0)
    ensures IsSeededBy(m, seen + {node}, x, w)
  {
    hide IsGraph, IsEnqueued, Users;
    x, w := x0, w0;
    forall o
      ensures IsEnqueued(m, seen + {node}, o) <==>
        IsEnqueued(m, seen, o) ||
        (node == OperationNode(o) && o in m.operations && m.operations[o].inputs == []) ||
        (node.ValueNode? && !node.value.OperationResult? && o in Users(m, node.value))
    {
      EnqueuedOneMore(m, seen, node, o);
    }
    match node {
      case ValueNode(v) =>
        if !v.OperationResult? {
          // A node is visited once, so an entry value cannot be seeded twice.
          assert v !in x;
          x := x[v := INITIAL];
          var users := GetUses(m, g, v);
          w := w + users;
        }
      case OperationNode(o) =>
        NodeIsOperation(m, g, o);
        if m.operations[o].inputs == [] {
          w := w + {o};
        }
    }
  }

  /** Seeds the entry values and collects the operations to start from. */
  method Initialize(m: Module, g: Graph) returns (x: States, w: set<OpId>)
    requires IsGraph(m, m.operations.Keys, g)
    ensures Config(x, w) == InitialConfig(m)
  {
    hide IsGraph, IsEnqueued;
    x, w := map[], {};
    ghost var seen: set<Node> := {};
    var left := g.Keys;
    NobodyEnqueued(m);
    while left != {}
      invariant left + seen == g.Keys && left !! seen && IsSeededBy(m, seen, x, w)
      decreases |left|
    {
      var node :| node in left;
      x, w := SeedNode(m, g, node, x, w, seen);
      left, seen := left - {node}, seen + {node};
    }
    InitialIsReached(m, g, x, w);
  }

  lemma NobodyEnqueued(m: Module)
    ensures forall o :: !IsEnqueued(m, {}, o)
  {
  }

  lemma NodeIsOperation(m: Module, g: Graph, o: OpId)
    requires IsGraph(m, m.operations.Keys, g)
    ensures OperationNode(o) in g <==> o in m.operations
  {
  }

  lemma InitialIsReached(m: Module, g: Graph, x: States, w: set<OpId>)
    requires IsGraph(m, m.operations.Keys, g)
    requires IsSeededBy(m, g.Keys, x, w)
    ensures Config(x, w) == InitialConfig(m)
  {
  }

  lemma OutputsAreChecked(m: Module, rules: InferenceRules, x: States, o: OpId, ins: seq<Tags>, outs: seq<Tags>)
    requires InBounds(m, rules) && o in m.operations && ins == InputStates(m, x, o) && |outs| == m.operations[o].outputs
    requires forall i :: 0 <= i < |outs| ==>
      Passed(outs[i]) ==
        if i in rules.RulesFor(o) then CheckedRules(rules.RulesFor(o)[i], ins, DefaultState(ins)) else Passed(DefaultState(ins))
    ensures outs == Outputs(m, rules, x, o)
  {
    TransformerInBounds(rules.RulesFor(o), ins, m.operations[o].outputs);
    hide CheckedRules, ApplyRules, DefaultState;
  }

  /** Processes one operation that has been taken off the worklist. */
  method Process(m: Module, rules: InferenceRules, g: Graph, o: OpId, x0: States, w0: set<OpId>, ghost writes0: map<Value, nat>)
    returns (x: States, w: set<OpId>, ghost writes: map<Value, nat>)
    requires InBounds(m, rules) && IsGraph(m, m.operations.Keys, g) && o in m.operations && o !in w0
    requires StatesWithin(x0, NamedTags(m, rules)) && Counted(m, NamedTags(m, rules), x0, writes0)
    ensures Config(x, w) == Next(m, rules, Config(x0, w0 + {o}), o)
    ensures StatesWithin(x, NamedTags(m, rules)) && Counted(m, NamedTags(m, rules), x, writes)
    ensures Spent(m, NamedTags(m, rules), x0, w0, x, w)
  {
    hide IsGraph, StatesWithin, Counted, Spent, Push, Written, NamedTags, OutputState;
    OutputsStayWithin(m, rules, x0, o);
    var ins := InputStates(m, x0, o);
    var checked := ApplyOperationTransformer(rules.RulesFor(o), ins, m.operations[o].outputs);
    // The index checks of the interpreter cannot fail.
    TransformerInBounds(rules.RulesFor(o), ins, m.operations[o].outputs);
    var outs := checked.value;
    OutputsAreChecked(m, rules, x0, o, ins, outs);
    assert w0 + {o} - {o} == w0;
    x, w, writes := PushResults(m, g, o, outs, x0, w0, NamedTags(m, rules), writes0);
  }

  // ---------- Runs ----------

  /** `c` is reached from `start` by popping the operations in `pops` in this order. */
  ghost predicate IsRun(m: Module, rules: InferenceRules, start: Config, pops: seq<OpId>, c: Config)
    requires InBounds(m, rules)
    decreases |pops|
  {
    if pops == [] then c == start
    else
      var n := |pops| - 1;
      exists before :: IsRun(m, rules, start, pops[..n], before) && pops[n] in before.worklist && pops[n] in m.operations &&
        c == Next(m, rules, before, pops[n])
  }

  lemma NoPops(m: Module, rules: InferenceRules, start: Config)
    requires InBounds(m, rules)
    ensures IsRun(m, rules, start, [], start)
  {
  }

  lemma OneMorePop(m: Module, rules: InferenceRules, start: Config, pops: seq<OpId>, before: Config, o: OpId)
    requires InBounds(m, rules) && IsRun(m, rules, start, pops, before) && o in before.worklist && o in m.operations
    ensures IsRun(m, rules, start, pops + [o], Next(m, rules, before, o))
  {
  }

  /** The main loop: pops an arbitrary operation until none is left. */
  method Iterate(m: Module, rules: InferenceRules, g: Graph, x0: States, w0: set<OpId>, ghost writes0: map<Value, nat>)
    returns (x: States, ghost pops: seq<OpId>, ghost writes: map<Value, nat>)
    requires InBounds(m, rules) && IsGraph(m, m.operations.Keys, g) && IsSound(m, rules, Config(x0, w0))
    requires IsRestrictedTable(m, rules) ==> IsTight(m, rules, x0)
    requires StatesWithin(x0, NamedTags(m, rules)) && Counted(m, NamedTags(m, rules), x0, writes0)
    ensures IsRun(m, rules, Config(x0, w0), pops, Config(x, {}))
    ensures IsSound(m, rules, Config(x, {}))
    ensures IsRestrictedTable(m, rules) ==> IsTight(m, rules, x)
    ensures StatesWithin(x, NamedTags(m, rules)) && Counted(m, NamedTags(m, rules), x, writes)
    ensures |pops| <= |w0| + Budget(m, NamedTags(m, rules), x0, AllResults(m))
  {
    hide IsRun, IsGraph, IsSound, IsTight, StatesWithin, Counted, Budget, Next, InBounds, NamedTags, IsRestrictedTable, AllResults;
    var w := w0;
    x, pops, writes := x0, [], writes0;
    NoPops(m, rules, Config(x0, w0));
    ghost var tags := NamedTags(m, rules);
    while w != {}
      invariant IsSound(m, rules, Config(x, w))
      invariant IsRestrictedTable(m, rules) ==> IsTight(m, rules, x)
      invariant StatesWithin(x, tags) && Counted(m, tags, x, writes)
      invariant IsRun(m, rules, Config(x0, w0), pops, Config(x, w))
      invariant |pops| + |w| + Budget(m, tags, x, AllResults(m)) <= |w0| + Budget(m, tags, x0, AllResults(m))
      decreases |w| + Budget(m, tags, x, AllResults(m))
    {
      var o :| o in w;
      SoundWorklist(m, rules, Config(x, w), o);
      NextIsSound(m, rules, Config(x, w), o);
      if IsRestrictedTable(m, rules) {
        NextStatesAreTight(m, rules, Config(x, w), o);
      }
      OneMorePop(m, rules, Config(x0, w0), pops, Config(x, w), o);
      assert w - {o} + {o} == w;
      x, w, writes := Process(m, rules, g, o, x, w - {o}, writes);
      pops := pops + [o];
    }
  }

  /**
   The fixpoint of a module, reached by popping operations until none is left.
   - For every rule table the result is above everything the operations
     produce from it, and exactly the reachable values have a state.
   - With restricted rules it is the least solution of the transfer equations.
   - Every state stays within the named tags, every result is written at most
     `2 * |tags| + 2` times, and the number of pops is bounded accordingly.
   */
  method ComputeFixpoint(m: Module, rules: InferenceRules)
    returns (x: States, ghost pops: seq<OpId>, ghost writes: map<Value, nat>)
    requires IsWellFormed(m) && InBounds(m, rules)
    ensures IsRun(m, rules, InitialConfig(m), pops, Config(x, {}))
    ensures IsPostSolution(m, rules, x)
    ensures forall v :: v in x <==> v in Reachable(m)
    ensures IsRestrictedTable(m, rules) ==> IsLeastSolution(m, rules, x)
    ensures IsKnown(m, x) && StatesWithin(x, NamedTags(m, rules))
    ensures writes.Keys == AllResults(m) && forall v :: v in writes ==> writes[v] <= 2 * |NamedTags(m, rules)| + 2
    ensures |pops| <= |InitialConfig(m).worklist| + (2 * |NamedTags(m, rules)| + 2) * Uses(m, AllResults(m))
  {
    hide IsRun, IsWellFormed, IsGraph, IsSound, IsTight, StatesWithin, Counted, Budget, InBounds, NamedTags, IsRestrictedTable,
      IsPostSolution, IsLeastSolution, IsKnown, AllResults, Reachable, InitialStates;
    var g := ComputeAdjacencyList(m);
    var x0, w0 := Initialize(m, g);
    ghost var tags := NamedTags(m, rules);
    ghost var none := map v | v in AllResults(m) :: 0;
    InitialIsSound(m, rules);
    InitialIsTight(m, rules);
    NothingWritten(m, tags, none);
    InitialSize(m, tags);
    x, pops, writes := Iterate(m, rules, g, x0, w0, none);
    ExitIsPostSolution(m, rules, x);
    ExitCoversReachable(m, rules, x);
    SoundIsKnown(m, rules, Config(x, {}));
    if IsRestrictedTable(m, rules) {
      ExitIsLeastSolution(m, rules, x);
    }
    WritesAreBounded(m, tags, x, writes);
  }

  lemma NextStatesAreTight(m: Module, rules: InferenceRules, c: Config, o: OpId)
    requires InBounds(m, rules) && IsRestrictedTable(m, rules) && o in m.operations && IsTight(m, rules, c.states)
    ensures IsTight(m, rules, Next(m, rules, c, o).states)
  {
    NextIsTight(m, rules, c.states, o);
  }

  lemma SoundWorklist(m: Module, rules: InferenceRules, c: Config, o: OpId)
    requires InBounds(m, rules) && IsSound(m, rules, c) && o in c.worklist
    ensures o in m.operations
    ensures OutputRulesInBounds(rules.RulesFor(o), |m.operations[o].inputs|, m.operations[o].outputs)
  {
  }

  lemma SoundIsKnown(m: Module, rules: InferenceRules, c: Config)
    requires InBounds(m, rules) && IsSound(m, rules, c)
    ensures IsKnown(m, c.states)
  {
  }

  lemma OutputsStayWithin(m: Module, rules: InferenceRules, x: States, o: OpId)
    requires InBounds(m, rules) && o in m.operations && StatesWithin(x, NamedTags(m, rules))
    ensures AllWithin(Outputs(m, rules, x, o), NamedTags(m, rules))
  {
    forall i | 0 <= i < m.operations[o].outputs
      ensures Within(Outputs(m, rules, x, o)[i], NamedTags(m, rules))
    {
      TransferStaysWithin(m, rules, x, o, i);
    }
  }

  lemma NothingWritten(m: Module, tags: set<TagId>, writes: map<Value, nat>)
    requires writes.Keys == AllResults(m) && forall v :: v in writes ==> writes[v] == 0
    ensures Counted(m, tags, InitialStates(m), writes) && StatesWithin(InitialStates(m), tags)
  {
  }

  lemma WritesAreBounded(m: Module, tags: set<TagId>, x: States, writes: map<Value, nat>)
    requires Counted(m, tags, x, writes)
    ensures writes.Keys == AllResults(m) && forall v :: v in writes ==> writes[v] <= 2 * |tags| + 2
  {
  }

  lemma InitialSize(m: Module, tags: set<TagId>)
    ensures Budget(m, tags, InitialStates(m), AllResults(m)) == (2 * |tags| + 2) * Uses(m, AllResults(m))
  {
    InitialBudget(m, tags, InitialStates(m), AllResults(m));
  }

  // ---------- All runs ----------

  lemma {:induction false} RunIsSound(m: Module, rules: InferenceRules, pops: seq<OpId>, c: Config)
    requires InBounds(m, rules) && IsRun(m, rules, InitialConfig(m), pops, c)
    ensures IsSound(m, rules, c)
    ensures IsRestrictedTable(m, rules) ==> IsTight(m, rules, c.states)
  {
    hide IsSound, IsTight, Next, InitialConfig;
    if pops == [] {
      InitialIsSound(m, rules);
      InitialIsTight(m, rules);
      InitialConfigStates(m);
    } else {
      var n := |pops| - 1;
      var before :| IsRun(m, rules, InitialConfig(m), pops[..n], before) && pops[n] in before.worklist &&
        pops[n] in m.operations && c == Next(m, rules, before, pops[n]);
      RunIsSound(m, rules, pops[..n], before);
      NextIsSound(m, rules, before, pops[n]);
      if IsRestrictedTable(m, rules) {
        NextStatesAreTight(m, rules, before, pops[n]);
      }
    }
  }

  lemma InitialConfigStates(m: Module)
    ensures InitialConfig(m).states == InitialStates(m)
  {
  }

  /**
   With restricted rules, all complete runs end in the same map, whatever is
   popped when, and it is the least solution.
   */
  lemma AllRunsAgree(m: Module, rules: InferenceRules, pops: seq<OpId>, c: Config, pops': seq<OpId>, c': Config)
    requires InBounds(m, rules) && IsRestrictedTable(m, rules)
    requires IsRun(m, rules, InitialConfig(m), pops, c) && c.worklist == {}
    requires IsRun(m, rules, InitialConfig(m), pops', c') && c'.worklist == {}
    ensures c.states == c'.states && IsLeastSolution(m, rules, c.states)
  {
    hide IsSound, IsTight, IsLeastSolution, Reachable, IsRun, InitialConfig;
    RunIsSound(m, rules, pops, c);
    RunIsSound(m, rules, pops', c');
    assert c == Config(c.states, {}) && c' == Config(c'.states, {});
    ExitIsLeastSolution(m, rules, c.states);
    ExitIsLeastSolution(m, rules, c'.states);
    ExitCoversReachable(m, rules, c.states);
    ExitCoversReachable(m, rules, c'.states);
    LeastSolutionIsUnique(m, rules, c.states, c'.states);
  }
}
