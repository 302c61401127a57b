/**
 The generic worklist iteration over a graph: states of nodes are transformed
 by nodes and edges and combined at targets, until nothing changes.
 */
module Worklist {
  import opened Inference

  /** A graph with abstract semantics; `nodes` is a finite set that edges do not leave. */
  datatype Analysis<!Node(==,!new), !Edge(==,!new), !State(==,!new)> = Analysis(
    nodes: set<Node>,
    entries: set<Node>,
    outEdges: Node -> set<Edge>,
    target: Edge -> Node,
    initial: Node -> State,
    nodeTransformer: (Node, State) -> State,
    edgeTransformer: (Edge, State) -> State,
    combine: (State, State) -> State)
  {
    ghost predicate IsGraph() {
      entries <= nodes && forall n, e :: n in nodes && e in outEdges(n) ==> target(e) in nodes
    }

    /** The order that belongs to a join. */
    predicate Leq(a: State, b: State) {
      combine(a, b) == b
    }

    ghost predicate CombinesByJoin() {
      (forall a :: combine(a, a) == a) &&
      (forall a, b :: combine(a, b) == combine(b, a)) &&
      (forall a, b, c :: combine(combine(a, b), c) == combine(a, combine(b, c)))
    }

    /** What flows along an edge out of a node in state `s`. */
    function Flow(n: Node, e: Edge, s: State): State {
      edgeTransformer(e, nodeTransformer(n, s))
    }

    ghost predicate IsMonotone() {
      forall n, e, a, b :: Leq(a, b) ==> Leq(Flow(n, e, a), Flow(n, e, b))
    }
  }

  /** States can only grow finitely often. */
  ghost predicate IsHeight<Node(!new), Edge(!new), State(!new)>(a: Analysis<Node, Edge, State>, height: State -> nat) {
    forall s, t :: a.combine(s, t) != t ==> height(a.combine(s, t)) < height(t)
  }

  // ---------- The order of a join ----------

  lemma LeqIsTransitive<Node(!new), Edge(!new), State(!new)>(a: Analysis<Node, Edge, State>, r: State, s: State, t: State)
    requires a.CombinesByJoin() && a.Leq(r, s) && a.Leq(s, t)
    ensures a.Leq(r, t)
  {
  }

  lemma CombineIsUpperBound<Node(!new), Edge(!new), State(!new)>(a: Analysis<Node, Edge, State>, s: State, t: State)
    requires a.CombinesByJoin()
    ensures a.Leq(s, a.combine(s, t)) && a.Leq(t, a.combine(s, t))
  {
  }

  // ---------- What a fixpoint is ----------

  ghost function ReachSteps<Node(!new), Edge(!new), State(!new)>(a: Analysis<Node, Edge, State>): iset<Step<Node>> {
    iset s: Step<Node> | IsReachStep(a, s)
  }

  /** Entry nodes are reachable, and so are the targets of edges out of reachable nodes. */
  ghost predicate IsReachStep<Node(!new), Edge(!new), State(!new)>(a: Analysis<Node, Edge, State>, s: Step<Node>) {
    (s.body == [] && s.head in a.entries) ||
    (|s.body| == 1 && exists e :: e in a.outEdges(s.body[0]) && a.target(e) == s.head)
  }

  ghost function Reachable<Node(!new), Edge(!new), State(!new)>(a: Analysis<Node, Edge, State>): iset<Node> {
    LeastModel(ReachSteps(a))
  }

  type States<Node, State> = map<Node, State>

  /** The state at the target of every edge is above what flows along it. */
  ghost predicate IsSettled<Node(!new), Edge(!new), State(!new)>(a: Analysis<Node, Edge, State>, x: States<Node, State>, n: Node, edges: set<Edge>, s: State) {
    forall e :: e in edges ==> a.target(e) in x && a.Leq(a.Flow(n, e, s), x[a.target(e)])
  }

  ghost predicate IsFixpoint<Node(!new), Edge(!new), State(!new)>(a: Analysis<Node, Edge, State>, x: States<Node, State>) {
    (forall n :: n in a.entries ==> n in x) &&
    (forall n :: n in x ==> a.Leq(a.initial(n), x[n])) &&
    (forall n :: n in x ==> IsSettled(a, x, n, a.outEdges(n), x[n]))
  }

  ghost predicate IsBelow<Node(!new), Edge(!new), State(!new)>(a: Analysis<Node, Edge, State>, x: States<Node, State>, y: States<Node, State>) {
    forall n :: n in x ==> n in y && a.Leq(x[n], y[n])
  }

  // ---------- What the iteration keeps ----------

  ghost predicate IsSound<Node(!new), Edge(!new), State(!new)>(a: Analysis<Node, Edge, State>, x: States<Node, State>, worklist: set<Node>) {
    (forall n :: n in a.entries ==> n in x) &&
    (forall n :: n in x ==> n in a.nodes && n in Reachable(a) && a.Leq(a.initial(n), x[n])) &&
    worklist <= x.Keys &&
    (forall n :: n in x && n !in worklist ==> IsSettled(a, x, n, a.outEdges(n), x[n]))
  }

  /** While the edges out of `n` are followed: `n` itself is settled for the edges that are done. */
  ghost predicate IsHalfway<Node(!new), Edge(!new), State(!new)>(a: Analysis<Node, Edge, State>, x: States<Node, State>, worklist: set<Node>,
                                                      n: Node, s: State, done: set<Edge>) {
    n in x && IsSound(a, x, worklist + {n}) && worklist <= x.Keys &&
    IsSettled(a, x, n, done, s) && (n !in worklist ==> x[n] == s)
  }

  ghost predicate IsTight<Node(!new), Edge(!new), State(!new)>(a: Analysis<Node, Edge, State>, x: States<Node, State>) {
    forall y :: IsFixpoint(a, y) ==> IsBelow(a, x, y)
  }

  lemma EntryIsReachable<Node(!new), Edge(!new), State(!new)>(a: Analysis<Node, Edge, State>, n: Node)
    requires n in a.entries
    ensures n in Reachable(a)
  {
    var s: Step<Node> := Step(n, []);
    assert IsReachStep(a, s);
    Infer(ReachSteps(a), s);
  }

  lemma TargetIsReachable<Node(!new), Edge(!new), State(!new)>(a: Analysis<Node, Edge, State>, n: Node, e: Edge)
    requires n in Reachable(a) && e in a.outEdges(n)
    ensures a.target(e) in Reachable(a)
  {
    var s: Step<Node> := Step(a.target(e), [n]);
    assert IsReachStep(a, s);
    Infer(ReachSteps(a), s);
  }

  /** The state of the target of an edge before and after following it. */
  function Before<Node(!new), Edge(!new), State(!new)>(a: Analysis<Node, Edge, State>, x: States<Node, State>, t: Node): State {
    if t in x then x[t] else a.initial(t)
  }

  function After<Node(!new), Edge(!new), State(!new)>(a: Analysis<Node, Edge, State>, x: States<Node, State>, n: Node, e: Edge, s: State): State {
    a.combine(a.Flow(n, e, s), Before(a, x, a.target(e)))
  }

  /** States only grow. */
  lemma SettledStays<Node(!new), Edge(!new), State(!new)>(a: Analysis<Node, Edge, State>, x: States<Node, State>, t: Node, new_: State,
                                        n: Node, edges: set<Edge>, s: State)
    requires a.CombinesByJoin() && IsSettled(a, x, n, edges, s) && (t in x ==> a.Leq(x[t], new_))
    ensures IsSettled(a, x[t := new_], n, edges, s)
  {
  }

  lemma FollowIsSound<Node(!new), Edge(!new), State(!new)>(a: Analysis<Node, Edge, State>, x: States<Node, State>, worklist: set<Node>,
                                               n: Node, s: State, done: set<Edge>, e: Edge)
    requires a.IsGraph() && a.CombinesByJoin() && IsHalfway(a, x, worklist, n, s, done) && e in a.outEdges(n)
    ensures IsHalfway(a, x[a.target(e) := After(a, x, n, e, s)], worklist + {a.target(e)}, n, s, done + {e})
  {
    var t, after := a.target(e), After(a, x, n, e, s);
    var y := x[t := after];
    CombineIsUpperBound(a, a.Flow(n, e, s), Before(a, x, t));
    TargetIsReachable(a, n, e);
    hide Reachable;
    assert a.Leq(a.initial(t), after) by {
      if t in x {
        LeqIsTransitive(a, a.initial(t), x[t], after);
      }
    }
    forall u | u in y && u !in worklist + {t} + {n}
      ensures IsSettled(a, y, u, a.outEdges(u), y[u])
    {
      SettledStays(a, x, t, after, u, a.outEdges(u), x[u]);
    }
    SettledStays(a, x, t, after, n, done, s);
    assert worklist + {t} + {n} == worklist + {n} + {t};
  }

  /** An edge that changes nothing is settled already. */
  lemma IdleIsSound<Node(!new), Edge(!new), State(!new)>(a: Analysis<Node, Edge, State>, x: States<Node, State>, worklist: set<Node>,
                                             n: Node, s: State, done: set<Edge>, e: Edge)
    requires a.CombinesByJoin() && IsHalfway(a, x, worklist, n, s, done) && e in a.outEdges(n)
    requires a.target(e) in x && After(a, x, n, e, s) == x[a.target(e)]
    ensures IsHalfway(a, x, worklist, n, s, done + {e})
  {
  }

  /** With monotone transformers the states stay below every fixpoint. */
  lemma FollowIsTight<Node(!new), Edge(!new), State(!new)>(a: Analysis<Node, Edge, State>, x: States<Node, State>, n: Node, s: State, e: Edge)
    requires a.CombinesByJoin() && a.IsMonotone() && IsTight(a, x) && n in x && e in a.outEdges(n) && a.Leq(s, x[n])
    ensures IsTight(a, x[a.target(e) := After(a, x, n, e, s)])
  {
  }

  // ---------- At exit ----------

  /** The final states are a fixpoint, and exactly the reachable nodes have one. */
  lemma ExitIsFixpoint<Node(!new), Edge(!new), State(!new)>(a: Analysis<Node, Edge, State>, x: States<Node, State>)
    requires IsSound(a, x, {})
    ensures IsFixpoint(a, x)
    ensures forall n :: n in x <==> n in Reachable(a)
  {
    var visited := iset n: Node | n in x;
    forall s | s in ReachSteps(a) && AllIn(s.body, visited)
      ensures s.head in visited
    {
      if s.body != [] {
        assert s.body[0] in visited;
        assert IsSettled(a, x, s.body[0], a.outEdges(s.body[0]), x[s.body[0]]);
      }
    }
    LeastModelIsLeast(ReachSteps(a), visited);
  }

  // ---------- Termination ----------

  /** How often the state of a node can still change. */
  ghost function Weight<Node(!new), Edge(!new), State(!new)>(a: Analysis<Node, Edge, State>, height: State -> nat, x: States<Node, State>, n: Node): nat {
    if n in x then height(x[n]) else height(a.initial(n)) + 1
  }

  ghost function Total<Node(!new), Edge(!new), State(!new)>(a: Analysis<Node, Edge, State>, height: State -> nat, x: States<Node, State>, nodes: set<Node>): nat {
    if nodes == {} then 0
    else
      var n :| n in nodes;
      Weight(a, height, x, n) + Total(a, height, x, nodes - {n})
  }

  lemma {:induction false} TotalWithout<Node(!new), Edge(!new), State(!new)>(a: Analysis<Node, Edge, State>, height: State -> nat, x: States<Node, State>, nodes: set<Node>, n: Node)
    requires n in nodes
    ensures Total(a, height, x, nodes) == Weight(a, height, x, n) + Total(a, height, x, nodes - {n})
    decreases nodes
  {
    hide Weight;
    var m :| m in nodes && Total(a, height, x, nodes) == Weight(a, height, x, m) + Total(a, height, x, nodes - {m});
    if m != n {
      TotalWithout(a, height, x, nodes - {m}, n);
      TotalWithout(a, height, x, nodes - {n}, m);
      assert nodes - {m} - {n} == nodes - {n} - {m};
    }
  }

  lemma {:induction false} TotalElsewhere<Node(!new), Edge(!new), State(!new)>(a: Analysis<Node, Edge, State>, height: State -> nat, x: States<Node, State>, t: Node, s: State, nodes: set<Node>)
    requires t !in nodes
    ensures Total(a, height, x[t := s], nodes) == Total(a, height, x, nodes)
    decreases nodes
  {
    if nodes != {} {
      var n :| n in nodes;
      TotalWithout(a, height, x, nodes, n);
      TotalWithout(a, height, x[t := s], nodes, n);
      TotalElsewhere(a, height, x, t, s, nodes - {n});
    }
  }

  /** A first visit or a change uses up some of the total. */
  lemma FollowSpends<Node(!new), Edge(!new), State(!new)>(a: Analysis<Node, Edge, State>, height: State -> nat, x: States<Node, State>, n: Node, s: State, e: Edge)
    requires IsHeight(a, height) && a.target(e) in a.nodes
    requires a.target(e) !in x || After(a, x, n, e, s) != x[a.target(e)]
    ensures Total(a, height, x[a.target(e) := After(a, x, n, e, s)], a.nodes) < Total(a, height, x, a.nodes)
  {
    var t, after := a.target(e), After(a, x, n, e, s);
    TotalWithout(a, height, x, a.nodes, t);
    TotalWithout(a, height, x[t := after], a.nodes, t);
    TotalElsewhere(a, height, x, t, after, a.nodes - {t});
  }

  // ---------- The iteration ----------

  /** Everything the loops maintain about the states. */
  ghost predicate IsGood<Node(!new), Edge(!new), State(!new)>(a: Analysis<Node, Edge, State>, x: States<Node, State>) {
    a.IsMonotone() ==> IsTight(a, x)
  }

  /** Gives every entry node its initial state. */
  method Seed<Node(==,!new), Edge(==,!new), State(==,!new)>(a: Analysis<Node, Edge, State>)
    returns (x: States<Node, State>, worklist: set<Node>)
    requires a.IsGraph() && a.CombinesByJoin()
    ensures IsSound(a, x, worklist) && IsTight(a, x)
  {
    hide Analysis.CombinesByJoin, IsSound, IsTight, Analysis.IsGraph;
    x, worklist := map[], {};
    var left := a.entries;
    while left != {}
      invariant left + worklist == a.entries
      invariant forall n :: n in x <==> n in worklist
      invariant forall n :: n in x ==> x[n] == a.initial(n)
      decreases left
    {
      var entry :| entry in left;
      worklist := worklist + {entry};
      x := x[entry := a.initial(entry)];
      left := left - {entry};
    }
    SeedIsSound(a, x, worklist);
  }

  lemma SeedIsSound<Node(!new), Edge(!new), State(!new)>(a: Analysis<Node, Edge, State>, x: States<Node, State>, worklist: set<Node>)
    requires a.IsGraph() && a.CombinesByJoin() && x.Keys == a.entries && worklist == a.entries
    requires forall n :: n in x ==> x[n] == a.initial(n)
    ensures IsSound(a, x, worklist) && IsTight(a, x)
  {
    forall n | n in x
      ensures n in Reachable(a) && a.Leq(a.initial(n), x[n])
    {
      EntryIsReachable(a, n);
      SameIsLeq(a, x[n]);
    }
    hide Analysis.CombinesByJoin, Reachable, IsSettled, Analysis.Leq;
  }

  /** Follows the edges out of one node, in an arbitrary order. */
  method FollowEdges<Node(==,!new), Edge(==,!new), State(==,!new)>(
      a: Analysis<Node, Edge, State>, x0: States<Node, State>, worklist0: set<Node>, node: Node, ghost height: State -> nat)
    returns (x: States<Node, State>, worklist: set<Node>)
    requires a.IsGraph() && a.CombinesByJoin() && IsHeight(a, height)
    requires node in x0 && node !in worklist0 && IsSound(a, x0, worklist0 + {node}) && IsGood(a, x0)
    ensures IsSound(a, x, worklist) && IsGood(a, x)
    ensures
      Total(a, height, x, a.nodes) < Total(a, height, x0, a.nodes) ||
      (Total(a, height, x, a.nodes) == Total(a, height, x0, a.nodes) && worklist == worklist0)
  {
    x, worklist := x0, worklist0;
    var state := x0[node];
    var out := a.nodeTransformer(node, state);
    var left := a.outEdges(node);
    ghost var done: set<Edge> := {};
    NothingFollowed(a, x, worklist, node);
    SameIsLeq(a, state);
    hide Analysis.CombinesByJoin, Analysis.IsGraph, IsHeight, Total, IsTight, IsHalfway, IsSound, Analysis.Leq, Analysis.IsMonotone;
    while left != {}
      invariant left + done == a.outEdges(node)
      invariant IsHalfway(a, x, worklist, node, state, done) && IsGood(a, x) && node in x && a.Leq(state, x[node])
      invariant
        Total(a, height, x, a.nodes) < Total(a, height, x0, a.nodes) ||
        (Total(a, height, x, a.nodes) == Total(a, height, x0, a.nodes) && worklist == worklist0)
      decreases left
    {
      var edge :| edge in left;
      var edgeOut := a.edgeTransformer(edge, out);
      var target := a.target(edge);
      var firstVisit := target !in x;
      var old_ := if firstVisit then a.initial(target) else x[target];
      var new_ := a.combine(edgeOut, old_);
      assert new_ == After(a, x, node, edge, state);
      HalfwayTarget(a, x, worklist, node, state, done, edge);
      if firstVisit || new_ != old_ {
        FollowIsSound(a, x, worklist, node, state, done, edge);
        FollowSpends(a, height, x, node, state, edge);
        if a.IsMonotone() {
          FollowIsTight(a, x, node, state, edge);
        }
        FollowKeepsLeq(a, x, node, state, edge);
        x := x[target := new_];
        worklist := worklist + {target};
      } else {
        IdleIsSound(a, x, worklist, node, state, done, edge);
      }
      left, done := left - {edge}, done + {edge};
    }
    AllFollowed(a, x, worklist, node, state);
  }

  lemma NothingFollowed<Node(!new), Edge(!new), State(!new)>(a: Analysis<Node, Edge, State>, x: States<Node, State>, worklist: set<Node>, n: Node)
    requires n in x && n !in worklist && IsSound(a, x, worklist + {n})
    ensures IsHalfway(a, x, worklist, n, x[n], {})
  {
  }

  lemma SameIsLeq<Node(!new), Edge(!new), State(!new)>(a: Analysis<Node, Edge, State>, s: State)
    requires a.CombinesByJoin()
    ensures a.Leq(s, s)
  {
  }

  lemma HalfwayTarget<Node(!new), Edge(!new), State(!new)>(a: Analysis<Node, Edge, State>, x: States<Node, State>, worklist: set<Node>,
                      n: Node, s: State, done: set<Edge>, e: Edge)
    requires a.IsGraph() && IsHalfway(a, x, worklist, n, s, done) && e in a.outEdges(n)
    ensures a.target(e) in a.nodes
  {
  }

  lemma FollowKeepsLeq<Node(!new), Edge(!new), State(!new)>(a: Analysis<Node, Edge, State>, x: States<Node, State>, n: Node, s: State, e: Edge)
    requires a.CombinesByJoin() && n in x && a.Leq(s, x[n])
    ensures a.Leq(s, x[a.target(e) := After(a, x, n, e, s)][n])
  {
  }

  lemma AllFollowed<Node(!new), Edge(!new), State(!new)>(a: Analysis<Node, Edge, State>, x: States<Node, State>, worklist: set<Node>, n: Node, s: State)
    requires IsHalfway(a, x, worklist, n, s, a.outEdges(n))
    ensures IsSound(a, x, worklist)
  {
  }

  /**
   The fixpoint of an analysis whose states combine by a join and can only grow
   finitely often: exactly the reachable nodes have a state, what flows along
   an edge is below the state at its target, and with monotone transformers
   the result is the least of all such maps.
   */
  method ComputeFixpoint<Node(==,!new), Edge(==,!new), State(==,!new)>(a: Analysis<Node, Edge, State>, ghost height: State -> nat)
    returns (x: States<Node, State>)
    requires a.IsGraph() && a.CombinesByJoin() && IsHeight(a, height)
    ensures IsFixpoint(a, x)
    ensures forall n :: n in x <==> n in Reachable(a)
    ensures a.IsMonotone() ==> forall y :: IsFixpoint(a, y) ==> IsBelow(a, x, y)
  {
    var worklist;
    x, worklist := Seed(a);
    hide Analysis.CombinesByJoin, IsHeight, Total, Reachable, IsFixpoint, IsBelow, Analysis.IsMonotone, Analysis.IsGraph;
    while worklist != {}
      invariant IsSound(a, x, worklist) && IsGood(a, x)
      decreases Total(a, height, x, a.nodes), |worklist|
    {
      var node :| node in worklist;
      // A node on the worklist always has a state.
      assert node in x;
      assert worklist - {node} + {node} == worklist;
      x, worklist := FollowEdges(a, x, worklist - {node}, node, height);
    }
    ExitIsFixpoint(a, x);
  }
}
