/**
 The intermediate representation that is analysed, and the graph of values and
 operations that is built from it.  Operations are known by their identity:
 two of them may look the same.
 */
module IrModule {

  type OpId = nat

  datatype Value =
    | BlockArgument(block: nat, index: nat)
    | OperationResult(op: OpId, index: nat)
    | StoredValue(storage: string)
    | AnyValue

  /** Floats are opaque. */
  datatype Attribute = StringAttribute(text: string) | Int64Attribute(number: int) | FloatAttribute(bits: nat)

  datatype Operation = Operation(name: string, inputs: seq<Value>, outputs: nat, attributes: map<string, Attribute>)

  /** The blocks list the operations they own; every block has its results by name. */
  datatype Module = Module(blocks: seq<seq<OpId>>, operations: map<OpId, Operation>, results: seq<map<string, Value>>)

  predicate Owns(blocks: seq<seq<OpId>>, o: OpId) {
    exists b :: 0 <= b < |blocks| && o in blocks[b]
  }

  /** Every operation belongs to a block, and every block has a map of results. */
  ghost predicate IsWellFormed(m: Module) {
    (forall o :: o in m.operations <==> Owns(m.blocks, o)) && |m.results| == |m.blocks|
  }

  predicate HasNoRepeats(ops: seq<OpId>) {
    forall i, j :: 0 <= i < j < |ops| ==> ops[i] != ops[j]
  }

  /** Every operation is owned by one block, at one position. */
  predicate IsOwnedOnce(blocks: seq<seq<OpId>>) {
    (forall b :: 0 <= b < |blocks| ==> HasNoRepeats(blocks[b])) &&
    (forall a, b, o :: 0 <= a < b < |blocks| && o in blocks[a] ==> o !in blocks[b])
  }

  predicate HasResult(m: Module, o: OpId, i: nat) {
    o in m.operations && i < m.operations[o].outputs
  }

  /** The operations that use a value. */
  function Users(m: Module, v: Value): set<OpId> {
    set o | o in m.operations && v in m.operations[o].inputs
  }

  function ResultsOf(m: Module, o: OpId): set<Value>
    requires o in m.operations
  {
    set i | 0 <= i < m.operations[o].outputs :: OperationResult(o, i)
  }

  // ---------- The graph ----------

  datatype Node = ValueNode(value: Value) | OperationNode(op: OpId)

  type Graph = map<Node, set<(nat, Node)>>

  /** `n` is an operation in `done`, or an input or output of one. */
  ghost predicate IsNode(m: Module, done: set<OpId>, n: Node)
    requires done <= m.operations.Keys
  {
    match n
    case OperationNode(o) => o in done
    case ValueNode(v) => exists o :: o in done && (v in m.operations[o].inputs || v in ResultsOf(m, o))
  }

  /** Inputs lead to the operations that use them, operations to their results, each with its index. */
  ghost predicate IsEdge(m: Module, done: set<OpId>, source: Node, index: nat, target: Node)
    requires done <= m.operations.Keys
  {
    match (source, target)
    case (ValueNode(v), OperationNode(o)) =>
      o in done && index < |m.operations[o].inputs| && m.operations[o].inputs[index] == v
    case (OperationNode(o), ValueNode(v)) =>
      o in done && index < m.operations[o].outputs && v == OperationResult(o, index)
    case _ => false
  }

  ghost predicate IsGraph(m: Module, done: set<OpId>, g: Graph)
    requires done <= m.operations.Keys
  {
    (forall n :: n in g <==> IsNode(m, done, n)) &&
    (forall n, i: nat, t :: n in g ==> ((i, t) in g[n] <==> IsEdge(m, done, n, i, t)))
  }

  /** The out-edges of a node that may not have an entry yet. */
  function EdgesOf(g: Graph, n: Node): set<(nat, Node)> {
    if n in g then g[n] else {}
  }

  /** Adds a node without edges unless it is there. */
  function WithNode(g: Graph, n: Node): Graph {
    if n in g then g else g[n := {}]
  }

  function WithEdge(g: Graph, n: Node, index: nat, target: Node): Graph {
    g[n := EdgesOf(g, n) + {(index, target)}]
  }

  /** What has been added for an operation after its first `k` inputs. */
  ghost predicate HasInputs(m: Module, o: OpId, k: nat, before: Graph, g: Graph)
    requires o in m.operations && k <= |m.operations[o].inputs|
  {
    var ins := m.operations[o].inputs;
    (forall n :: n in g <==> n in before || n == OperationNode(o) || (n.ValueNode? && n.value in ins[..k])) &&
    (forall n, i: nat, t :: n in g ==>
      ((i, t) in g[n] <==>
        ((i, t) in EdgesOf(before, n) || (n.ValueNode? && t == OperationNode(o) && i < k && ins[i] == n.value))))
  }

  /** What has been added for an operation after its first `k` outputs. */
  ghost predicate HasOutputs(o: OpId, k: nat, before: Graph, g: Graph) {
    (forall n :: n in g <==> n in before || (n.ValueNode? && n.value.OperationResult? && n.value.op == o && n.value.index < k)) &&
    (forall n, i: nat, t :: n in g ==>
      ((i, t) in g[n] <==>
        ((i, t) in EdgesOf(before, n) || (n == OperationNode(o) && i < k && t == ValueNode(OperationResult(o, i))))))
  }

  lemma NodesGrow(m: Module, done: set<OpId>, o: OpId, before: Graph, middle: Graph, g: Graph, n: Node)
    requires o in m.operations && done <= m.operations.Keys && IsGraph(m, done, before)
    requires HasInputs(m, o, |m.operations[o].inputs|, before, middle)
    requires HasOutputs(o, m.operations[o].outputs, middle, g)
    ensures n in g <==> IsNode(m, done + {o}, n)
  {
  }

  lemma EdgesGrow(m: Module, done: set<OpId>, o: OpId, before: Graph, middle: Graph, g: Graph, n: Node, i: nat, t: Node)
    requires o in m.operations && done <= m.operations.Keys && IsGraph(m, done, before)
    requires HasInputs(m, o, |m.operations[o].inputs|, before, middle)
    requires HasOutputs(o, m.operations[o].outputs, middle, g)
    requires n in g
    ensures (i, t) in g[n] <==> IsEdge(m, done + {o}, n, i, t)
  {
    assert n in before <==> IsNode(m, done, n);
    if n !in before {
      assert !IsEdge(m, done, n, i, t);
    }
    assert (i, t) in EdgesOf(before, n) <==> IsEdge(m, done, n, i, t);
  }

  lemma GraphGrows(m: Module, done: set<OpId>, o: OpId, before: Graph, middle: Graph, g: Graph)
    requires o in m.operations && done <= m.operations.Keys && IsGraph(m, done, before)
    requires HasInputs(m, o, |m.operations[o].inputs|, before, middle)
    requires HasOutputs(o, m.operations[o].outputs, middle, g)
    ensures IsGraph(m, done + {o}, g)
  {
    hide HasInputs, HasOutputs, IsNode, IsEdge;
    forall n
      ensures n in g <==> IsNode(m, done + {o}, n)
    {
      NodesGrow(m, done, o, before, middle, g, n);
    }
    forall n, i: nat, t | n in g
      ensures (i, t) in g[n] <==> IsEdge(m, done + {o}, n, i, t)
    {
      EdgesGrow(m, done, o, before, middle, g, n, i, t);
    }
  }

  /** The visitor that grows the adjacency list while it traverses a module. */
  class AdjacencyListComputingVisitor {
    var adjacencyList: Graph

    constructor ()
      ensures adjacencyList == map[]
    {
      adjacencyList := map[];
    }

    method AddInputs(m: Module, o: OpId)
      requires o in m.operations
      modifies this
      ensures HasInputs(m, o, |m.operations[o].inputs|, old(adjacencyList), adjacencyList)
    {
      var ins := m.operations[o].inputs;
      adjacencyList := WithNode(adjacencyList, OperationNode(o));
      for k := 0 to |ins|
        invariant HasInputs(m, o, k, old(adjacencyList), adjacencyList)
      {
        assert ins[..k + 1] == ins[..k] + [ins[k]];
        adjacencyList := WithEdge(adjacencyList, ValueNode(ins[k]), k, OperationNode(o));
      }
      assert ins[..|ins|] == ins;
    }

    method AddOutputs(o: OpId, outputs: nat)
      requires OperationNode(o) in adjacencyList
      modifies this
      ensures HasOutputs(o, outputs, old(adjacencyList), adjacencyList)
    {
      for k := 0 to outputs
        invariant HasOutputs(o, k, old(adjacencyList), adjacencyList)
      {
        var output := ValueNode(OperationResult(o, k));
        adjacencyList := WithNode(adjacencyList, output);
        adjacencyList := WithEdge(adjacencyList, OperationNode(o), k, output);
      }
    }

    method PreVisit(m: Module, ghost done: set<OpId>, o: OpId)
      requires o in m.operations && done <= m.operations.Keys && IsGraph(m, done, adjacencyList)
      modifies this
      ensures IsGraph(m, done + {o}, adjacencyList)
    {
      AddInputs(m, o);
      ghost var middle := adjacencyList;
      AddOutputs(o, m.operations[o].outputs);
      GraphGrows(m, done, o, old(adjacencyList), middle, adjacencyList);
    }

    method VisitBlock(m: Module, ghost done: set<OpId>, block: seq<OpId>)
      requires done <= m.operations.Keys && IsGraph(m, done, adjacencyList)
      requires forall o :: o in block ==> o in m.operations
      modifies this
      ensures IsGraph(m, done + Elements(block), adjacencyList)
    {
      hide IsGraph;
      assert done + Elements(block[..0]) == done;
      for k := 0 to |block|
        invariant done + Elements(block[..k]) <= m.operations.Keys
        invariant IsGraph(m, done + Elements(block[..k]), adjacencyList)
      {
        PreVisit(m, done + Elements(block[..k]), block[k]);
        assert block[..k + 1] == block[..k] + [block[k]];
        assert done + Elements(block[..k + 1]) == done + Elements(block[..k]) + {block[k]};
      }
      assert block[..|block|] == block;
    }

    /** Visits the operations of all blocks in order. */
    method VisitModule(m: Module)
      requires IsWellFormed(m) && adjacencyList == map[]
      modifies this
      ensures IsGraph(m, m.operations.Keys, adjacencyList)
    {
      hide IsGraph;
      ghost var done := {};
      EmptyGraph(m);
      for b := 0 to |m.blocks|
        invariant done <= m.operations.Keys && IsGraph(m, done, adjacencyList)
        invariant forall o :: o in done <==> Owns(m.blocks[..b], o)
      {
        forall o | o in m.blocks[b]
          ensures o in m.operations
        {
          assert Owns(m.blocks, o);
        }
        VisitBlock(m, done, m.blocks[b]);
        done := done + Elements(m.blocks[b]);
        forall o
          ensures Owns(m.blocks[..b + 1], o) <==> Owns(m.blocks[..b], o) || o in m.blocks[b]
        {
          OwnsOneMore(m.blocks, b, o);
        }
      }
      assert m.blocks[..|m.blocks|] == m.blocks;
      assert done == m.operations.Keys;
    }
  }

  function Elements(s: seq<OpId>): set<OpId> {
    set o | o in s
  }

  method ComputeAdjacencyList(m: Module) returns (g: Graph)
    requires IsWellFormed(m)
    ensures IsGraph(m, m.operations.Keys, g)
  {
    var visitor := new AdjacencyListComputingVisitor();
    visitor.VisitModule(m);
    g := visitor.adjacencyList;
  }

  lemma EmptyGraph(m: Module)
    ensures IsGraph(m, {}, map[])
  {
  }

  lemma OwnsOneMore(blocks: seq<seq<OpId>>, b: nat, o: OpId)
    requires b < |blocks|
    ensures Owns(blocks[..b + 1], o) <==> Owns(blocks[..b], o) || o in blocks[b]
  {
  }

  // ---------- Lookups ----------

  /**
   The uses of a value.  The value must be in the graph, and every edge out of
   it leads to an operation, so neither check of the lookup can fail.
   */
  method GetUses(m: Module, g: Graph, v: Value) returns (users: set<OpId>)
    requires IsGraph(m, m.operations.Keys, g) && ValueNode(v) in g
    ensures forall e :: e in g[ValueNode(v)] ==> e.1.OperationNode?
    ensures users == Users(m, v)
  {
    forall e | e in g[ValueNode(v)]
      ensures e.1.OperationNode?
    {
      assert IsEdge(m, m.operations.Keys, ValueNode(v), e.0, e.1);
    }
    users := set e | e in g[ValueNode(v)] :: e.1.op;
    forall o
      ensures o in users <==> o in Users(m, v)
    {
      if o in users {
        var e :| e in g[ValueNode(v)] && e.1.op == o;
        assert IsEdge(m, m.operations.Keys, ValueNode(v), e.0, e.1);
      }
      if o in Users(m, v) {
        var i :| 0 <= i < |m.operations[o].inputs| && m.operations[o].inputs[i] == v;
        assert IsEdge(m, m.operations.Keys, ValueNode(v), i, OperationNode(o));
        assert (i, OperationNode(o)) in g[ValueNode(v)];
      }
    }
  }

  /** The results of an operation, as pairs of index and value. */
  method GetResults(m: Module, g: Graph, o: OpId) returns (results: set<(nat, Value)>)
    requires IsGraph(m, m.operations.Keys, g) && o in m.operations
    ensures OperationNode(o) in g
    ensures forall i: nat, v :: (i, v) in results <==> i < m.operations[o].outputs && v == OperationResult(o, i)
  {
    assert IsNode(m, m.operations.Keys, OperationNode(o));
    var edges := g[OperationNode(o)];
    forall e | e in edges
      ensures e.1.ValueNode?
    {
      assert IsEdge(m, m.operations.Keys, OperationNode(o), e.0, e.1);
    }
    results := set e | e in edges :: (e.0, e.1.value);
    forall i: nat, v
      ensures (i, v) in results <==> i < m.operations[o].outputs && v == OperationResult(o, i)
    {
      assert (i, ValueNode(v)) in edges <==> IsEdge(m, m.operations.Keys, OperationNode(o), i, ValueNode(v));
      if (i, v) in results {
        var e :| e in edges && (e.0, e.1.value) == (i, v);
        assert e == (i, ValueNode(v));
      }
    }
  }
}
