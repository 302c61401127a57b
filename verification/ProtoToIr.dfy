/**
 Reading a module back from a protocol buffer, in three phases: construct all
 objects, fill in their contents, and hand them over to their owners.
 */
module ProtoToIr {
  import opened Checks
  import opened Seqs
  import opened IrModule
  import opened IrToProto

  datatype Pointer = Null | To(op: OpId)

  datatype BlockBuilder = BlockBuilder(block: nat, operations: seq<OpId>, isBuilt: bool)

  /** The registered operators with their numbers of results. */
  type Operators = map<string, nat>

  /** An operator that is not registered yet is registered with one result. */
  function Register(context: Operators, names: seq<string>): Operators {
    if names == [] then context
    else
      var rest := Register(context, names[..|names| - 1]);
      var name := names[|names| - 1];
      if name in rest then rest else rest[name := 1]
  }

  // ---------- The operations of a proto ----------

  function Flatten(blocks: seq<BlockWithId>): seq<OperationWithId> {
    if blocks == [] then [] else Flatten(blocks[..|blocks| - 1]) + blocks[|blocks| - 1].operations
  }

  function IdSet(s: seq<OperationWithId>): set<nat> {
    set k | 0 <= k < |s| :: s[k].id
  }

  predicate HasDistinctIds(s: seq<OperationWithId>) {
    forall i, j :: 0 <= i < j < |s| ==> s[i].id != s[j].id
  }

  function BlockIdSet(blocks: seq<BlockWithId>): set<nat> {
    set k | 0 <= k < |blocks| :: blocks[k].id
  }

  predicate HasDistinctBlockIds(blocks: seq<BlockWithId>) {
    forall i, j :: 0 <= i < j < |blocks| ==> blocks[i].id != blocks[j].id
  }

  lemma OneMoreId(s: seq<OperationWithId>, w: OperationWithId)
    ensures IdSet(s + [w]) == IdSet(s) + {w.id}
    ensures HasDistinctIds(s + [w]) <==> HasDistinctIds(s) && w.id !in IdSet(s)
  {
    var more := s + [w];
    assert more[|s|] == w;
    forall k | 0 <= k < |s|
      ensures more[k] == s[k]
    {
    }
    forall id | id in IdSet(more)
      ensures id in IdSet(s) + {w.id}
    {
      var k :| 0 <= k < |more| && more[k].id == id;
      assert k < |s| ==> s[k].id == id;
    }
    forall id | id in IdSet(s)
      ensures id in IdSet(more)
    {
      var k :| 0 <= k < |s| && s[k].id == id;
      assert more[k].id == id;
    }
    if HasDistinctIds(more) {
      forall i, j | 0 <= i < j < |s|
        ensures s[i].id != s[j].id
      {
        assert more[i].id != more[j].id;
      }
    }
  }

  lemma {:induction false} PrefixIsDistinct(s: seq<OperationWithId>, n: nat)
    requires n <= |s|
    ensures HasDistinctIds(s) ==> HasDistinctIds(s[..n])
    ensures IdSet(s[..n]) <= IdSet(s)
  {
  }

  lemma OneMoreBlock(blocks: seq<BlockWithId>, b: nat)
    requires b < |blocks|
    ensures Flatten(blocks[..b + 1]) == Flatten(blocks[..b]) + blocks[b].operations
    ensures BlockIdSet(blocks[..b + 1]) == BlockIdSet(blocks[..b]) + {blocks[b].id}
  {
    assert blocks[..b + 1][..b] == blocks[..b];
    forall id | id in BlockIdSet(blocks[..b + 1])
      ensures id in BlockIdSet(blocks[..b]) + {blocks[b].id}
    {
      var k :| 0 <= k < b + 1 && blocks[..b + 1][k].id == id;
      assert k < b ==> blocks[..b][k].id == id;
    }
    forall id | id in BlockIdSet(blocks[..b])
      ensures id in BlockIdSet(blocks[..b + 1])
    {
      var k :| 0 <= k < b && blocks[..b][k].id == id;
      assert blocks[..b + 1][k].id == id;
    }
    assert blocks[..b + 1][b].id == blocks[b].id;
  }

  /** The operations of a prefix of the blocks are a prefix of all operations. */
  lemma {:induction false} FlattenPrefix(blocks: seq<BlockWithId>, b: nat)
    requires b <= |blocks|
    ensures Flatten(blocks[..b]) <= Flatten(blocks)
    decreases |blocks| - b
  {
    if b == |blocks| {
      assert blocks[..b] == blocks;
    } else {
      OneMoreBlock(blocks, b);
      FlattenPrefix(blocks, b + 1);
    }
  }

  // ---------- Which protos can be read ----------

  predicate IsConstructible(context: Operators, op: ProtoOperation) {
    op.operatorName in context && forall i :: 0 <= i < |op.inputs| ==> !op.inputs[i].NoValue?
  }

  predicate AreConstructible(context: Operators, s: seq<OperationWithId>) {
    forall k :: 0 <= k < |s| ==> IsConstructible(context, s[k].operation)
  }

  predicate Resolves(v: ProtoValue, opIds: set<nat>, blockIds: set<nat>) {
    match v
    case NoValue => false
    case AnyValueProto => true
    case OperationResultProto(id, _) => id in opIds
    case BlockArgumentProto(id, _) => id in blockIds
  }

  predicate InputsResolve(ins: seq<ProtoValue>, opIds: set<nat>, blockIds: set<nat>) {
    forall i :: 0 <= i < |ins| ==> Resolves(ins[i], opIds, blockIds)
  }

  predicate IsFillable(op: ProtoOperation, opIds: set<nat>, blockIds: set<nat>) {
    InputsResolve(op.inputs, opIds, blockIds) && forall name :: name in op.attributes ==> !op.attributes[name].NoPayload?
  }

  predicate AreFillable(s: seq<OperationWithId>, opIds: set<nat>, blockIds: set<nat>) {
    forall k :: 0 <= k < |s| ==> IsFillable(s[k].operation, opIds, blockIds)
  }

  /** No result value is missing. */
  predicate ResultsAreGiven(block: BlockWithId) {
    forall name :: name in block.results ==> !block.results[name].NoValue?
  }

  /** Outputs of blocks are not written, so a result has no output to belong to. */
  predicate IsReadable(context: Operators, blocks: seq<BlockWithId>) {
    var all := Flatten(blocks);
    (forall b :: 0 <= b < |blocks| ==> blocks[b].results == map[]) &&
    AreConstructible(context, all) && AreFillable(all, IdSet(all), BlockIdSet(blocks)) &&
    HasDistinctIds(all) && HasDistinctBlockIds(blocks)
  }

  // ---------- What they are read as ----------

  type Resolution = map<nat, OpId>

  /** Blocks are known by their position. */
  predicate IsPosition(blocks: seq<BlockWithId>, table: map<nat, nat>) {
    table.Keys == BlockIdSet(blocks) && forall b :: 0 <= b < |blocks| ==> table[blocks[b].id] == b
  }

  function DecodeValue(v: ProtoValue, opOf: Resolution, blockOf: map<nat, nat>): Value {
    match v
    case NoValue => AnyValue
    case AnyValueProto => AnyValue
    case OperationResultProto(id, i) => if id in opOf then OperationResult(opOf[id], i) else AnyValue
    case BlockArgumentProto(id, i) => if id in blockOf then BlockArgument(blockOf[id], i) else AnyValue
  }

  function DecodeInputs(ins: seq<ProtoValue>, opOf: Resolution, blockOf: map<nat, nat>): seq<Value> {
    seq(|ins|, i requires 0 <= i < |ins| => DecodeValue(ins[i], opOf, blockOf))
  }

  function DecodeAttribute(a: AttributePayload): Attribute {
    match a
    case FloatPayload(bits) => FloatAttribute(bits)
    case Int64Payload(number) => Int64Attribute(number)
    case StringPayload(text) => StringAttribute(text)
    case NoPayload => StringAttribute("")
  }

  function DecodeAttributes(attributes: map<string, AttributePayload>): map<string, Attribute> {
    map name | name in attributes :: DecodeAttribute(attributes[name])
  }

  /** An operation as it is constructed, before it has contents. */
  function Bare(context: Operators, op: ProtoOperation): Operation
    requires op.operatorName in context
  {
    Operation(op.operatorName, [], context[op.operatorName], map[])
  }

  function Full(context: Operators, op: ProtoOperation, opOf: Resolution, blockOf: map<nat, nat>): Operation
    requires op.operatorName in context
  {
    Operation(op.operatorName, DecodeInputs(op.inputs, opOf, blockOf), context[op.operatorName], DecodeAttributes(op.attributes))
  }

  function OpsOf(s: seq<OperationWithId>, opOf: Resolution): seq<OpId>
    requires forall k :: 0 <= k < |s| ==> s[k].id in opOf
  {
    seq(|s|, k requires 0 <= k < |s| => opOf[s[k].id])
  }

  // ---------- The phases ----------

  ghost predicate IsInjective(opOf: Resolution) {
    forall a, b :: a in opOf && b in opOf && opOf[a] == opOf[b] ==> a == b
  }

  /** Every id has its own object and every object has an id. */
  ghost predicate IsAllocation(s: seq<OperationWithId>, opOf: Resolution, heap: map<OpId, Operation>) {
    opOf.Keys == IdSet(s) && IsInjective(opOf) &&
    (forall id :: id in opOf ==> opOf[id] in heap) &&
    (forall o :: o in heap ==> exists id :: id in opOf && opOf[id] == o)
  }

  /** The pointer table agrees with the allocation. */
  ghost predicate PointsTo(operations: map<nat, Pointer>, opOf: Resolution) {
    operations.Keys == opOf.Keys && forall id :: id in opOf ==> operations[id] == To(opOf[id])
  }

  /** If ids are distinct, the first `n` operations have their contents and the others are bare. */
  ghost predicate IsFilled(context: Operators, s: seq<OperationWithId>, n: nat, opOf: Resolution, blockOf: map<nat, nat>, heap: map<OpId, Operation>)
    requires AreConstructible(context, s) && IsAllocation(s, opOf, heap)
  {
    HasDistinctIds(s) ==> forall k :: 0 <= k < |s| ==>
      s[k].id in opOf &&
      heap[opOf[s[k].id]] ==
        if k < n then Full(context, s[k].operation, opOf, blockOf) else Bare(context, s[k].operation)
  }

  lemma AllocateOne(context: Operators, s: seq<OperationWithId>, w: OperationWithId, opOf: Resolution, heap: map<OpId, Operation>, o: OpId)
    requires AreConstructible(context, s) && IsConstructible(context, w.operation)
    requires IsAllocation(s, opOf, heap) && IsFilled(context, s, 0, opOf, map[], heap) && o !in heap
    ensures
      var opOf' := if w.id in opOf then opOf else opOf[w.id := o];
      var heap' := if w.id in opOf then heap else heap[o := Bare(context, w.operation)];
      AreConstructible(context, s + [w]) && IsAllocation(s + [w], opOf', heap') &&
      IsFilled(context, s + [w], 0, opOf', map[], heap')
  {
    OneMoreId(s, w);
    hide IdSet, HasDistinctIds, Bare;
    var opOf' := if w.id in opOf then opOf else opOf[w.id := o];
    var heap' := if w.id in opOf then heap else heap[o := Bare(context, w.operation)];
    forall o' | o' in heap'
      ensures exists id :: id in opOf' && opOf'[id] == o'
    {
      if o' in heap {
        var id :| id in opOf && opOf[id] == o';
        assert id in opOf' && opOf'[id] == o';
      } else {
        assert w.id in opOf' && opOf'[w.id] == o';
      }
    }
    assert IsInjective(opOf');
  }

  class ProtoToIR {
    const context: Operators
    /** The operation objects. */
    var heap: map<OpId, Operation>
    /** The owner of every operation that has not been handed over. */
    var operations: map<nat, Pointer>
    var blocks: map<nat, BlockBuilder>

    constructor (context: Operators)
      ensures this.context == context && heap == map[] && operations == map[] && blocks == map[]
    {
      this.context := context;
      heap, operations, blocks := map[], map[], map[];
    }

    /** Phase one, one block: constructs the operations at arbitrary new addresses. */
    method PreVisitBlock(ops: seq<OperationWithId>, ghost s: seq<OperationWithId>, ghost opOf0: Resolution)
      returns (ok: bool, ghost opOf: Resolution)
      requires AreConstructible(context, s) && IsAllocation(s, opOf0, heap) && IsFilled(context, s, 0, opOf0, map[], heap)
      requires PointsTo(operations, opOf0)
      modifies this`heap, this`operations
      ensures ok <==> AreConstructible(context, ops)
      ensures ok ==>
        AreConstructible(context, s + ops) && IsAllocation(s + ops, opOf, heap) &&
        IsFilled(context, s + ops, 0, opOf, map[], heap) && PointsTo(operations, opOf)
    {
      hide IsAllocation, IsFilled;
      opOf := opOf0;
      assert s + ops[..0] == s;
      for k := 0 to |ops|
        invariant AreConstructible(context, s + ops[..k])
        invariant forall j :: 0 <= j < k ==> IsConstructible(context, ops[j].operation)
        invariant IsAllocation(s + ops[..k], opOf, heap) && IsFilled(context, s + ops[..k], 0, opOf, map[], heap)
        invariant PointsTo(operations, opOf)
      {
        var w := ops[k];
        var checked := CheckOperation(w.operation);
        if !checked {
          return false, opOf;
        }
        ghost var unused := FreshNumber(heap.Keys);
        var o: OpId :| o !in heap;
        AllocateOne(context, s + ops[..k], w, opOf, heap, o);
        assert s + ops[..k + 1] == s + ops[..k] + [w];
        if w.id !in operations {
          heap := heap[o := Operation(w.operation.operatorName, [], context[w.operation.operatorName], map[])];
          operations := operations[w.id := To(o)];
          opOf := opOf[w.id := o];
        }
      }
      assert ops[..|ops|] == ops;
      return true, opOf;
    }

    /** The operator must be registered, and no value may be missing. */
    method CheckOperation(op: ProtoOperation) returns (ok: bool)
      ensures ok <==> IsConstructible(context, op)
    {
      if op.operatorName !in context {
        return false;
      }
      for i := 0 to |op.inputs|
        invariant forall j :: 0 <= j < i ==> !op.inputs[j].NoValue?
      {
        if op.inputs[i].NoValue? {
          return false;
        }
      }
      return true;
    }

    /** Visits the results in an arbitrary order. */
    method CheckResults(block: BlockWithId) returns (ok: bool)
      ensures ok <==> ResultsAreGiven(block)
    {
      var left := block.results.Keys;
      while left != {}
        invariant left <= block.results.Keys
        invariant forall name :: name in block.results.Keys - left ==> !block.results[name].NoValue?
        decreases left
      {
        var name :| name in left;
        if block.results[name].NoValue? {
          return false;
        }
        left := left - {name};
      }
      return true;
    }

    /** Phase one: a builder for every block and an object for every operation. */
    method PreVisit(proto: seq<BlockWithId>) returns (ok: bool, ghost opOf: Resolution)
      requires heap == map[] && operations == map[] && blocks == map[]
      modifies this
      ensures ok <==> AreConstructible(context, Flatten(proto)) && forall b :: 0 <= b < |proto| ==> ResultsAreGiven(proto[b])
      ensures ok ==>
        IsAllocation(Flatten(proto), opOf, heap) && IsFilled(context, Flatten(proto), 0, opOf, map[], heap) &&
        PointsTo(operations, opOf) && AreFresh(proto, blocks)
    {
      hide IsAllocation, IsFilled, AreConstructible, ResultsAreGiven, PointsTo, AreFresh, Flatten, BlockIdSet, Bare;
      opOf := map[];
      NothingToRead(context);
      assert proto[..0] == [];
      for b := 0 to |proto|
        invariant AreConstructible(context, Flatten(proto[..b]))
        invariant forall c :: 0 <= c < b ==> ResultsAreGiven(proto[c])
        invariant IsAllocation(Flatten(proto[..b]), opOf, heap)
        invariant IsFilled(context, Flatten(proto[..b]), 0, opOf, map[], heap)
        invariant PointsTo(operations, opOf) && AreFresh(proto[..b], blocks)
      {
        OneMoreBlock(proto, b);
        FreshOneMore(proto, b, blocks);
        if proto[b].id !in blocks {
          blocks := blocks[proto[b].id := BlockBuilder(b, [], false)];
        }
        ok, opOf := PreVisitBlock(proto[b].operations, Flatten(proto[..b]), opOf);
        if !ok {
          UnconstructibleStays(context, proto, b);
          return false, opOf;
        }
        var given := CheckResults(proto[b]);
        if !given {
          return false, opOf;
        }
      }
      assert proto[..|proto|] == proto;
      return true, opOf;
    }

    method ToValue(v: ProtoValue, ghost opOf: Resolution, ghost blockOf: map<nat, nat>) returns (r: Checked<Value>)
      requires PointsTo(operations, opOf) && AreBuilding(blocks, blockOf)
      ensures r.Passed? <==> Resolves(v, opOf.Keys, blockOf.Keys)
      ensures r.Passed? ==> r.value == DecodeValue(v, opOf, blockOf)
    {
      match v
      case NoValue =>
        return CheckFailed;
      case AnyValueProto =>
        return Passed(AnyValue);
      case OperationResultProto(id, i) =>
        if id !in operations {
          return CheckFailed;
        }
        return Passed(OperationResult(operations[id].op, i));
      case BlockArgumentProto(id, i) =>
        if id !in blocks || blocks[id].isBuilt {
          return CheckFailed;
        }
        return Passed(BlockArgument(blocks[id].block, i));
    }

    /** Adds the inputs of one operation to its object. */
    method FillInputs(o: OpId, ins: seq<ProtoValue>, ghost opOf: Resolution, ghost blockOf: map<nat, nat>) returns (ok: bool)
      requires o in heap && PointsTo(operations, opOf) && AreBuilding(blocks, blockOf)
      modifies this`heap
      ensures ok <==> InputsResolve(ins, opOf.Keys, blockOf.Keys)
      ensures heap.Keys == old(heap.Keys) && forall u :: u in heap && u != o ==> heap[u] == old(heap)[u]
      ensures ok ==> heap[o] == old(heap)[o].(inputs := old(heap)[o].inputs + DecodeInputs(ins, opOf, blockOf))
    {
      hide PointsTo, AreBuilding, Resolves, DecodeValue;
      for i := 0 to |ins|
        invariant InputsResolve(ins[..i], opOf.Keys, blockOf.Keys)
        invariant heap.Keys == old(heap.Keys) && forall u :: u in heap && u != o ==> heap[u] == old(heap)[u]
        invariant heap[o] == old(heap)[o].(inputs := old(heap)[o].inputs + DecodeInputs(ins[..i], opOf, blockOf))
      {
        var v := ToValue(ins[i], opOf, blockOf);
        if v.CheckFailed? {
          return false;
        }
        assert ins[..i + 1] == ins[..i] + [ins[i]];
        assert DecodeInputs(ins[..i + 1], opOf, blockOf) == DecodeInputs(ins[..i], opOf, blockOf) + [v.value];
        heap := heap[o := heap[o].(inputs := heap[o].inputs + [v.value])];
      }
      assert ins[..|ins|] == ins;
      return true;
    }

    /** Adds the inputs and attributes of one operation to its object. */
    method FillOperation(o: OpId, op: ProtoOperation, ghost opOf: Resolution, ghost blockOf: map<nat, nat>) returns (ok: bool)
      requires o in heap && PointsTo(operations, opOf) && AreBuilding(blocks, blockOf)
      modifies this`heap
      ensures ok <==> IsFillable(op, opOf.Keys, blockOf.Keys)
      ensures heap.Keys == old(heap.Keys) && forall u :: u in heap && u != o ==> heap[u] == old(heap)[u]
      ensures ok && old(heap)[o].inputs == [] && old(heap)[o].attributes == map[] ==>
        heap[o] == old(heap)[o].(inputs := DecodeInputs(op.inputs, opOf, blockOf), attributes := DecodeAttributes(op.attributes))
    {
      hide PointsTo, AreBuilding, InputsResolve, DecodeInputs, DecodeAttribute;
      ok := FillInputs(o, op.inputs, opOf, blockOf);
      if !ok {
        return false;
      }
      if name :| name in op.attributes && op.attributes[name].NoPayload? {
        return false;
      }
      heap := heap[o := heap[o].(attributes := DecodeAttributes(op.attributes) + heap[o].attributes)];
      return true;
    }

    /** Phase two, one block. */
    method FillBlock(ops: seq<OperationWithId>, ghost s: seq<OperationWithId>, ghost all: seq<OperationWithId>,
                     ghost opOf: Resolution, ghost blockOf: map<nat, nat>) returns (ok: bool)
      requires s + ops <= all && AreConstructible(context, all) && IsAllocation(all, opOf, heap)
      requires PointsTo(operations, opOf) && AreBuilding(blocks, blockOf) && IsFilled(context, all, |s|, opOf, blockOf, heap)
      modifies this`heap
      ensures ok <==> AreFillable(ops, opOf.Keys, blockOf.Keys)
      ensures ok ==> IsAllocation(all, opOf, heap) && IsFilled(context, all, |s + ops|, opOf, blockOf, heap)
    {
      hide IsFilled, IsFillable, IsAllocation, AreConstructible;
      for k := 0 to |ops|
        invariant IsAllocation(all, opOf, heap) && AreFillable(ops[..k], opOf.Keys, blockOf.Keys)
        invariant IsFilled(context, all, |s| + k, opOf, blockOf, heap)
      {
        var w := ops[k];
        assert (s + ops)[|s| + k] == w;
        assert all[|s| + k] == w;
        AllocatedId(all, opOf, heap, |s| + k);
        ghost var before := heap;
        ok := FillOperation(operations[w.id].op, w.operation, opOf, blockOf);
        if !ok {
          return false;
        }
        assert ops[..k + 1] == ops[..k] + [w];
        SameAllocation(all, opOf, before, heap);
        FillOne(context, all, |s| + k, opOf, blockOf, before, heap);
      }
      assert ops[..|ops|] == ops;
      return true;
    }

    /** The outputs of a block are never declared, so adding any result fails. */
    method AddResults(results: map<string, ProtoValue>, ghost opOf: Resolution, ghost blockOf: map<nat, nat>) returns (ok: bool)
      requires PointsTo(operations, opOf) && AreBuilding(blocks, blockOf)
      ensures ok <==> results == map[]
    {
      if name :| name in results {
        var v := ToValue(results[name], opOf, blockOf);
        return false;
      }
      return true;
    }

    /** Phase two: contents refer to objects of phase one, wherever they are. */
    method ToIR(proto: seq<BlockWithId>, ghost opOf: Resolution, ghost blockOf: map<nat, nat>) returns (ok: bool)
      requires AreConstructible(context, Flatten(proto)) && IsAllocation(Flatten(proto), opOf, heap)
      requires PointsTo(operations, opOf) && AreBuilding(blocks, blockOf)
      requires IsFilled(context, Flatten(proto), 0, opOf, blockOf, heap)
      modifies this`heap
      ensures ok <==>
        (forall b :: 0 <= b < |proto| ==> proto[b].results == map[]) && AreFillable(Flatten(proto), opOf.Keys, blockOf.Keys)
      ensures ok ==>
        IsAllocation(Flatten(proto), opOf, heap) &&
        IsFilled(context, Flatten(proto), |Flatten(proto)|, opOf, blockOf, heap)
    {
      ghost var all := Flatten(proto);
      hide IsFilled, IsAllocation, AreConstructible;
      for b := 0 to |proto|
        invariant IsAllocation(all, opOf, heap) && AreFillable(Flatten(proto[..b]), opOf.Keys, blockOf.Keys)
        invariant forall c :: 0 <= c < b ==> proto[c].results == map[]
        invariant IsFilled(context, all, |Flatten(proto[..b])|, opOf, blockOf, heap)
      {
        var added := AddResults(proto[b].results, opOf, blockOf);
        if !added {
          return false;
        }
        OneMoreBlock(proto, b);
        FlattenPrefix(proto, b + 1);
        ok := FillBlock(proto[b].operations, Flatten(proto[..b]), all, opOf, blockOf);
        FillableParts(Flatten(proto[..b]), proto[b].operations, all, opOf.Keys, blockOf.Keys);
        if !ok {
          return false;
        }
      }
      assert proto[..|proto|] == proto;
      return true;
    }

    /** Phase three, one block: moves the operations to the block.  A pointer can be moved once. */
    method PostVisitBlock(ops: seq<OperationWithId>, ghost s: seq<OperationWithId>, ghost opOf: Resolution)
      returns (ok: bool, moved: seq<OpId>)
      requires IsMoved(operations, s, opOf) && HasDistinctIds(s) && forall k :: 0 <= k < |ops| ==> ops[k].id in opOf
      modifies this`operations
      ensures ok <==> HasDistinctIds(s + ops)
      ensures ok ==> IsMoved(operations, s + ops, opOf) && moved == OpsOf(ops, opOf)
    {
      moved := [];
      assert s + ops[..0] == s;
      for k := 0 to |ops|
        invariant IsMoved(operations, s + ops[..k], opOf) && HasDistinctIds(s + ops[..k])
        invariant moved == OpsOf(ops[..k], opOf)
      {
        var w := ops[k];
        OneMoreId(s + ops[..k], w);
        hide IdSet, HasDistinctIds;
        assert s + ops[..k + 1] == s + ops[..k] + [w];
        var pointer := operations[w.id];
        operations := operations[w.id := Null];
        if pointer.Null? {
          assert (s + ops)[..|s| + k + 1] == s + ops[..k + 1];
          PrefixIsDistinct(s + ops, |s| + k + 1);
          return false, moved;
        }
        moved := moved + [pointer.op];
      }
      assert ops[..|ops|] == ops;
      return true, moved;
    }

    /** Phase three, one block: moves its operations to the builder and builds it. */
    method BuildBlock(proto: seq<BlockWithId>, b: nat, ghost opOf: Resolution, owned0: seq<seq<OpId>>)
      returns (ok: bool, owned: seq<seq<OpId>>)
      requires b < |proto| && opOf.Keys == IdSet(Flatten(proto)) && IsPosted(proto, b, opOf, operations, blocks, owned0)
      modifies this`operations, this`blocks
      ensures ok <==> HasDistinctIds(Flatten(proto[..b + 1])) && HasDistinctBlockIds(proto[..b + 1])
      ensures ok ==> IsPosted(proto, b + 1, opOf, operations, blocks, owned)
    {
      owned := owned0;
      OneMoreBlock(proto, b);
      BlockOfProto(proto, b);
      DistinctBlocks(proto, b);
      hide HasDistinctIds, HasDistinctBlockIds, BlockIdSet, Flatten, IdSet, AreOwned, IsMoved;
      var id := proto[b].id;
      if blocks[id].isBuilt {
        return false, owned;
      }
      IdsOfBlock(proto, b, opOf);
      var moved;
      ok, moved := PostVisitBlock(proto[b].operations, Flatten(proto[..b]), opOf);
      if !ok {
        return false, owned;
      }
      var builder := blocks[id].(operations := blocks[id].operations + moved, isBuilt := true);
      blocks := blocks[id := builder];
      OwnedOneMore(proto, b, opOf, owned, moved);
      owned := owned + [builder.operations];
    }

    /** Phase three: builds the blocks and puts them into the module, in order. */
    method PostVisit(proto: seq<BlockWithId>, ghost opOf: Resolution) returns (ok: bool, owned: seq<seq<OpId>>)
      requires PointsTo(operations, opOf) && opOf.Keys == IdSet(Flatten(proto)) && AreFresh(proto, blocks)
      modifies this`operations, this`blocks
      ensures ok <==> HasDistinctIds(Flatten(proto)) && HasDistinctBlockIds(proto)
      ensures ok ==>
        IsMoved(operations, Flatten(proto), opOf) && (forall id :: id in blocks ==> blocks[id].isBuilt) &&
        AreOwned(proto, opOf, owned)
    {
      owned := [];
      NothingPosted(proto, opOf, operations, blocks);
      hide IsPosted;
      for b := 0 to |proto|
        invariant IsPosted(proto, b, opOf, operations, blocks, owned)
      {
        FlattenPrefix(proto, b + 1);
        PrefixIsDistinct(Flatten(proto), |Flatten(proto[..b + 1])|);
        DistinctBlockPrefix(proto, b + 1);
        hide HasDistinctIds, HasDistinctBlockIds, Flatten, IdSet;
        ok, owned := BuildBlock(proto, b, opOf, owned);
        if !ok {
          return false, owned;
        }
      }
      AllPosted(proto, opOf, operations, blocks, owned);
      return true, owned;
    }
  }

  // ---------- Steps of the phases ----------

  /** One builder per block id, each at the position of its block if the ids are distinct. */
  ghost predicate AreFresh(proto: seq<BlockWithId>, blocks: map<nat, BlockBuilder>) {
    blocks.Keys == BlockIdSet(proto) &&
    (forall id :: id in blocks ==> !blocks[id].isBuilt && blocks[id].operations == []) &&
    (HasDistinctBlockIds(proto) ==> forall b :: 0 <= b < |proto| ==> proto[b].id in blocks && blocks[proto[b].id].block == b)
  }

  ghost predicate AreBuilding(blocks: map<nat, BlockBuilder>, blockOf: map<nat, nat>) {
    blocks.Keys == blockOf.Keys && forall id :: id in blocks ==> !blocks[id].isBuilt && blocks[id].block == blockOf[id]
  }

  /** The pointers of the given operations have been moved away, and no others. */
  ghost predicate IsMoved(operations: map<nat, Pointer>, s: seq<OperationWithId>, opOf: Resolution) {
    operations.Keys == opOf.Keys &&
    forall id :: id in opOf ==> operations[id] == if id in IdSet(s) then Null else To(opOf[id])
  }

  ghost predicate AreOwned(proto: seq<BlockWithId>, opOf: Resolution, owned: seq<seq<OpId>>) {
    |owned| == |proto| &&
    forall b :: 0 <= b < |proto| ==> IsOwned(proto[b].operations, opOf, owned[b])
  }

  ghost predicate IsOwned(ops: seq<OperationWithId>, opOf: Resolution, owned: seq<OpId>) {
    (forall k :: 0 <= k < |ops| ==> ops[k].id in opOf) && owned == OpsOf(ops, opOf)
  }

  lemma OwnedOneMore(proto: seq<BlockWithId>, b: nat, opOf: Resolution, owned: seq<seq<OpId>>, moved: seq<OpId>)
    requires b < |proto| && AreOwned(proto[..b], opOf, owned) && IsOwned(proto[b].operations, opOf, moved)
    ensures AreOwned(proto[..b + 1], opOf, owned + [moved])
  {
  }

  /** The first `b` blocks have been built and handed over with their operations. */
  ghost predicate IsPosted(proto: seq<BlockWithId>, b: nat, opOf: Resolution, operations: map<nat, Pointer>,
                           blocks: map<nat, BlockBuilder>, owned: seq<seq<OpId>>) {
    b <= |proto| && HasDistinctIds(Flatten(proto[..b])) && HasDistinctBlockIds(proto[..b]) &&
    IsMoved(operations, Flatten(proto[..b]), opOf) && AreOwned(proto[..b], opOf, owned) &&
    blocks.Keys == BlockIdSet(proto) &&
    forall id :: id in blocks ==>
      (blocks[id].isBuilt <==> id in BlockIdSet(proto[..b])) && (!blocks[id].isBuilt ==> blocks[id].operations == [])
  }

  lemma NothingPosted(proto: seq<BlockWithId>, opOf: Resolution, operations: map<nat, Pointer>, blocks: map<nat, BlockBuilder>)
    requires PointsTo(operations, opOf) && AreFresh(proto, blocks)
    ensures IsPosted(proto, 0, opOf, operations, blocks, [])
  {
  }

  lemma AllPosted(proto: seq<BlockWithId>, opOf: Resolution, operations: map<nat, Pointer>, blocks: map<nat, BlockBuilder>, owned: seq<seq<OpId>>)
    requires IsPosted(proto, |proto|, opOf, operations, blocks, owned)
    ensures HasDistinctIds(Flatten(proto)) && HasDistinctBlockIds(proto)
    ensures IsMoved(operations, Flatten(proto), opOf) && AreOwned(proto, opOf, owned)
    ensures forall id :: id in blocks ==> blocks[id].isBuilt
  {
    assert proto[..|proto|] == proto;
  }

  lemma DistinctBlockPrefix(proto: seq<BlockWithId>, b: nat)
    requires b <= |proto|
    ensures HasDistinctBlockIds(proto) ==> HasDistinctBlockIds(proto[..b])
  {
  }

  lemma BlockOfProto(proto: seq<BlockWithId>, b: nat)
    requires b < |proto|
    ensures proto[b].id in BlockIdSet(proto)
  {
  }

  lemma DistinctBlocks(proto: seq<BlockWithId>, b: nat)
    requires b < |proto| && HasDistinctBlockIds(proto[..b])
    ensures HasDistinctBlockIds(proto[..b + 1]) <==> proto[b].id !in BlockIdSet(proto[..b])
  {
  }

  lemma IdsOfBlock(proto: seq<BlockWithId>, b: nat, opOf: Resolution)
    requires b < |proto| && opOf.Keys == IdSet(Flatten(proto))
    ensures forall k :: 0 <= k < |proto[b].operations| ==> proto[b].operations[k].id in opOf
  {
    OneMoreBlock(proto, b);
    FlattenPrefix(proto, b + 1);
    var before := Flatten(proto[..b]);
    forall k | 0 <= k < |proto[b].operations|
      ensures proto[b].operations[k].id in opOf
    {
      assert Flatten(proto)[|before| + k] == proto[b].operations[k];
    }
  }

  lemma FreshOneMore(proto: seq<BlockWithId>, b: nat, blocks: map<nat, BlockBuilder>)
    requires b < |proto| && AreFresh(proto[..b], blocks)
    ensures
      var id := proto[b].id;
      AreFresh(proto[..b + 1], if id in blocks then blocks else blocks[id := BlockBuilder(b, [], false)])
  {
  }

  lemma NothingToRead(context: Operators)
    ensures Flatten([]) == [] && AreConstructible(context, []) && AreFresh([], map[])
    ensures IsAllocation([], map[], map[]) && IsFilled(context, [], 0, map[], map[], map[]) && PointsTo(map[], map[])
  {
  }

  lemma UnconstructibleStays(context: Operators, proto: seq<BlockWithId>, b: nat)
    requires b < |proto| && !AreConstructible(context, proto[b].operations)
    ensures !AreConstructible(context, Flatten(proto))
  {
    OneMoreBlock(proto, b);
    FlattenPrefix(proto, b + 1);
    var k :| 0 <= k < |proto[b].operations| && !IsConstructible(context, proto[b].operations[k].operation);
    assert Flatten(proto)[|Flatten(proto[..b])| + k] == proto[b].operations[k];
  }

  lemma FillableParts(s: seq<OperationWithId>, ops: seq<OperationWithId>, all: seq<OperationWithId>, opIds: set<nat>, blockIds: set<nat>)
    requires s + ops <= all && AreFillable(s, opIds, blockIds)
    ensures AreFillable(s + ops, opIds, blockIds) <==> AreFillable(ops, opIds, blockIds)
    ensures AreFillable(all, opIds, blockIds) ==> AreFillable(ops, opIds, blockIds)
  {
    hide IsFillable;
    forall k | 0 <= k < |ops|
      ensures (s + ops)[|s| + k] == ops[k] == all[|s| + k]
    {
    }
    if AreFillable(ops, opIds, blockIds) {
      forall k | 0 <= k < |s + ops|
        ensures IsFillable((s + ops)[k].operation, opIds, blockIds)
      {
        if k >= |s| {
          assert (s + ops)[k] == ops[k - |s|];
        }
      }
    }
    if AreFillable(s + ops, opIds, blockIds) || AreFillable(all, opIds, blockIds) {
      forall k | 0 <= k < |ops|
        ensures IsFillable(ops[k].operation, opIds, blockIds)
      {
        assert (s + ops)[|s| + k] == ops[k];
      }
    }
  }

  lemma AllocatedId(s: seq<OperationWithId>, opOf: Resolution, heap: map<OpId, Operation>, k: nat)
    requires IsAllocation(s, opOf, heap) && k < |s|
    ensures s[k].id in opOf && opOf[s[k].id] in heap
  {
  }

  lemma SameAllocation(s: seq<OperationWithId>, opOf: Resolution, heap: map<OpId, Operation>, heap': map<OpId, Operation>)
    requires IsAllocation(s, opOf, heap) && heap'.Keys == heap.Keys
    ensures IsAllocation(s, opOf, heap')
  {
  }

  /** Filling one operation leaves the others alone, because objects are not shared. */
  lemma FillOne(context: Operators, s: seq<OperationWithId>, n: nat, opOf: Resolution, blockOf: map<nat, nat>,
                heap: map<OpId, Operation>, heap': map<OpId, Operation>)
    requires n < |s| && AreConstructible(context, s) && IsAllocation(s, opOf, heap) && IsAllocation(s, opOf, heap')
    requires IsFilled(context, s, n, opOf, blockOf, heap) && s[n].id in opOf
    requires heap'.Keys == heap.Keys && forall u :: u in heap && u != opOf[s[n].id] ==> heap'[u] == heap[u]
    requires
      var (o, op) := (opOf[s[n].id], s[n].operation);
      heap[o].inputs == [] && heap[o].attributes == map[] ==>
        heap'[o] == heap[o].(inputs := DecodeInputs(op.inputs, opOf, blockOf), attributes := DecodeAttributes(op.attributes))
    ensures IsFilled(context, s, n + 1, opOf, blockOf, heap')
  {
    hide DecodeInputs, DecodeAttributes, IdSet;
    if HasDistinctIds(s) {
      forall k | 0 <= k < |s|
        ensures s[k].id in opOf
        ensures heap'[opOf[s[k].id]] ==
          if k < n + 1 then Full(context, s[k].operation, opOf, blockOf) else Bare(context, s[k].operation)
      {
        if k == n {
          assert heap[opOf[s[n].id]] == Bare(context, s[n].operation);
        } else {
          assert s[k].id != s[n].id;
          assert opOf[s[k].id] != opOf[s[n].id];
        }
      }
    }
  }

  // ---------- Conversion ----------

  /** `m` is what the proto says, with new objects for its ids. */
  ghost predicate IsDecoding(context: Operators, proto: seq<BlockWithId>, opOf: Resolution, blockOf: map<nat, nat>, m: Module) {
    var all := Flatten(proto);
    AreConstructible(context, all) && opOf.Keys == IdSet(all) && IsInjective(opOf) && IsPosition(proto, blockOf) &&
    AreOwned(proto, opOf, m.blocks) && m.results == seq(|proto|, _ => map[]) &&
    (forall k :: 0 <= k < |all| ==>
      all[k].id in opOf && opOf[all[k].id] in m.operations &&
      m.operations[opOf[all[k].id]] == Full(context, all[k].operation, opOf, blockOf)) &&
    (forall o :: o in m.operations ==> exists id :: id in opOf && opOf[id] == o)
  }

  ghost function BlockTable(blocks: map<nat, BlockBuilder>): map<nat, nat> {
    map id | id in blocks :: blocks[id].block
  }

  /** The converted module, and the objects that the ids became. */
  method Convert(context: Operators, operators: seq<string>, proto: seq<BlockWithId>)
    returns (r: Checked<Module>, ghost opOf: Resolution, ghost blockOf: map<nat, nat>)
    ensures r.Passed? <==> IsReadable(Register(context, operators), proto)
    ensures r.Passed? ==> IsDecoding(Register(context, operators), proto, opOf, blockOf, r.value)
  {
    hide AreConstructible, AreFillable, IsAllocation, IsFilled, HasDistinctIds, HasDistinctBlockIds, IsMoved, AreOwned;
    var registered := RegisterOperators(context, operators);
    var state := new ProtoToIR(registered);
    blockOf := map[];
    var ok;
    ok, opOf := state.PreVisit(proto);
    if !ok {
      return CheckFailed, opOf, blockOf;
    }
    blockOf := BlockTable(state.blocks);
    AllocationIds(Flatten(proto), opOf, state.heap);
    NothingFilled(registered, Flatten(proto), opOf, blockOf, state.heap);
    ok := state.ToIR(proto, opOf, blockOf);
    if !ok {
      return CheckFailed, opOf, blockOf;
    }
    ghost var builders := state.blocks;
    var owned;
    ok, owned := state.PostVisit(proto, opOf);
    if !ok {
      return CheckFailed, opOf, blockOf;
    }
    // Everything must have been handed over, and it has.
    MovedAll(state.operations, Flatten(proto), opOf);
    if id :| id in state.blocks && !state.blocks[id].isBuilt {
      return CheckFailed, opOf, blockOf;
    }
    if id :| id in state.operations && state.operations[id] != Null {
      return CheckFailed, opOf, blockOf;
    }
    DecodingIsDone(registered, proto, opOf, builders, state.heap, owned);
    return Passed(Module(owned, state.heap, seq(|proto|, _ => map[]))), opOf, blockOf;
  }

  method RegisterOperators(context: Operators, names: seq<string>) returns (r: Operators)
    ensures r == Register(context, names)
  {
    r := context;
    for k := 0 to |names|
      invariant r == Register(context, names[..k])
    {
      assert names[..k + 1][..k] == names[..k];
      if names[k] !in r {
        r := r[names[k] := 1];
      }
    }
    assert names[..|names|] == names;
  }

  lemma AllocationIds(s: seq<OperationWithId>, opOf: Resolution, heap: map<OpId, Operation>)
    requires IsAllocation(s, opOf, heap)
    ensures opOf.Keys == IdSet(s)
  {
  }

  lemma NothingFilled(context: Operators, s: seq<OperationWithId>, opOf: Resolution, blockOf: map<nat, nat>, heap: map<OpId, Operation>)
    requires AreConstructible(context, s) && IsAllocation(s, opOf, heap) && IsFilled(context, s, 0, opOf, map[], heap)
    ensures IsFilled(context, s, 0, opOf, blockOf, heap)
  {
  }

  lemma MovedAll(operations: map<nat, Pointer>, s: seq<OperationWithId>, opOf: Resolution)
    requires IsMoved(operations, s, opOf) && opOf.Keys == IdSet(s)
    ensures forall id :: id in operations ==> operations[id] == Null
  {
  }

  lemma DecodingIsDone(context: Operators, proto: seq<BlockWithId>, opOf: Resolution, builders: map<nat, BlockBuilder>,
                       heap: map<OpId, Operation>, owned: seq<seq<OpId>>)
    requires AreConstructible(context, Flatten(proto)) && IsAllocation(Flatten(proto), opOf, heap)
    requires IsFilled(context, Flatten(proto), |Flatten(proto)|, opOf, BlockTable(builders), heap)
    requires AreFresh(proto, builders) && AreOwned(proto, opOf, owned)
    requires HasDistinctIds(Flatten(proto)) && HasDistinctBlockIds(proto)
    ensures IsDecoding(context, proto, opOf, BlockTable(builders), Module(owned, heap, seq(|proto|, _ => map[])))
  {
    hide IdSet, Full, AreOwned, IsInjective;
  }
}
