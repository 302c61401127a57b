/**
 Writing a module as a protocol buffer.  Blocks and operations are objects that
 refer to each other, also forwards and in cycles; in the proto they are known
 by ids that are handed out when an object is first seen.
 */
module IrToProto {
  import opened Checks
  import opened IrModule

  datatype ProtoValue =
    | NoValue
    | AnyValueProto
    | OperationResultProto(operationId: nat, outputIndex: nat)
    | BlockArgumentProto(blockId: nat, argumentIndex: nat)

  datatype AttributePayload = NoPayload | FloatPayload(bits: nat) | Int64Payload(number: int) | StringPayload(text: string)

  datatype ProtoOperation = ProtoOperation(operatorName: string, inputs: seq<ProtoValue>, attributes: map<string, AttributePayload>)

  datatype OperationWithId = OperationWithId(id: nat, operation: ProtoOperation)

  datatype BlockWithId = BlockWithId(id: nat, operations: seq<OperationWithId>, results: map<string, ProtoValue>)

  // ---------- Ids ----------

  /** The objects that have ids: blocks of the module by their position, and operations. */
  datatype Object = BlockObject(block: nat) | OperationObject(op: OpId)

  type Ids = map<Object, nat>

  /** Ids are positive, at most the last one used, and never shared, not even by a block and an operation. */
  predicate IsAssignment(ids: Ids, last: nat) {
    (forall t :: t in ids ==> 1 <= ids[t] <= last) &&
    (forall s, t :: s in ids && t in ids && ids[s] == ids[t] ==> s == t)
  }

  predicate ExtendsIds(ids: Ids, ids': Ids) {
    forall t :: t in ids ==> t in ids' && ids'[t] == ids[t]
  }

  function IdOf(ids: Ids, t: Object): nat {
    if t in ids then ids[t] else 0
  }

  // ---------- The encoding for given ids ----------

  function EncodeValue(v: Value, ids: Ids): ProtoValue {
    match v
    case AnyValue => AnyValueProto
    case OperationResult(o, i) => OperationResultProto(IdOf(ids, OperationObject(o)), i)
    case BlockArgument(b, i) => BlockArgumentProto(IdOf(ids, BlockObject(b)), i)
    case StoredValue(_) => NoValue
  }

  function EncodeAttribute(a: Attribute): AttributePayload {
    match a
    case FloatAttribute(bits) => FloatPayload(bits)
    case Int64Attribute(number) => Int64Payload(number)
    case StringAttribute(text) => StringPayload(text)
  }

  function EncodeInputs(ins: seq<Value>, ids: Ids): seq<ProtoValue> {
    seq(|ins|, i requires 0 <= i < |ins| => EncodeValue(ins[i], ids))
  }

  function EncodeOperation(op: Operation, ids: Ids): ProtoOperation {
    ProtoOperation(op.name, EncodeInputs(op.inputs, ids),
      map name | name in op.attributes :: EncodeAttribute(op.attributes[name]))
  }

  function EncodeBlock(m: Module, b: nat, ids: Ids): BlockWithId
    requires b < |m.blocks| == |m.results| && forall o :: o in m.blocks[b] ==> o in m.operations
  {
    BlockWithId(IdOf(ids, BlockObject(b)), EncodeOperations(m, m.blocks[b], ids), EncodeResults(m.results[b], ids))
  }

  function EncodeResults(results: map<string, Value>, ids: Ids): map<string, ProtoValue> {
    map name | name in results :: EncodeValue(results[name], ids)
  }

  function EncodeOperations(m: Module, ops: seq<OpId>, ids: Ids): seq<OperationWithId>
    requires forall o :: o in ops ==> o in m.operations
  {
    seq(|ops|, k requires 0 <= k < |ops| =>
      OperationWithId(IdOf(ids, OperationObject(ops[k])), EncodeOperation(m.operations[ops[k]], ids)))
  }

  /** The objects that an operand refers to have ids. */
  predicate IsCovered(v: Value, ids: Ids) {
    (v.OperationResult? ==> OperationObject(v.op) in ids) && (v.BlockArgument? ==> BlockObject(v.block) in ids)
  }

  predicate AreCovered(ins: seq<Value>, ids: Ids) {
    forall i :: 0 <= i < |ins| ==> IsCovered(ins[i], ids)
  }

  predicate HasNoStoredValue(ins: seq<Value>) {
    forall i :: 0 <= i < |ins| ==> !ins[i].StoredValue?
  }

  predicate HaveNoStoredValue(m: Module, ops: seq<OpId>)
    requires forall o :: o in ops ==> o in m.operations
  {
    forall o :: o in ops ==> HasNoStoredValue(m.operations[o].inputs)
  }

  predicate OperationsAreCovered(m: Module, ops: seq<OpId>, ids: Ids)
    requires forall o :: o in ops ==> o in m.operations
  {
    forall k :: 0 <= k < |ops| ==> OperationObject(ops[k]) in ids && AreCovered(m.operations[ops[k]].inputs, ids)
  }

  predicate ResultsAreCovered(results: map<string, Value>, ids: Ids) {
    forall name :: name in results ==> IsCovered(results[name], ids)
  }

  predicate HasNoStoredResult(results: map<string, Value>) {
    forall name :: name in results ==> !results[name].StoredValue?
  }

  lemma ResultsStay(results: map<string, Value>, ids: Ids, ids': Ids)
    requires ExtendsIds(ids, ids') && ResultsAreCovered(results, ids)
    ensures EncodeResults(results, ids') == EncodeResults(results, ids) && ResultsAreCovered(results, ids')
  {
    forall name | name in results
      ensures EncodeValue(results[name], ids') == EncodeValue(results[name], ids) && IsCovered(results[name], ids')
    {
      assert IsCovered(results[name], ids);
    }
  }

  lemma InputsStay(ins: seq<Value>, ids: Ids, ids': Ids)
    requires ExtendsIds(ids, ids') && AreCovered(ins, ids)
    ensures EncodeInputs(ins, ids') == EncodeInputs(ins, ids) && AreCovered(ins, ids')
  {
  }

  lemma OperationsStay(m: Module, ops: seq<OpId>, ids: Ids, ids': Ids)
    requires forall o :: o in ops ==> o in m.operations
    requires ExtendsIds(ids, ids') && OperationsAreCovered(m, ops, ids)
    ensures EncodeOperations(m, ops, ids') == EncodeOperations(m, ops, ids) && OperationsAreCovered(m, ops, ids')
  {
    hide EncodeInputs, AreCovered, EncodeAttribute;
    forall k | 0 <= k < |ops|
      ensures EncodeOperation(m.operations[ops[k]], ids') == EncodeOperation(m.operations[ops[k]], ids)
      ensures AreCovered(m.operations[ops[k]].inputs, ids')
    {
      InputsStay(m.operations[ops[k]].inputs, ids, ids');
    }
  }

  // ---------- The encoder ----------

  class IRToProto {
    var usedIds: Ids
    var lastUsedId: nat

    predicate Valid()
      reads this
    {
      IsAssignment(usedIds, lastUsedId)
    }

    constructor (last: nat)
      ensures Valid() && usedIds == map[] && lastUsedId == last
    {
      usedIds, lastUsedId := map[], last;
    }

    /** The id of an object: the one it has, or the next one. */
    method GetID(t: Object) returns (id: nat)
      requires Valid()
      modifies this
      ensures Valid() && ExtendsIds(old(usedIds), usedIds)
      ensures usedIds == if t in old(usedIds) then old(usedIds) else old(usedIds)[t := old(lastUsedId) + 1]
      ensures lastUsedId == if t in old(usedIds) then old(lastUsedId) else old(lastUsedId) + 1
      ensures id == usedIds[t]
    {
      if t in usedIds {
        return usedIds[t];
      }
      usedIds := usedIds[t := lastUsedId + 1];
      lastUsedId := lastUsedId + 1;
      return lastUsedId;
    }

    /** Stored values cannot be encoded. */
    method ValueToProto(v: Value) returns (r: Checked<ProtoValue>)
      requires Valid()
      modifies this
      ensures Valid() && ExtendsIds(old(usedIds), usedIds)
      ensures r.Passed? <==> !v.StoredValue?
      ensures r.Passed? ==> IsCovered(v, usedIds) && r.value == EncodeValue(v, usedIds)
    {
      match v
      case AnyValue =>
        return Passed(AnyValueProto);
      case OperationResult(o, i) =>
        var id := GetID(OperationObject(o));
        return Passed(OperationResultProto(id, i));
      case BlockArgument(b, i) =>
        var id := GetID(BlockObject(b));
        return Passed(BlockArgumentProto(id, i));
      case StoredValue(_) =>
        return CheckFailed;
    }

    method OperationToProto(op: Operation) returns (r: Checked<ProtoOperation>)
      requires Valid()
      modifies this
      ensures Valid() && ExtendsIds(old(usedIds), usedIds)
      ensures r.Passed? <==> HasNoStoredValue(op.inputs)
      ensures r.Passed? ==> AreCovered(op.inputs, usedIds) && r.value == EncodeOperation(op, usedIds)
    {
      hide IsAssignment;
      var ins := [];
      for i := 0 to |op.inputs|
        invariant Valid() && ExtendsIds(old(usedIds), usedIds) && HasNoStoredValue(op.inputs[..i])
        invariant AreCovered(op.inputs[..i], usedIds) && ins == EncodeInputs(op.inputs[..i], usedIds)
      {
        ghost var before := usedIds;
        var v := ValueToProto(op.inputs[i]);
        if v.CheckFailed? {
          return CheckFailed;
        }
        InputsStay(op.inputs[..i], before, usedIds);
        assert op.inputs[..i + 1] == op.inputs[..i] + [op.inputs[i]];
        ins := ins + [v.value];
      }
      assert op.inputs[..|op.inputs|] == op.inputs;
      return Passed(ProtoOperation(op.name, ins, map name | name in op.attributes :: EncodeAttribute(op.attributes[name])));
    }

    /** The operation is encoded before it asks for its own id. */
    method BlockToProto(m: Module, ops: seq<OpId>) returns (r: Checked<seq<OperationWithId>>)
      requires Valid() && forall o :: o in ops ==> o in m.operations
      modifies this
      ensures Valid() && ExtendsIds(old(usedIds), usedIds)
      ensures r.Passed? <==> HaveNoStoredValue(m, ops)
      ensures r.Passed? ==> OperationsAreCovered(m, ops, usedIds) && r.value == EncodeOperations(m, ops, usedIds)
    {
      hide IsAssignment, AreCovered, HasNoStoredValue, EncodeOperation;
      var encoded := [];
      for k := 0 to |ops|
        invariant Valid() && ExtendsIds(old(usedIds), usedIds)
        invariant forall j :: 0 <= j < k ==> HasNoStoredValue(m.operations[ops[j]].inputs)
        invariant OperationsAreCovered(m, ops[..k], usedIds) && encoded == EncodeOperations(m, ops[..k], usedIds)
      {
        ghost var before := usedIds;
        assert ops[k] in ops;
        var op := OperationToProto(m.operations[ops[k]]);
        if op.CheckFailed? {
          return CheckFailed;
        }
        ghost var between := usedIds;
        var id := GetID(OperationObject(ops[k]));
        OperationsStay(m, ops[..k], before, usedIds);
        OwnInputsStay(m.operations[ops[k]], between, usedIds);
        assert ops[..k + 1] == ops[..k] + [ops[k]];
        encoded := encoded + [OperationWithId(id, op.value)];
      }
      assert ops[..|ops|] == ops;
      return Passed(encoded);
    }

    /** Visits the results of a block in an arbitrary order. */
    method ResultsToProto(results: map<string, Value>) returns (r: Checked<map<string, ProtoValue>>)
      requires Valid()
      modifies this
      ensures Valid() && ExtendsIds(old(usedIds), usedIds)
      ensures r.Passed? <==> HasNoStoredResult(results)
      ensures r.Passed? ==> ResultsAreCovered(results, usedIds) && r.value == EncodeResults(results, usedIds)
    {
      hide IsAssignment;
      var encoded: map<string, ProtoValue> := map[];
      var left := results.Keys;
      while left != {}
        invariant Valid() && ExtendsIds(old(usedIds), usedIds) && left <= results.Keys
        invariant forall name :: name in results.Keys - left ==> !results[name].StoredValue? && IsCovered(results[name], usedIds)
        invariant encoded == map name | name in results.Keys - left :: EncodeValue(results[name], usedIds)
        decreases left
      {
        var name :| name in left;
        ghost var before := usedIds;
        var v := ValueToProto(results[name]);
        if v.CheckFailed? {
          return CheckFailed;
        }
        forall other | other in results.Keys - left
          ensures EncodeValue(results[other], usedIds) == EncodeValue(results[other], before) && IsCovered(results[other], usedIds)
        {
          assert IsCovered(results[other], before);
        }
        encoded := encoded[name := v.value];
        left := left - {name};
      }
      return Passed(encoded);
    }

    /** Encodes all blocks; fails exactly when an operation or a result uses a stored value. */
    method ModuleToProto(m: Module) returns (r: Checked<seq<BlockWithId>>)
      requires Valid() && IsWellFormed(m)
      modifies this
      ensures Valid() && ExtendsIds(old(usedIds), usedIds)
      ensures r.Passed? <==>
        (forall o :: o in m.operations ==> HasNoStoredValue(m.operations[o].inputs)) &&
        (forall b :: 0 <= b < |m.results| ==> HasNoStoredResult(m.results[b]))
      ensures r.Passed? ==> IsEncoding(m, usedIds, r.value)
    {
      hide IsAssignment, HasNoStoredValue, HaveNoStoredValue, HasNoStoredResult, IsWellFormed, ResultsAreCovered;
      hide OperationsAreCovered, EncodeOperations, EncodeResults, IsBlockEncoding, EncodeBlock;
      BlocksHoldOperations(m);
      var encoded: seq<BlockWithId> := [];
      for b := 0 to |m.blocks|
        invariant Valid() && ExtendsIds(old(usedIds), usedIds)
        invariant forall c :: 0 <= c < b ==> HaveNoStoredValue(m, m.blocks[c])
        invariant forall c :: 0 <= c < b ==> HasNoStoredResult(m.results[c])
        invariant |encoded| == b
        invariant forall c :: 0 <= c < b ==> IsBlockEncoding(m, c, usedIds, encoded[c])
      {
        ghost var before := usedIds;
        var ops := BlockToProto(m, m.blocks[b]);
        if ops.CheckFailed? {
          StoredValueInBlock(m, b);
          return CheckFailed;
        }
        ghost var between := usedIds;
        var results := ResultsToProto(m.results[b]);
        if results.CheckFailed? {
          return CheckFailed;
        }
        ghost var afterwards := usedIds;
        var id := GetID(BlockObject(b));
        forall c | 0 <= c < b
          ensures IsBlockEncoding(m, c, usedIds, encoded[c])
        {
          BlockStays(m, c, before, usedIds, encoded[c]);
        }
        BlockEncoded(m, b, between, afterwards, usedIds, BlockWithId(id, ops.value, results.value));
        encoded := encoded + [BlockWithId(id, ops.value, results.value)];
      }
      NoStoredValueAnywhere(m);
      return Passed(encoded);
    }
  }

  /** `block` encodes block `b`, all of whose objects have ids. */
  ghost predicate IsBlockEncoding(m: Module, b: nat, ids: Ids, block: BlockWithId) {
    b < |m.blocks| == |m.results| && (forall o :: o in m.blocks[b] ==> o in m.operations) &&
    BlockObject(b) in ids && OperationsAreCovered(m, m.blocks[b], ids) && ResultsAreCovered(m.results[b], ids) &&
    block == EncodeBlock(m, b, ids)
  }

  ghost predicate IsEncoding(m: Module, ids: Ids, blocks: seq<BlockWithId>) {
    |blocks| == |m.blocks| && forall b :: 0 <= b < |blocks| ==> IsBlockEncoding(m, b, ids, blocks[b])
  }

  ghost predicate IsWritten(v: Value, ids: Ids, p: ProtoValue) {
    match v
    case AnyValue => p.AnyValueProto?
    case OperationResult(o, i) =>
      OperationObject(o) in ids && p.OperationResultProto? && p.operationId == ids[OperationObject(o)] && p.outputIndex == i
    case BlockArgument(b, i) =>
      BlockObject(b) in ids && p.BlockArgumentProto? && p.blockId == ids[BlockObject(b)] && p.argumentIndex == i
    case StoredValue(_) => p.NoValue?
  }

  /** Operations, their operands and the results of blocks are written in their order, known by their ids. */
  lemma OperandsAreWritten(m: Module, ids: Ids, blocks: seq<BlockWithId>, b: nat)
    requires IsEncoding(m, ids, blocks) && b < |blocks|
    ensures b < |m.blocks| == |m.results| && BlockObject(b) in ids && blocks[b].id == ids[BlockObject(b)]
    ensures |blocks[b].operations| == |m.blocks[b]|
    ensures forall k :: 0 <= k < |m.blocks[b]| ==>
      var o, written := m.blocks[b][k], blocks[b].operations[k];
      o in m.operations && OperationObject(o) in ids && written.id == ids[OperationObject(o)] &&
      |written.operation.inputs| == |m.operations[o].inputs| &&
      forall i :: 0 <= i < |m.operations[o].inputs| ==> IsWritten(m.operations[o].inputs[i], ids, written.operation.inputs[i])
    ensures blocks[b].results.Keys == m.results[b].Keys
    ensures forall name :: name in m.results[b] ==> IsWritten(m.results[b][name], ids, blocks[b].results[name])
  {
    assert IsBlockEncoding(m, b, ids, blocks[b]);
    forall k | 0 <= k < |m.blocks[b]|
      ensures m.blocks[b][k] in m.operations && AreCovered(m.operations[m.blocks[b][k]].inputs, ids)
    {
      assert m.blocks[b][k] in m.blocks[b];
    }
  }

  /** Every attribute of every operation is written as it is, in the payload of its kind. */
  lemma AttributesAreWritten(m: Module, ids: Ids, blocks: seq<BlockWithId>, b: nat, k: nat)
    requires IsEncoding(m, ids, blocks) && b < |blocks| && k < |blocks[b].operations|
    ensures |blocks[b].operations| == |m.blocks[b]| && m.blocks[b][k] in m.operations
    ensures
      var op, written := m.operations[m.blocks[b][k]], blocks[b].operations[k].operation;
      written.operatorName == op.name && written.attributes.Keys == op.attributes.Keys &&
      forall name :: name in op.attributes ==>
        (op.attributes[name].FloatAttribute? <==> written.attributes[name].FloatPayload?) &&
        (op.attributes[name].Int64Attribute? <==> written.attributes[name].Int64Payload?) &&
        (op.attributes[name].StringAttribute? <==> written.attributes[name].StringPayload?) &&
        (op.attributes[name].FloatAttribute? ==> written.attributes[name].bits == op.attributes[name].bits) &&
        (op.attributes[name].Int64Attribute? ==> written.attributes[name].number == op.attributes[name].number) &&
        (op.attributes[name].StringAttribute? ==> written.attributes[name].text == op.attributes[name].text)
  {
    assert IsBlockEncoding(m, b, ids, blocks[b]);
    assert m.blocks[b][k] in m.blocks[b];
  }

  lemma OwnInputsStay(op: Operation, ids: Ids, ids': Ids)
    requires ExtendsIds(ids, ids') && AreCovered(op.inputs, ids)
    ensures EncodeOperation(op, ids') == EncodeOperation(op, ids) && AreCovered(op.inputs, ids')
  {
  }

  lemma BlockStays(m: Module, b: nat, ids: Ids, ids': Ids, block: BlockWithId)
    requires IsBlockEncoding(m, b, ids, block) && ExtendsIds(ids, ids')
    ensures IsBlockEncoding(m, b, ids', block)
  {
    OperationsStay(m, m.blocks[b], ids, ids');
    ResultsStay(m.results[b], ids, ids');
  }

  lemma BlockEncoded(m: Module, b: nat, ids: Ids, ids': Ids, ids'': Ids, block: BlockWithId)
    requires b < |m.blocks| == |m.results| && (forall o :: o in m.blocks[b] ==> o in m.operations)
    requires OperationsAreCovered(m, m.blocks[b], ids) && ResultsAreCovered(m.results[b], ids')
    requires ExtendsIds(ids, ids') && ExtendsIds(ids', ids'') && BlockObject(b) in ids''
    requires block == BlockWithId(ids''[BlockObject(b)], EncodeOperations(m, m.blocks[b], ids), EncodeResults(m.results[b], ids'))
    ensures IsBlockEncoding(m, b, ids'', block)
  {
    OperationsStay(m, m.blocks[b], ids, ids'');
    ResultsStay(m.results[b], ids', ids'');
  }

  lemma BlocksHoldOperations(m: Module)
    requires IsWellFormed(m)
    ensures |m.results| == |m.blocks|
    ensures forall b, o :: 0 <= b < |m.blocks| && o in m.blocks[b] ==> o in m.operations
  {
  }

  lemma StoredValueInBlock(m: Module, b: nat)
    requires IsWellFormed(m) && b < |m.blocks| && !HaveNoStoredValue(m, m.blocks[b])
    ensures exists o :: o in m.operations && !HasNoStoredValue(m.operations[o].inputs)
  {
    var o :| o in m.blocks[b] && !HasNoStoredValue(m.operations[o].inputs);
  }

  /** Every operation is in a block. */
  lemma NoStoredValueAnywhere(m: Module)
    requires IsWellFormed(m) && forall b :: 0 <= b < |m.blocks| ==> HaveNoStoredValue(m, m.blocks[b])
    ensures forall o :: o in m.operations ==> HasNoStoredValue(m.operations[o].inputs)
  {
  }
}
