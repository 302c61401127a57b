/** Writing a module and reading it back gives the same module, up to the addresses of its objects. */
module ProtoRoundTrip {
  import opened Checks
  import opened Seqs
  import opened IrModule
  import opened IrToProto
  import opened ProtoToIr

  // ---------- Isomorphic modules ----------

  type Renaming = map<OpId, OpId>

  function RenameValue(v: Value, f: Renaming): Value {
    if v.OperationResult? && v.op in f then v.(op := f[v.op]) else v
  }

  function RenameAll(vs: seq<Value>, f: Renaming): seq<Value> {
    seq(|vs|, i requires 0 <= i < |vs| => RenameValue(vs[i], f))
  }

  function RenameOps(ops: seq<OpId>, f: Renaming): seq<OpId>
    requires forall o :: o in ops ==> o in f
  {
    seq(|ops|, k requires 0 <= k < |ops| => f[ops[k]])
  }

  function RenameResults(results: seq<map<string, Value>>, f: Renaming): seq<map<string, Value>> {
    seq(|results|, b requires 0 <= b < |results| => map name | name in results[b] :: RenameValue(results[b][name], f))
  }

  ghost predicate IsHit(f: Renaming, u: OpId) {
    exists o :: o in f && f[o] == u
  }

  /** `f` is a bijection between the operations of `m` and those of `m'`. */
  ghost predicate IsBijection(m: Module, m': Module, f: Renaming) {
    f.Keys == m.operations.Keys &&
    (forall o, u :: o in f && u in f && f[o] == f[u] ==> o == u) &&
    (forall u :: u in m'.operations <==> IsHit(f, u))
  }

  ghost predicate CarriesBlocks(m: Module, m': Module, f: Renaming) {
    |m'.blocks| == |m.blocks| && m'.results == RenameResults(m.results, f) &&
    forall b :: 0 <= b < |m.blocks| ==> (forall o :: o in m.blocks[b] ==> o in f) && m'.blocks[b] == RenameOps(m.blocks[b], f)
  }

  ghost predicate CarriesOperation(m: Module, m': Module, f: Renaming, o: OpId) {
    o in f && o in m.operations && f[o] in m'.operations &&
    m'.operations[f[o]] == m.operations[o].(inputs := RenameAll(m.operations[o].inputs, f))
  }

  /** The modules are the same up to the identity of their operations. */
  ghost predicate IsIsomorphism(m: Module, m': Module, f: Renaming) {
    IsBijection(m, m', f) && CarriesBlocks(m, m', f) && forall o :: o in m.operations ==> CarriesOperation(m, m', f, o)
  }

  // ---------- Which modules can be written and read back ----------

  predicate IsInside(m: Module, v: Value) {
    (v.OperationResult? ==> v.op in m.operations) && (v.BlockArgument? ==> v.block < |m.blocks|)
  }

  predicate AreInside(m: Module, vs: seq<Value>) {
    forall i :: 0 <= i < |vs| ==> IsInside(m, vs[i])
  }

  /** Every operand belongs to the module. */
  predicate IsClosed(m: Module) {
    forall o :: o in m.operations ==> AreInside(m, m.operations[o].inputs)
  }

  predicate HasNoStorage(m: Module) {
    forall o :: o in m.operations ==> HasNoStoredValue(m.operations[o].inputs)
  }

  predicate HasNoResults(m: Module) {
    forall b :: 0 <= b < |m.results| ==> m.results[b] == map[]
  }

  predicate UsesOperators(m: Module, context: Operators) {
    forall o :: o in m.operations ==> m.operations[o].name in context
  }

  // ---------- The operations of an encoding ----------

  function FlatOps(blocks: seq<seq<OpId>>): seq<OpId> {
    if blocks == [] then [] else FlatOps(blocks[..|blocks| - 1]) + blocks[|blocks| - 1]
  }

  lemma {:induction false} InFlatOps(blocks: seq<seq<OpId>>, o: OpId)
    ensures o in FlatOps(blocks) <==> Owns(blocks, o)
  {
    if blocks != [] {
      var n := |blocks| - 1;
      InFlatOps(blocks[..n], o);
      InConcat(FlatOps(blocks[..n]), blocks[n], o);
      assert blocks[..n + 1] == blocks;
      OwnsOneMore(blocks, n, o);
    }
  }

  lemma ConcatHasNoRepeats(a: seq<OpId>, b: seq<OpId>)
    requires HasNoRepeats(a) && HasNoRepeats(b) && forall o :: o in a ==> o !in b
    ensures HasNoRepeats(a + b)
  {
    var s := a + b;
    forall i, j | 0 <= i < j < |s|
      ensures s[i] != s[j]
    {
      if i < |a| <= j {
        assert s[i] in a && s[j] == b[j - |a|];
      }
    }
  }

  lemma {:induction false} FlatOpsHaveNoRepeats(blocks: seq<seq<OpId>>)
    requires IsOwnedOnce(blocks)
    ensures HasNoRepeats(FlatOps(blocks))
  {
    if blocks != [] {
      var n := |blocks| - 1;
      FlatOpsHaveNoRepeats(blocks[..n]);
      forall o | o in FlatOps(blocks[..n])
        ensures o !in blocks[n]
      {
        InFlatOps(blocks[..n], o);
        var b :| 0 <= b < n && o in blocks[..n][b];
        assert o in blocks[b];
      }
      ConcatHasNoRepeats(FlatOps(blocks[..n]), blocks[n]);
    }
  }

  lemma EncodeConcat(m: Module, a: seq<OpId>, b: seq<OpId>, ids: Ids)
    requires (forall o :: o in a ==> o in m.operations) && (forall o :: o in b ==> o in m.operations)
    ensures forall o :: o in a + b ==> o in m.operations
    ensures EncodeOperations(m, a + b, ids) == EncodeOperations(m, a, ids) + EncodeOperations(m, b, ids)
  {
  }

  lemma {:induction false} FlattenEncoding(m: Module, ids: Ids, proto: seq<BlockWithId>, n: nat)
    requires IsEncoding(m, ids, proto) && n <= |proto|
    ensures forall o :: o in FlatOps(m.blocks[..n]) ==> o in m.operations
    ensures Flatten(proto[..n]) == EncodeOperations(m, FlatOps(m.blocks[..n]), ids)
  {
    if n > 0 {
      var b := n - 1;
      FlattenEncoding(m, ids, proto, b);
      OneMoreBlock(proto, b);
      assert IsBlockEncoding(m, b, ids, proto[b]);
      assert m.blocks[..n][..b] == m.blocks[..b];
      EncodeConcat(m, FlatOps(m.blocks[..b]), m.blocks[b], ids);
    }
  }

  /** All operations of the module in order, and how the encoding lists them. */
  lemma EncodingLists(m: Module, ids: Ids, proto: seq<BlockWithId>)
    requires IsWellFormed(m) && IsEncoding(m, ids, proto)
    ensures forall o :: o in FlatOps(m.blocks) <==> o in m.operations
    ensures Flatten(proto) == EncodeOperations(m, FlatOps(m.blocks), ids)
    ensures OperationsAreCovered(m, FlatOps(m.blocks), ids)
  {
    FlattenEncoding(m, ids, proto, |proto|);
    assert proto[..|proto|] == proto && m.blocks[..|proto|] == m.blocks;
    forall o
      ensures o in FlatOps(m.blocks) <==> o in m.operations
    {
      InFlatOps(m.blocks, o);
    }
    var ops := FlatOps(m.blocks);
    forall k | 0 <= k < |ops|
      ensures OperationObject(ops[k]) in ids && AreCovered(m.operations[ops[k]].inputs, ids)
    {
      InFlatOps(m.blocks, ops[k]);
      var b :| 0 <= b < |m.blocks| && ops[k] in m.blocks[b];
      assert IsBlockEncoding(m, b, ids, proto[b]);
      var j :| 0 <= j < |m.blocks[b]| && m.blocks[b][j] == ops[k];
    }
  }

  /** An id is that of a listed operation exactly when its object is one of the module. */
  lemma ListedIds(m: Module, ops: seq<OpId>, ids: Ids, last: nat, o: OpId)
    requires (forall u :: u in ops ==> u in m.operations) && IsAssignment(ids, last) && OperationObject(o) in ids
    requires OperationsAreCovered(m, ops, ids)
    ensures ids[OperationObject(o)] in IdSet(EncodeOperations(m, ops, ids)) <==> o in ops
  {
    hide EncodeOperation;
    var s := EncodeOperations(m, ops, ids);
    if o in ops {
      var k :| 0 <= k < |ops| && ops[k] == o;
      assert s[k].id == ids[OperationObject(o)];
    }
    if ids[OperationObject(o)] in IdSet(s) {
      var k :| 0 <= k < |s| && s[k].id == ids[OperationObject(o)];
      assert OperationObject(ops[k]) in ids;
    }
  }

  lemma EncodedIdsAreDistinct(m: Module, ops: seq<OpId>, ids: Ids, last: nat)
    requires (forall u :: u in ops ==> u in m.operations) && IsAssignment(ids, last)
    requires OperationsAreCovered(m, ops, ids) && HasNoRepeats(ops)
    ensures HasDistinctIds(EncodeOperations(m, ops, ids))
  {
  }

  lemma EncodedBlockIds(m: Module, ids: Ids, last: nat, proto: seq<BlockWithId>)
    requires IsEncoding(m, ids, proto) && IsAssignment(ids, last)
    ensures HasDistinctBlockIds(proto)
    ensures forall b: nat :: BlockObject(b) in ids ==> (ids[BlockObject(b)] in BlockIdSet(proto) <==> b < |m.blocks|)
  {
    hide EncodeOperations, OperationsAreCovered;
    forall b | 0 <= b < |proto|
      ensures BlockObject(b) in ids && proto[b].id == ids[BlockObject(b)]
    {
      assert IsBlockEncoding(m, b, ids, proto[b]);
    }
    forall i, j | 0 <= i < j < |proto|
      ensures proto[i].id != proto[j].id
    {
      assert BlockObject(i) != BlockObject(j);
    }
    forall b: nat | BlockObject(b) in ids && ids[BlockObject(b)] in BlockIdSet(proto)
      ensures b < |m.blocks|
    {
      var c :| 0 <= c < |proto| && proto[c].id == ids[BlockObject(b)];
      assert BlockObject(c) == BlockObject(b);
    }
  }

  // ---------- Reading the encoding ----------

  lemma ValueResolves(m: Module, v: Value, ids: Ids, last: nat, proto: seq<BlockWithId>)
    requires IsWellFormed(m) && IsAssignment(ids, last) && IsEncoding(m, ids, proto) && IsCovered(v, ids) && !v.StoredValue?
    ensures Resolves(EncodeValue(v, ids), IdSet(Flatten(proto)), BlockIdSet(proto)) <==> IsInside(m, v)
  {
    EncodingLists(m, ids, proto);
    EncodedBlockIds(m, ids, last, proto);
    hide IsEncoding, IsWellFormed, Flatten, BlockIdSet, IdSet, EncodeOperations;
    if v.OperationResult? {
      ListedIds(m, FlatOps(m.blocks), ids, last, v.op);
    }
  }

  lemma OperationIsFillable(m: Module, op: Operation, ids: Ids, last: nat, proto: seq<BlockWithId>)
    requires IsWellFormed(m) && IsAssignment(ids, last) && IsEncoding(m, ids, proto)
    requires AreCovered(op.inputs, ids) && HasNoStoredValue(op.inputs)
    ensures IsFillable(EncodeOperation(op, ids), IdSet(Flatten(proto)), BlockIdSet(proto)) <==> AreInside(m, op.inputs)
  {
    hide IsEncoding, IsWellFormed, Flatten, BlockIdSet, IdSet, IsAssignment, Resolves, EncodeValue, IsInside;
    var ins := EncodeInputs(op.inputs, ids);
    forall i | 0 <= i < |ins|
      ensures Resolves(ins[i], IdSet(Flatten(proto)), BlockIdSet(proto)) <==> IsInside(m, op.inputs[i])
    {
      ValueResolves(m, op.inputs[i], ids, last, proto);
    }
  }

  /**
   An encoding can be read back exactly when no block has a result, every
   operand of the module belongs to it and its operators are registered.
   */
  lemma EncodingIsReadableIff(m: Module, ids: Ids, last: nat, proto: seq<BlockWithId>, context: Operators)
    requires IsWellFormed(m) && IsOwnedOnce(m.blocks) && IsAssignment(ids, last) && IsEncoding(m, ids, proto) && HasNoStorage(m)
    ensures IsReadable(context, proto) <==> HasNoResults(m) && IsClosed(m) && UsesOperators(m, context)
  {
    ResultsOfEncoding(m, ids, proto);
    EncodingLists(m, ids, proto);
    EncodedBlockIds(m, ids, last, proto);
    FlatOpsHaveNoRepeats(m.blocks);
    var ops := FlatOps(m.blocks);
    EncodedIdsAreDistinct(m, ops, ids, last);
    var s := Flatten(proto);
    forall k | 0 <= k < |s|
      ensures IsConstructible(context, s[k].operation) <==> m.operations[ops[k]].name in context
      ensures IsFillable(s[k].operation, IdSet(s), BlockIdSet(proto)) <==> AreInside(m, m.operations[ops[k]].inputs)
    {
      var op := m.operations[ops[k]];
      OperationIsFillable(m, op, ids, last, proto);
      EncodedInputsExist(op, ids);
    }
    hide IsFillable, AreInside, IsConstructible, IsEncoding, IsWellFormed, IdSet, EncodeOperation;
    forall o | o in m.operations
      ensures exists k :: 0 <= k < |s| && ops[k] == o
    {
      assert o in ops;
    }
  }

  lemma ResultsOfEncoding(m: Module, ids: Ids, proto: seq<BlockWithId>)
    requires IsWellFormed(m) && IsEncoding(m, ids, proto)
    ensures (forall b :: 0 <= b < |proto| ==> proto[b].results == map[]) <==> HasNoResults(m)
  {
    forall b | 0 <= b < |proto|
      ensures proto[b].results == map[] <==> m.results[b] == map[]
    {
      assert IsBlockEncoding(m, b, ids, proto[b]);
      assert proto[b].results.Keys == m.results[b].Keys;
    }
  }

  lemma EncodedInputsExist(op: Operation, ids: Ids)
    requires HasNoStoredValue(op.inputs)
    ensures forall i :: 0 <= i < |EncodeInputs(op.inputs, ids)| ==> !EncodeInputs(op.inputs, ids)[i].NoValue?
  {
  }

  ghost predicate OperationIsMatched(ids: Ids, opOf: Resolution, o: OpId) {
    OperationObject(o) in ids && ids[OperationObject(o)] in opOf
  }

  ghost predicate BlockIsMatched(ids: Ids, blockOf: map<nat, nat>, b: nat) {
    BlockObject(b) in ids && ids[BlockObject(b)] in blockOf && blockOf[ids[BlockObject(b)]] == b
  }

  /** The reader finds every block and operation under the id that the writer gave it. */
  ghost predicate IsMatch(m: Module, ids: Ids, opOf: Resolution, blockOf: map<nat, nat>) {
    (forall o :: o in m.operations ==> OperationIsMatched(ids, opOf, o)) &&
    (forall b: nat :: b < |m.blocks| ==> BlockIsMatched(ids, blockOf, b))
  }

  /** Every operation becomes the one that the reader made for its id. */
  ghost predicate IsImage(m: Module, ids: Ids, opOf: Resolution, f: Renaming) {
    f.Keys == m.operations.Keys &&
    forall o :: o in f ==> OperationIsMatched(ids, opOf, o) && f[o] == opOf[ids[OperationObject(o)]]
  }

  lemma ImageExists(m: Module, ids: Ids, opOf: Resolution, blockOf: map<nat, nat>) returns (f: Renaming)
    requires IsMatch(m, ids, opOf, blockOf)
    ensures IsImage(m, ids, opOf, f)
  {
    f := map o | o in m.operations :: assert OperationIsMatched(ids, opOf, o); opOf[ids[OperationObject(o)]];
  }

  lemma ValueRoundTrip(m: Module, v: Value, ids: Ids, opOf: Resolution, blockOf: map<nat, nat>, f: Renaming)
    requires IsMatch(m, ids, opOf, blockOf) && IsImage(m, ids, opOf, f) && IsInside(m, v) && !v.StoredValue?
    ensures DecodeValue(EncodeValue(v, ids), opOf, blockOf) == RenameValue(v, f)
  {
    match v
    case OperationResult(o, i) => assert OperationIsMatched(ids, opOf, o);
    case BlockArgument(b, i) => assert BlockIsMatched(ids, blockOf, b);
    case AnyValue =>
  }

  lemma OperationRoundTrip(m: Module, op: Operation, ids: Ids, opOf: Resolution, blockOf: map<nat, nat>, f: Renaming, context: Operators)
    requires IsMatch(m, ids, opOf, blockOf) && IsImage(m, ids, opOf, f)
    requires AreInside(m, op.inputs) && HasNoStoredValue(op.inputs)
    requires op.name in context && context[op.name] == op.outputs
    ensures Full(context, EncodeOperation(op, ids), opOf, blockOf) == op.(inputs := RenameAll(op.inputs, f))
  {
    hide EncodeValue, DecodeValue, RenameValue, IsMatch, IsImage;
    forall i | 0 <= i < |op.inputs|
      ensures DecodeInputs(EncodeInputs(op.inputs, ids), opOf, blockOf)[i] == RenameAll(op.inputs, f)[i]
    {
      ValueRoundTrip(m, op.inputs[i], ids, opOf, blockOf, f);
    }
    assert DecodeInputs(EncodeInputs(op.inputs, ids), opOf, blockOf) == RenameAll(op.inputs, f);
    assert DecodeAttributes(EncodeOperation(op, ids).attributes) == op.attributes;
  }

  ghost predicate IsIdOfOperation(m: Module, ids: Ids, id: nat) {
    exists o :: o in m.operations && IdOf(ids, OperationObject(o)) == id
  }

  lemma OperationMatches(m: Module, ids: Ids, ops: seq<OpId>, opOf: Resolution, o: OpId)
    requires (forall u :: u in ops ==> u in m.operations) && OperationsAreCovered(m, ops, ids) && o in ops
    requires opOf.Keys == IdSet(EncodeOperations(m, ops, ids))
    ensures OperationIsMatched(ids, opOf, o)
  {
    hide EncodeOperation, AreCovered;
    var s := EncodeOperations(m, ops, ids);
    var k :| 0 <= k < |ops| && ops[k] == o;
    assert s[k].id == ids[OperationObject(o)];
  }

  lemma IdMatches(m: Module, ids: Ids, ops: seq<OpId>, id: nat)
    requires (forall u :: u in ops ==> u in m.operations) && id in IdSet(EncodeOperations(m, ops, ids))
    ensures exists o :: o in ops && IdOf(ids, OperationObject(o)) == id
  {
  }

  lemma BlockMatches(m: Module, ids: Ids, proto: seq<BlockWithId>, blockOf: map<nat, nat>, b: nat)
    requires IsEncoding(m, ids, proto) && IsPosition(proto, blockOf) && b < |m.blocks|
    ensures BlockIsMatched(ids, blockOf, b)
  {
    hide EncodeOperations, OperationsAreCovered;
    assert IsBlockEncoding(m, b, ids, proto[b]);
    assert proto[b].id in BlockIdSet(proto);
  }

  lemma DecodingHasIds(proto: seq<BlockWithId>, context: Operators, opOf: Resolution, blockOf: map<nat, nat>, m': Module)
    requires IsDecoding(context, proto, opOf, blockOf, m')
    ensures opOf.Keys == IdSet(Flatten(proto)) && IsPosition(proto, blockOf)
  {
  }

  lemma EncodingMatches(m: Module, ids: Ids, proto: seq<BlockWithId>, context: Operators,
                        opOf: Resolution, blockOf: map<nat, nat>, m': Module)
    requires IsWellFormed(m) && IsEncoding(m, ids, proto) && IsDecoding(context, proto, opOf, blockOf, m')
    ensures IsMatch(m, ids, opOf, blockOf)
    ensures forall id :: id in opOf ==> IsIdOfOperation(m, ids, id)
  {
    hide IdSet, IsPosition, EncodeOperations, IsDecoding, IsEncoding, FlatOps, OperationsAreCovered;
    EncodingLists(m, ids, proto);
    DecodingHasIds(proto, context, opOf, blockOf, m');
    var ops := FlatOps(m.blocks);
    hide IsWellFormed, OperationIsMatched, BlockIsMatched;
    forall o | o in m.operations
      ensures OperationIsMatched(ids, opOf, o)
    {
      OperationMatches(m, ids, ops, opOf, o);
    }
    forall b: nat | b < |m.blocks|
      ensures BlockIsMatched(ids, blockOf, b)
    {
      BlockMatches(m, ids, proto, blockOf, b);
    }
    forall id | id in opOf
      ensures IsIdOfOperation(m, ids, id)
    {
      IdMatches(m, ids, ops, id);
    }
  }

  lemma OperationIsCarried(m: Module, ids: Ids, proto: seq<BlockWithId>, context: Operators,
                           opOf: Resolution, blockOf: map<nat, nat>, m': Module, f: Renaming, o: OpId)
    requires IsWellFormed(m) && IsEncoding(m, ids, proto) && IsDecoding(context, proto, opOf, blockOf, m')
    requires IsMatch(m, ids, opOf, blockOf) && IsImage(m, ids, opOf, f)
    requires o in m.operations && AreInside(m, m.operations[o].inputs) && HasNoStoredValue(m.operations[o].inputs)
    requires m.operations[o].name in context && context[m.operations[o].name] == m.operations[o].outputs
    ensures CarriesOperation(m, m', f, o)
  {
    EncodingLists(m, ids, proto);
    OperationRoundTrip(m, m.operations[o], ids, opOf, blockOf, f, context);
    var ops, s := FlatOps(m.blocks), Flatten(proto);
    hide IsWellFormed, Flatten, EncodeOperation, Full, AreOwned, AreConstructible, AreCovered, FlatOps, IsInjective, IdSet, RenameAll, AreInside, IsMatch;
    var k :| 0 <= k < |ops| && ops[k] == o;
    assert OperationIsMatched(ids, opOf, o);
    assert s[k] == OperationWithId(ids[OperationObject(o)], EncodeOperation(m.operations[o], ids));
    assert m'.operations[opOf[s[k].id]] == Full(context, s[k].operation, opOf, blockOf);
  }

  lemma BlocksAreCarried(m: Module, ids: Ids, proto: seq<BlockWithId>, context: Operators,
                         opOf: Resolution, blockOf: map<nat, nat>, m': Module, f: Renaming)
    requires IsEncoding(m, ids, proto) && IsDecoding(context, proto, opOf, blockOf, m') && IsImage(m, ids, opOf, f)
    requires HasNoResults(m) && |m.results| == |m.blocks|
    ensures CarriesBlocks(m, m', f)
  {
    assert m'.results == RenameResults(m.results, f);
    hide EncodeOperation, OperationsAreCovered, Full;
    forall b | 0 <= b < |m.blocks|
      ensures (forall o :: o in m.blocks[b] ==> o in f) && m'.blocks[b] == RenameOps(m.blocks[b], f)
    {
      assert IsBlockEncoding(m, b, ids, proto[b]);
      assert IsOwned(proto[b].operations, opOf, m'.blocks[b]);
      BlockIsCarried(m, ids, opOf, f, m.blocks[b], proto[b].operations);
    }
  }

  lemma BlockIsCarried(m: Module, ids: Ids, opOf: Resolution, f: Renaming, ops: seq<OpId>, encoded: seq<OperationWithId>)
    requires IsImage(m, ids, opOf, f) && (forall o :: o in ops ==> o in m.operations)
    requires encoded == EncodeOperations(m, ops, ids) && forall k :: 0 <= k < |encoded| ==> encoded[k].id in opOf
    ensures OpsOf(encoded, opOf) == RenameOps(ops, f)
  {
  }

  lemma ImageIsInjective(m: Module, ids: Ids, last: nat, opOf: Resolution, f: Renaming, o: OpId, u: OpId)
    requires IsAssignment(ids, last) && IsInjective(opOf) && IsImage(m, ids, opOf, f)
    requires o in f && u in f && f[o] == f[u]
    ensures o == u
  {
  }

  lemma ImageIsOnto(m: Module, ids: Ids, opOf: Resolution, f: Renaming, id: nat)
    requires IsImage(m, ids, opOf, f) && id in opOf
    requires IsIdOfOperation(m, ids, id)
    ensures IsHit(f, opOf[id])
  {
  }

  lemma IdOfOperation(proto: seq<BlockWithId>, context: Operators, opOf: Resolution, blockOf: map<nat, nat>, m': Module, u: OpId)
    returns (id: nat)
    requires IsDecoding(context, proto, opOf, blockOf, m') && u in m'.operations
    ensures id in opOf && opOf[id] == u
  {
    id :| id in opOf && opOf[id] == u;
  }

  lemma DecodingIsInjective(proto: seq<BlockWithId>, context: Operators, opOf: Resolution, blockOf: map<nat, nat>, m': Module)
    requires IsDecoding(context, proto, opOf, blockOf, m')
    ensures IsInjective(opOf)
  {
  }

  lemma ImageIsBijective(m: Module, ids: Ids, last: nat, proto: seq<BlockWithId>, context: Operators,
                         opOf: Resolution, blockOf: map<nat, nat>, m': Module, f: Renaming)
    requires IsAssignment(ids, last) && IsDecoding(context, proto, opOf, blockOf, m') && IsImage(m, ids, opOf, f)
    requires forall id :: id in opOf ==> IsIdOfOperation(m, ids, id)
    requires forall o :: o in m.operations ==> CarriesOperation(m, m', f, o)
    ensures IsBijection(m, m', f)
  {
    hide IsInjective, IsIdOfOperation, CarriesOperation, IsHit, IsAssignment, IsOwned, AreOwned, Full, Flatten, AreConstructible, IsPosition, IdSet;
    DecodingIsInjective(proto, context, opOf, blockOf, m');
    assert f.Keys == m.operations.Keys;
    hide IsDecoding, IsImage;
    forall u | u in m'.operations
      ensures IsHit(f, u)
    {
      var id := IdOfOperation(proto, context, opOf, blockOf, m', u);
      ImageIsOnto(m, ids, opOf, f, id);
    }
    forall o, u | o in f && u in f && f[o] == f[u]
      ensures o == u
    {
      ImageIsInjective(m, ids, last, opOf, f, o, u);
    }
    forall u | IsHit(f, u)
      ensures u in m'.operations
    {
      HitIsOperation(m, m', f, u);
    }
  }

  lemma HitIsOperation(m: Module, m': Module, f: Renaming, u: OpId)
    requires IsHit(f, u) && f.Keys == m.operations.Keys && forall o :: o in m.operations ==> CarriesOperation(m, m', f, o)
    ensures u in m'.operations
  {
  }

  /** Reading back an encoding gives an isomorphic module, whatever refers to what. */
  lemma DecodingIsIsomorphic(m: Module, ids: Ids, last: nat, proto: seq<BlockWithId>, context: Operators,
                             opOf: Resolution, blockOf: map<nat, nat>, m': Module) returns (f: Renaming)
    requires IsWellFormed(m) && IsAssignment(ids, last) && IsEncoding(m, ids, proto)
    requires HasNoStorage(m) && HasNoResults(m) && IsClosed(m) && IsDecoding(context, proto, opOf, blockOf, m')
    requires forall o :: o in m.operations ==> m.operations[o].name in context && context[m.operations[o].name] == m.operations[o].outputs
    ensures IsIsomorphism(m, m', f)
  {
    assert |m.results| == |m.blocks|;
    hide IsEncoding, IsDecoding, IsAssignment, IsWellFormed, IsMatch, IsImage, AreInside, HasNoStoredValue, HasNoResults,
      CarriesOperation, CarriesBlocks, IsBijection;
    EncodingMatches(m, ids, proto, context, opOf, blockOf, m');
    f := ImageExists(m, ids, opOf, blockOf);
    forall o | o in m.operations
      ensures CarriesOperation(m, m', f, o)
    {
      OperationIsCarried(m, ids, proto, context, opOf, blockOf, m', f, o);
    }
    BlocksAreCarried(m, ids, proto, context, opOf, blockOf, m', f);
    ImageIsBijective(m, ids, last, proto, context, opOf, blockOf, m', f);
  }

  /** In a new context all registered operators have one result. */
  lemma {:induction false} RegisteredOperators(names: seq<string>, name: string)
    ensures name in Register(map[], names) <==> name in names
    ensures name in names ==> Register(map[], names)[name] == 1
  {
    if names != [] {
      var n := |names| - 1;
      RegisteredOperators(names[..n], name);
      InInitOrLast(names, name);
    }
  }

  predicate HasSingleResults(m: Module) {
    forall o :: o in m.operations ==> m.operations[o].outputs == 1
  }

  /** The number of results is not written, so any other number is lost. */
  lemma SingleResultsAreNeeded(context: Operators, proto: seq<BlockWithId>, opOf: Resolution, blockOf: map<nat, nat>,
                               m: Module, m': Module, g: Renaming)
    requires IsDecoding(context, proto, opOf, blockOf, m') && forall name :: name in context ==> context[name] == 1
    ensures IsIsomorphism(m, m', g) ==> HasSingleResults(m)
  {
  }

  /**
   The round trip.  Writing and reading back succeeds exactly when no operand
   is a stored value or outside the module, no block has a result, and all
   operators are listed; the checks on ownership at the end never fail.  The
   module read back is isomorphic to the one written exactly if all operators
   have one result.
   */
  method RoundTrip(m: Module, operators: seq<string>) returns (r: Checked<Module>, ghost f: Renaming)
    requires IsWellFormed(m) && IsOwnedOnce(m.blocks)
    ensures r.Passed? <==>
      HasNoStorage(m) && HasNoResults(m) && IsClosed(m) &&
      forall o :: o in m.operations ==> m.operations[o].name in operators
    ensures r.Passed? && HasSingleResults(m) ==> IsIsomorphism(m, r.value, f)
    ensures r.Passed? && !HasSingleResults(m) ==> !exists g :: IsIsomorphism(m, r.value, g)
  {
    hide IsWellFormed, IsOwnedOnce, IsEncoding, IsDecoding, IsReadable, IsAssignment, IsClosed, IsIsomorphism, HasNoStoredValue;
    f := map[];
    var encoder := new IRToProto(0);
    var proto := encoder.ModuleToProto(m);
    if proto.CheckFailed? {
      return CheckFailed, f;
    }
    ghost var ids, last := encoder.usedIds, encoder.lastUsedId;
    ghost var opOf, blockOf;
    r, opOf, blockOf := Convert(map[], operators, proto.value);
    ghost var context := Register(map[], operators);
    EncodingIsReadableIff(m, ids, last, proto.value, context);
    forall name
      ensures name in context <==> name in operators
      ensures name in context ==> context[name] == 1
    {
      RegisteredOperators(operators, name);
    }
    if r.Passed? && HasSingleResults(m) {
      f := DecodingIsIsomorphic(m, ids, last, proto.value, context, opOf, blockOf, r.value);
    } else if r.Passed? {
      forall g
        ensures !IsIsomorphism(m, r.value, g)
      {
        SingleResultsAreNeeded(context, proto.value, opOf, blockOf, m, r.value, g);
      }
    }
  }
}
