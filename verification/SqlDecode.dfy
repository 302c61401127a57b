/**
 Decoding an arena of SQL expressions into a module: one operation per
 expression that is not a column, and one for the output.
 */
module SqlDecode {
  import opened Checks
  import opened IrModule
  import opened SqlOps
  import opened Ordered

  datatype Expression =
    | NotSet
    | SourceTableColumn(columnPath: string)
    | Literal(text: string)
    | MergeOperation(inputs: seq<nat>, controlInputs: seq<nat>)
    | TagTransform(transformedNode: nat, ruleName: string, tagPreconditions: map<string, nat>)

  datatype IdExpressionPair = IdExpressionPair(id: nat, expression: Expression)

  // ---------- Which arenas can be decoded ----------

  /** A reference is to an expression that has been decoded; 0 stands for a missing one. */
  predicate IsReference(seen: set<nat>, id: nat) {
    id != 0 && id in seen
  }

  predicate AreReferences(seen: set<nat>, ids: seq<nat>) {
    forall i :: 0 <= i < |ids| ==> IsReference(seen, ids[i])
  }

  predicate IsDecodable(e: Expression, seen: set<nat>) {
    match e
    case NotSet => false
    case SourceTableColumn(path) => path != ""
    case Literal(text) => text != ""
    case MergeOperation(ins, controls) =>
      ins != [] && |ins| < INT64_MAX && AreReferences(seen, ins) && AreReferences(seen, controls)
    case TagTransform(node, rule, preconditions) =>
      IsReference(seen, node) && rule != "" && RULE_NAME !in preconditions && |preconditions| < INT64_MAX &&
      forall name :: name in preconditions ==> IsReference(seen, preconditions[name])
  }

  function Ids(pairs: seq<IdExpressionPair>): set<nat> {
    set i | 0 <= i < |pairs| :: pairs[i].id
  }

  /** The columns that an arena mentions; each has a storage. */
  function Columns(pairs: seq<IdExpressionPair>): set<string> {
    set i | 0 <= i < |pairs| && pairs[i].expression.SourceTableColumn? :: pairs[i].expression.columnPath
  }

  /** Every expression only refers to earlier ones, and no two have the same id. */
  predicate AreDecodable(pairs: seq<IdExpressionPair>) {
    forall k :: 0 <= k < |pairs| ==> IsDecodable(pairs[k].expression, Ids(pairs[..k])) && pairs[k].id !in Ids(pairs[..k])
  }

  // ---------- What an expression is decoded to ----------

  type ValueTable = map<nat, Value>

  function Lookup(table: ValueTable, id: nat): Value {
    if id in table then table[id] else AnyValue
  }

  function LookupAll(table: ValueTable, ids: seq<nat>): seq<Value> {
    seq(|ids|, i requires 0 <= i < |ids| => Lookup(table, ids[i]))
  }

  /** `v` is the only result of operation `op`. */
  predicate IsResultOf(ops: seq<Operation>, v: Value, op: Operation) {
    v.OperationResult? && v.index == 0 && v.op < |ops| && ops[v.op] == op
  }

  /** `preconditions` lists the entries of the map, in some order, with the values of their ids. */
  ghost predicate Enumerates(preconditions: Preconditions, entries: map<string, nat>, table: ValueTable) {
    |preconditions| == |entries| && HasDistinctEntries(preconditions) &&
    forall i :: 0 <= i < |preconditions| ==>
      preconditions[i].0 in entries && preconditions[i].1 == Lookup(table, entries[preconditions[i].0])
  }

  predicate HasDistinctEntries(preconditions: Preconditions) {
    forall i, j :: 0 <= i < j < |preconditions| ==> preconditions[i].0 != preconditions[j].0
  }

  /** Value `v` computes expression `e`. */
  ghost predicate IsDecoded(e: Expression, table: ValueTable, ops: seq<Operation>, v: Value) {
    match e
    case NotSet => false
    case SourceTableColumn(path) => v == StoredValue(path)
    case Literal(text) => IsResultOf(ops, v, CreateLiteral(text))
    case MergeOperation(ins, controls) =>
      var op := CreateMerge(LookupAll(table, ins), LookupAll(table, controls));
      op.Passed? && IsResultOf(ops, v, op.value)
    case TagTransform(node, rule, entries) =>
      v.OperationResult? && v.index == 0 && v.op < |ops| &&
      exists preconditions: Preconditions ::
        Enumerates(preconditions, entries, table) && HasDistinctNames(preconditions) &&
        IsTransformOf(ops[v.op], rule, Lookup(table, node), preconditions)
  }

  /** The number of expressions that become operations. */
  function OperationCount(pairs: seq<IdExpressionPair>): nat {
    if pairs == [] then 0
    else
      var n := |pairs| - 1;
      OperationCount(pairs[..n]) + if pairs[n].expression.SourceTableColumn? then 0 else 1
  }

  /** Every id has a value that computes its expression; expressions become operations in order, one each. */
  ghost predicate AreDecoded(pairs: seq<IdExpressionPair>, table: ValueTable, ops: seq<Operation>) {
    table.Keys == Ids(pairs) && |ops| == OperationCount(pairs) &&
    forall k :: 0 <= k < |pairs| ==> IsPairDecoded(pairs[k], OperationCount(pairs[..k]), table, ops)
  }

  ghost predicate IsPairDecoded(pair: IdExpressionPair, position: nat, table: ValueTable, ops: seq<Operation>) {
    pair.id in table && IsDecoded(pair.expression, table, ops, table[pair.id]) &&
    (!pair.expression.SourceTableColumn? ==> table[pair.id] == OperationResult(position, 0))
  }

  // ---------- What the operations of the block look like ----------

  /** A stored value, or the only result of one of the first `count` operations. */
  predicate IsEarlier(v: Value, count: nat) {
    v.StoredValue? || (v.OperationResult? && v.index == 0 && v.op < count)
  }

  predicate IsSqlOperation(op: Operation) {
    op.outputs == 1 &&
    (op.name == MERGE_OP ==> IsMerge(op)) &&
    (op.name == TAG_TRANSFORM_OP ==> IsTagTransform(op))
  }

  predicate AreEarlier(vs: seq<Value>, count: nat) {
    forall i :: 0 <= i < |vs| ==> IsEarlier(vs[i], count)
  }

  predicate AreSqlOperations(ops: seq<Operation>) {
    forall k :: 0 <= k < |ops| ==> IsSqlOperation(ops[k]) && AreEarlier(ops[k].inputs, k)
  }

  predicate IsTable(table: ValueTable, count: nat) {
    forall id :: id in table ==> IsEarlier(table[id], count)
  }

  lemma ReferencesAreEarlier(table: ValueTable, ids: seq<nat>, count: nat)
    requires IsTable(table, count) && AreReferences(table.Keys, ids)
    ensures AreEarlier(LookupAll(table, ids), count)
  {
  }

  /** Decoding further expressions does not change what earlier ones were decoded to. */
  lemma DecodedStays(e: Expression, table: ValueTable, ops: seq<Operation>, v: Value, table': ValueTable, ops': seq<Operation>, seen: set<nat>)
    requires IsDecodable(e, seen) && seen <= table.Keys && IsDecoded(e, table, ops, v)
    requires forall id :: id in table ==> id in table' && table'[id] == table[id]
    requires ops <= ops'
    ensures IsDecoded(e, table', ops', v)
  {
  }

  lemma AppendSqlOperation(ops: seq<Operation>, op: Operation)
    requires AreSqlOperations(ops) && IsSqlOperation(op) && AreEarlier(op.inputs, |ops|)
    ensures AreSqlOperations(ops + [op])
  {
  }

  // ---------- The decoder ----------

  class DecoderContext {
    var idToValue: ValueTable
    var storages: set<string>
    /** The operations of the top-level block, known by their position. */
    var operations: seq<Operation>

    predicate Valid()
      reads this
    {
      IsTable(idToValue, |operations|) && AreSqlOperations(operations)
    }

    constructor ()
      ensures Valid() && idToValue == map[] && storages == {} && operations == []
    {
      idToValue, storages, operations := map[], {}, [];
    }

    /** Fails when the id has a value already. */
    method RegisterValue(id: nat, value: Value) returns (ok: bool)
      modifies this`idToValue
      ensures ok <==> id !in old(idToValue)
      ensures idToValue == if ok then old(idToValue)[id := value] else old(idToValue)
    {
      ok := id !in idToValue;
      if ok {
        idToValue := idToValue[id := value];
      }
    }

    method GetValue(id: nat) returns (r: Checked<Value>)
      ensures r.Passed? <==> IsReference(idToValue.Keys, id)
      ensures r.Passed? ==> r.value == Lookup(idToValue, id)
    {
      if id == 0 || id !in idToValue {
        return CheckFailed;
      }
      return Passed(idToValue[id]);
    }

    method GetValues(ids: seq<nat>) returns (r: Checked<seq<Value>>)
      ensures r.Passed? <==> AreReferences(idToValue.Keys, ids)
      ensures r.Passed? ==> r.value == LookupAll(idToValue, ids)
    {
      var values := [];
      for i := 0 to |ids|
        invariant AreReferences(idToValue.Keys, ids[..i]) && values == LookupAll(idToValue, ids)[..i]
      {
        var v :- GetValue(ids[i]);
        values := values + [v];
      }
      return Passed(values);
    }

    /** Visits the preconditions in an arbitrary order. */
    method GetPreconditionValues(entries: map<string, nat>) returns (r: Checked<Preconditions>)
      ensures r.Passed? <==> forall name :: name in entries ==> IsReference(idToValue.Keys, entries[name])
      ensures r.Passed? ==> Enumerates(r.value, entries, idToValue)
    {
      var pairs: Preconditions := [];
      var left := entries.Keys;
      while left != {}
        invariant left <= entries.Keys && |pairs| + |left| == |entries|
        invariant forall name :: name in entries.Keys - left ==> IsReference(idToValue.Keys, entries[name])
        invariant HasDistinctEntries(pairs)
        invariant forall i :: 0 <= i < |pairs| ==>
          pairs[i].0 in entries.Keys - left && pairs[i].1 == Lookup(idToValue, entries[pairs[i].0])
        decreases |left|
      {
        var name :| name in left;
        var v := GetValue(entries[name]);
        if v.CheckFailed? {
          return CheckFailed;
        }
        left := left - {name};
        pairs := pairs + [(name, v.value)];
      }
      return Passed(pairs);
    }

    method GetOrCreateStorage(name: string)
      modifies this`storages
      ensures storages == old(storages) + {name}
    {
      if name !in storages {
        storages := storages + {name};
      }
    }

    method AddOperation(op: Operation) returns (v: Value)
      requires Valid() && IsSqlOperation(op) && AreEarlier(op.inputs, |operations|)
      modifies this`operations
      ensures Valid() && operations == old(operations) + [op]
      ensures v == OperationResult(|old(operations)|, 0)
    {
      AppendSqlOperation(operations, op);
      v := OperationResult(|operations|, 0);
      operations := operations + [op];
    }

    method MakeMergeOperation(ins: seq<nat>, controls: seq<nat>) returns (r: Checked<Value>)
      requires Valid()
      modifies this`operations
      ensures r.Passed? <==>
        ins + controls != [] && |ins| < INT64_MAX &&
        AreReferences(idToValue.Keys, ins) && AreReferences(idToValue.Keys, controls)
      ensures r.Passed? ==>
        var op := CreateMerge(LookupAll(idToValue, ins), LookupAll(idToValue, controls));
        op.Passed? && operations == old(operations) + [op.value] && r.value == OperationResult(|old(operations)|, 0) && Valid()
    {
      var direct :- GetValues(ins);
      var control :- GetValues(controls);
      ReferencesAreEarlier(idToValue, ins, |operations|);
      ReferencesAreEarlier(idToValue, controls, |operations|);
      MergeRoundTrip(direct, control);
      var op :- CreateMerge(direct, control);
      var v := AddOperation(op);
      return Passed(v);
    }

    method MakeTagTransformOperation(node: nat, rule: string, entries: map<string, nat>) returns (r: Checked<Value>)
      requires Valid()
      modifies this`operations
      ensures r.Passed? <==>
        IsReference(idToValue.Keys, node) && RULE_NAME !in entries && |entries| < INT64_MAX &&
        forall name :: name in entries ==> IsReference(idToValue.Keys, entries[name])
      ensures r.Passed? ==>
        Valid() && r.value == OperationResult(|old(operations)|, 0) &&
        |operations| == |old(operations)| + 1 && operations[..|old(operations)|] == old(operations) &&
        exists preconditions: Preconditions ::
          Enumerates(preconditions, entries, idToValue) && HasDistinctNames(preconditions) &&
          IsTransformOf(operations[|old(operations)|], rule, Lookup(idToValue, node), preconditions)
    {
      hide IsTransformOf, IsTagTransform, HasDistinctNames, Enumerates;
      var preconditions :- GetPreconditionValues(entries);
      var v :- GetValue(node);
      NamesAreDistinct(preconditions, entries, idToValue);
      var op :- CreateTagTransform(rule, v, preconditions);
      TransformIsSqlOperation(op, rule, v, preconditions);
      InputsAreEarlier(op, rule, node, preconditions, entries, idToValue, |operations|);
      var result := AddOperation(op);
      return Passed(result);
    }

    method MakeSqlOutputOperation(v: Value) returns (r: Value)
      requires Valid() && IsEarlier(v, |operations|)
      modifies this`operations
      ensures Valid() && operations == old(operations) + [CreateSqlOutput(v)] && r == OperationResult(|old(operations)|, 0)
    {
      r := AddOperation(CreateSqlOutput(v));
    }

    method DecodeExpression(e: Expression) returns (r: Checked<Value>)
      requires Valid()
      modifies this`operations, this`storages
      ensures r.Passed? <==> IsDecodable(e, idToValue.Keys)
      ensures r.Passed? ==> storages == old(storages) + if e.SourceTableColumn? then {e.columnPath} else {}
      ensures r.Passed? ==>
        Valid() && IsDecoded(e, idToValue, operations, r.value) && IsEarlier(r.value, |operations|) &&
        old(operations) <= operations && |operations| == |old(operations)| + (if e.SourceTableColumn? then 0 else 1) &&
        (!e.SourceTableColumn? ==> r.value == OperationResult(|old(operations)|, 0))
    {
      match e
      case NotSet =>
        return CheckFailed;
      case SourceTableColumn(path) =>
        if path == "" {
          return CheckFailed;
        }
        GetOrCreateStorage(path);
        return Passed(StoredValue(path));
      case Literal(text) =>
        if text == "" {
          return CheckFailed;
        }
        var v := AddOperation(CreateLiteral(text));
        return Passed(v);
      case MergeOperation(ins, controls) =>
        if |ins| < 1 {
          return CheckFailed;
        }
        r := MakeMergeOperation(ins, controls);
      case TagTransform(node, rule, entries) =>
        if node == 0 || rule == "" {
          return CheckFailed;
        }
        r := MakeTagTransformOperation(node, rule, entries);
    }

    /**
     Decodes the expressions in order and marks the last one as the output.
     Fails exactly when there is none or one of them cannot be decoded.
     */
    method DecodeExpressionArena(pairs: seq<IdExpressionPair>) returns (r: Checked<Value>)
      requires idToValue == map[] && operations == []
      modifies this
      ensures r.Passed? <==> pairs != [] && AreDecodable(pairs)
      ensures r.Passed? ==>
        Valid() && operations != [] && r.value == OperationResult(|operations| - 1, 0) &&
        var n := |operations| - 1;
        AreDecoded(pairs, idToValue, operations[..n]) &&
        pairs[|pairs| - 1].id in idToValue && operations[n] == CreateSqlOutput(idToValue[pairs[|pairs| - 1].id])
      ensures r.Passed? ==> storages == old(storages) + Columns(pairs)
    {
      hide AreSqlOperations, IsDecoded, IsPairDecoded, IsDecodable, AreDecodable, Columns, OperationCount;
      NoColumns();
      NothingDecoded();
      for k := 0 to |pairs|
        invariant Valid() && AreDecodable(pairs[..k]) && AreDecoded(pairs[..k], idToValue, operations)
        invariant storages == old(storages) + Columns(pairs[..k])
      {
        var table, ops := idToValue, operations;
        hide AreDecoded;
        KeysAreIds(pairs[..k], table, ops);
        DecodableOneMore(pairs, k);
        var value := DecodeExpression(pairs[k].expression);
        if value.CheckFailed? {
          return CheckFailed;
        }
        var ok := RegisterValue(pairs[k].id, value.value);
        if !ok {
          return CheckFailed;
        }
        assert pairs[..k + 1][..k] == pairs[..k];
        ColumnsOneMore(pairs[..k + 1]);
        DecodedOneMore(pairs[..k + 1], table, ops, operations, value.value);
      }
      assert pairs[..|pairs|] == pairs;
      if pairs == [] {
        return CheckFailed;
      }
      var last := idToValue[pairs[|pairs| - 1].id];
      var output := MakeSqlOutputOperation(last);
      return Passed(output);
    }
  }

  lemma NoColumns()
    ensures Columns([]) == {}
  {
  }

  lemma ColumnsOneMore(pairs: seq<IdExpressionPair>)
    requires pairs != []
    ensures
      var (init, e) := (pairs[..|pairs| - 1], pairs[|pairs| - 1].expression);
      Columns(pairs) == Columns(init) + if e.SourceTableColumn? then {e.columnPath} else {}
  {
    var n := |pairs| - 1;
    forall i | 0 <= i < n
      ensures pairs[..n][i] == pairs[i]
    {
    }
  }

  lemma NothingDecoded()
    ensures AreDecoded([], map[], []) && AreSqlOperations([]) && AreDecodable([])
  {
  }

  lemma KeysAreIds(pairs: seq<IdExpressionPair>, table: ValueTable, ops: seq<Operation>)
    requires AreDecoded(pairs, table, ops)
    ensures table.Keys == Ids(pairs)
  {
  }

  lemma DecodableOneMore(pairs: seq<IdExpressionPair>, k: nat)
    requires k < |pairs| && AreDecodable(pairs[..k])
    ensures AreDecodable(pairs[..k + 1]) <==> IsDecodable(pairs[k].expression, Ids(pairs[..k])) && pairs[k].id !in Ids(pairs[..k])
    ensures AreDecodable(pairs) ==> AreDecodable(pairs[..k + 1])
  {
    hide IsDecodable, Ids;
    var more := pairs[..k + 1];
    forall j | 0 <= j < |more|
      ensures more[j] == pairs[j] && more[..j] == pairs[..j]
      ensures j < k ==> pairs[..k][j] == pairs[j] && pairs[..k][..j] == pairs[..j]
    {
    }
    if IsDecodable(pairs[k].expression, Ids(pairs[..k])) && pairs[k].id !in Ids(pairs[..k]) {
      forall j | 0 <= j < |more|
        ensures IsDecodable(more[j].expression, Ids(more[..j])) && more[j].id !in Ids(more[..j])
      {
        if j < k {
          assert IsDecodable(pairs[..k][j].expression, Ids(pairs[..k][..j]));
        }
      }
    }
    if AreDecodable(more) {
      assert IsDecodable(more[k].expression, Ids(more[..k]));
    }
  }

  lemma OldPairStays(pairs: seq<IdExpressionPair>, k: nat, table: ValueTable, ops: seq<Operation>, id: nat, v: Value, ops': seq<Operation>)
    requires k < |pairs| && IsDecodable(pairs[k].expression, Ids(pairs[..k])) && Ids(pairs[..k]) <= table.Keys
    requires IsPairDecoded(pairs[k], OperationCount(pairs[..k]), table, ops) && id !in table && ops <= ops'
    ensures IsPairDecoded(pairs[k], OperationCount(pairs[..k]), table[id := v], ops')
  {
    hide IsDecoded, Ids, OperationCount;
    DecodedStays(pairs[k].expression, table, ops, table[pairs[k].id], table[id := v], ops', Ids(pairs[..k]));
  }

  lemma NewPairIsDecoded(pair: IdExpressionPair, seen: set<nat>, table: ValueTable, position: nat, v: Value, ops: seq<Operation>)
    requires IsDecodable(pair.expression, seen) && seen <= table.Keys && pair.id !in table
    requires IsDecoded(pair.expression, table, ops, v)
    requires !pair.expression.SourceTableColumn? ==> v == OperationResult(position, 0)
    ensures IsPairDecoded(pair, position, table[pair.id := v], ops)
  {
    hide IsDecoded;
    DecodedStays(pair.expression, table, ops, v, table[pair.id := v], ops, seen);
  }

  /** One more expression has been decoded and registered. */
  lemma DecodedOneMore(pairs: seq<IdExpressionPair>, table: ValueTable, ops: seq<Operation>, ops': seq<Operation>, v: Value)
    requires pairs != [] && AreDecodable(pairs)
    requires
      var (init, last) := (pairs[..|pairs| - 1], pairs[|pairs| - 1]);
      AreDecoded(init, table, ops) && last.id !in table && IsDecoded(last.expression, table, ops', v) &&
      ops <= ops' && |ops'| == |ops| + (if last.expression.SourceTableColumn? then 0 else 1) &&
      (!last.expression.SourceTableColumn? ==> v == OperationResult(|ops|, 0))
    ensures AreDecoded(pairs, table[pairs[|pairs| - 1].id := v], ops')
  {
    hide IsDecoded, IsPairDecoded, IsDecodable, Ids;
    var n := |pairs| - 1;
    var last := pairs[n];
    forall k | 0 <= k < |pairs|
      ensures IsPairDecoded(pairs[k], OperationCount(pairs[..k]), table[last.id := v], ops')
    {
      assert IsDecodable(pairs[k].expression, Ids(pairs[..k]));
      if k < n {
        assert pairs[..n][k] == pairs[k] && pairs[..n][..k] == pairs[..k];
        IdsOfPrefix(pairs[..n], k);
        OldPairStays(pairs, k, table, ops, last.id, v, ops');
      } else {
        NewPairIsDecoded(last, Ids(pairs[..n]), table, |ops|, v, ops');
      }
    }
    IdsOneMore(pairs);
  }

  lemma IdsOfPrefix(pairs: seq<IdExpressionPair>, k: nat)
    requires k <= |pairs|
    ensures Ids(pairs[..k]) <= Ids(pairs)
  {
  }

  lemma IdsOneMore(pairs: seq<IdExpressionPair>)
    requires pairs != []
    ensures Ids(pairs) == Ids(pairs[..|pairs| - 1]) + {pairs[|pairs| - 1].id}
  {
  }

  /** An enumeration of a map covers all of it. */
  lemma {:induction false} EnumerationCovers(preconditions: Preconditions, entries: map<string, nat>, table: ValueTable, name: string)
    requires Enumerates(preconditions, entries, table) && name in entries
    ensures HasName(preconditions, name)
  {
    if !HasName(preconditions, name) {
      var names := set i | 0 <= i < |preconditions| :: preconditions[i].0;
      DistinctNamesCount(preconditions);
      assert names <= entries.Keys - {name};
      SubsetSize(names, entries.Keys - {name});
    }
  }

  lemma SubsetSize<T>(a: set<T>, b: set<T>)
    requires a <= b
    ensures |a| <= |b|
  {
    assert b == a + (b - a);
  }

  lemma {:induction false} DistinctNamesCount(preconditions: Preconditions)
    requires HasDistinctEntries(preconditions)
    ensures |set i | 0 <= i < |preconditions| :: preconditions[i].0| == |preconditions|
  {
    var names := set i | 0 <= i < |preconditions| :: preconditions[i].0;
    if preconditions != [] {
      var n := |preconditions| - 1;
      var init := preconditions[..n];
      DistinctNamesCount(init);
      var before := set i | 0 <= i < |init| :: init[i].0;
      assert names == before + {preconditions[n].0} by {
        forall name | name in names
          ensures name in before + {preconditions[n].0}
        {
          var i :| 0 <= i < |preconditions| && preconditions[i].0 == name;
          assert i < n ==> init[i].0 == name;
        }
      }
    }
  }

  lemma NamesAreDistinct(preconditions: Preconditions, entries: map<string, nat>, table: ValueTable)
    requires Enumerates(preconditions, entries, table)
    ensures HasDistinctNames(preconditions) <==> RULE_NAME !in entries
    ensures |preconditions| == |entries|
  {
    if RULE_NAME in entries {
      EnumerationCovers(preconditions, entries, table, RULE_NAME);
    }
  }

  lemma TransformIsSqlOperation(op: Operation, rule: string, v: Value, preconditions: Preconditions)
    requires IsTransformOf(op, rule, v, preconditions) && HasDistinctNames(preconditions)
    ensures IsSqlOperation(op)
  {
  }

  lemma InputsAreEarlier(op: Operation, rule: string, node: nat, preconditions: Preconditions,
                         entries: map<string, nat>, table: ValueTable, count: nat)
    requires IsTable(table, count) && IsReference(table.Keys, node) && Enumerates(preconditions, entries, table)
    requires forall name :: name in entries ==> IsReference(table.Keys, entries[name])
    requires IsTransformOf(op, rule, Lookup(table, node), preconditions)
    ensures AreEarlier(op.inputs, count)
  {
    forall i | 0 <= i < |op.inputs|
      ensures IsEarlier(op.inputs[i], count)
    {
      if i > 0 {
        assert op.inputs[i - 1 + 1] == preconditions[i - 1].1;
        assert IsReference(table.Keys, entries[preconditions[i - 1].0]);
      }
    }
  }

  // ---------- The decoded module ----------

  function Positions(n: nat): (r: seq<OpId>)
    ensures |r| == n && forall i :: 0 <= i < n ==> r[i] == i
  {
    seq(n, i requires 0 <= i < n => i)
  }

  function GlobalModule(ops: seq<Operation>): Module {
    Module([Positions(|ops|)], map i | 0 <= i < |ops| :: ops[i], [map[]])
  }

  /** `m` has an operation for every expression that is not a column, and one that outputs the last expression. */
  ghost predicate IsModuleOf(pairs: seq<IdExpressionPair>, m: Module, table: ValueTable, ops: seq<Operation>) {
    pairs != [] && m == GlobalModule(ops + [CreateSqlOutput(Lookup(table, pairs[|pairs| - 1].id))]) &&
    AreDecoded(pairs, table, ops)
  }

  /** Every operation before the output comes from an expression. */
  lemma {:induction false} DecodedFrom(pairs: seq<IdExpressionPair>, o: nat) returns (k: nat)
    requires o < OperationCount(pairs)
    ensures k < |pairs| && !pairs[k].expression.SourceTableColumn? && OperationCount(pairs[..k]) == o
  {
    var n := |pairs| - 1;
    if o < OperationCount(pairs[..n]) {
      k := DecodedFrom(pairs[..n], o);
      assert pairs[..n][..k] == pairs[..k];
    } else {
      k := n;
    }
  }

  /** A decoded module is acyclic: its list of operations is an evaluation order. */
  lemma DecodedModuleIsOrdered(ops: seq<Operation>)
    requires AreSqlOperations(ops)
    ensures IsWellFormed(GlobalModule(ops)) && IsOrder(GlobalModule(ops), Positions(|ops|))
  {
    var m, order := GlobalModule(ops), Positions(|ops|);
    forall o: OpId
      ensures o in m.operations <==> o in order
    {
      if o < |ops| {
        assert order[o] == o;
      }
    }
    assert m.blocks[0] == order;
    forall k, v | 0 <= k < |order| && v in m.operations[order[k]].inputs
      ensures IsAvailable(m, Elements(order[..k]), v)
    {
      var i :| 0 <= i < |ops[k].inputs| && ops[k].inputs[i] == v;
      assert IsEarlier(ops[k].inputs[i], k);
      if v.OperationResult? {
        assert order[..k][v.op] == v.op;
        assert IsSqlOperation(ops[v.op]);
      }
    }
  }
}
