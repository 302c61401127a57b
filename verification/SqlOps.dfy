/** The operations of the SQL intermediate representation: how they are created and read back. */
module SqlOps {
  import opened Checks
  import opened IrModule

  const LITERAL_OP := "sql.literal"
  const MERGE_OP := "sql.merge"
  const TAG_TRANSFORM_OP := "sql.tag_transform"
  const SQL_OUTPUT_OP := "sql.sql_output"

  const LITERAL_STRING := "literal_string"
  const CONTROL_INPUT_START_INDEX := "control_input_start_index"
  const RULE_NAME := "rule_name"

  const INTERSECT_ITAG_RULE := "##raksha_internal#intersect_itag_rule"
  const UNION_ITAG_RULE := "##raksha_internal#union_itag_rule"

  const INT64_MAX: nat := 0x7fff_ffff_ffff_ffff

  // ---------- Literals and outputs ----------

  function CreateLiteral(text: string): Operation {
    Operation(LITERAL_OP, [], 1, map[LITERAL_STRING := StringAttribute(text)])
  }

  function CreateSqlOutput(v: Value): Operation {
    Operation(SQL_OUTPUT_OP, [v], 1, map[])
  }

  // ---------- Merges ----------

  /** Direct inputs come first; an attribute remembers where the control inputs start. */
  function CreateMerge(direct: seq<Value>, control: seq<Value>): Checked<Operation> {
    if direct == [] && control == [] then CheckFailed
    else if |direct| >= INT64_MAX then CheckFailed
    else Passed(Operation(MERGE_OP, direct + control, 1, map[CONTROL_INPUT_START_INDEX := Int64Attribute(|direct|)]))
  }

  function GetControlInputStartIndex(op: Operation): Checked<nat> {
    if CONTROL_INPUT_START_INDEX !in op.attributes then CheckFailed
    else
      var attribute := op.attributes[CONTROL_INPUT_START_INDEX];
      if attribute.Int64Attribute? && attribute.number >= 0 then Passed(attribute.number) else CheckFailed
  }

  /** What `CreateMerge` guarantees of an operation. */
  predicate IsMerge(op: Operation) {
    var start := GetControlInputStartIndex(op);
    op.name == MERGE_OP && op.outputs == 1 && start.Passed? && start.value <= |op.inputs|
  }

  function GetDirectInputs(op: Operation): seq<Value>
    requires IsMerge(op)
  {
    op.inputs[..GetControlInputStartIndex(op).value]
  }

  function GetControlInputs(op: Operation): seq<Value>
    requires IsMerge(op)
  {
    op.inputs[GetControlInputStartIndex(op).value..]
  }

  /** A merge that can be created gives its two kinds of inputs back. */
  lemma MergeRoundTrip(direct: seq<Value>, control: seq<Value>)
    ensures CreateMerge(direct, control).Passed? <==> direct + control != [] && |direct| < 9223372036854775807
    ensures
      var op := CreateMerge(direct, control);
      op.Passed? ==> IsMerge(op.value) && GetDirectInputs(op.value) == direct && GetControlInputs(op.value) == control
  {
  }

  // ---------- Tag transforms ----------

  type Preconditions = seq<(string, Value)>

  predicate HasName(preconditions: Preconditions, name: string) {
    exists i :: 0 <= i < |preconditions| && preconditions[i].0 == name
  }

  /** Names differ from each other and from the attribute of the rule name. */
  predicate HasDistinctNames(preconditions: Preconditions) {
    (forall i :: 0 <= i < |preconditions| ==> preconditions[i].0 != RULE_NAME) &&
    (forall i, j :: 0 <= i < j < |preconditions| ==> preconditions[i].0 != preconditions[j].0)
  }

  /** The first input is the transformed value; each precondition has an input that an attribute points to. */
  ghost predicate IsTransformOf(op: Operation, rule: string, v: Value, preconditions: Preconditions) {
    op.name == TAG_TRANSFORM_OP && op.outputs == 1 &&
    |op.inputs| == |preconditions| + 1 && op.inputs[0] == v &&
    (forall i :: 0 <= i < |preconditions| ==> op.inputs[i + 1] == preconditions[i].1) &&
    (forall name :: name in op.attributes <==> name == RULE_NAME || HasName(preconditions, name)) &&
    op.attributes[RULE_NAME] == StringAttribute(rule) &&
    (forall i :: 0 <= i < |preconditions| ==> op.attributes[preconditions[i].0] == Int64Attribute(i + 1))
  }

  /** Fails exactly when a name is used twice or clashes with the rule name attribute. */
  method CreateTagTransform(rule: string, v: Value, preconditions: Preconditions) returns (r: Checked<Operation>)
    ensures r.Passed? <==> HasDistinctNames(preconditions) && |preconditions| < 9223372036854775807
    ensures r.Passed? ==> IsTransformOf(r.value, rule, v, preconditions)
  {
    var inputs := [v];
    var attributes := map[RULE_NAME := StringAttribute(rule)];
    if |preconditions| >= INT64_MAX {
      return CheckFailed;
    }
    for k := 0 to |preconditions|
      invariant HasDistinctNames(preconditions[..k])
      invariant IsTransformOf(Operation(TAG_TRANSFORM_OP, inputs, 1, attributes), rule, v, preconditions[..k])
    {
      var name := preconditions[k].0;
      assert preconditions[..k + 1] == preconditions[..k] + [preconditions[k]];
      if name in attributes {
        if name != RULE_NAME {
          var i :| 0 <= i < k && preconditions[..k][i].0 == name;
          assert preconditions[i].0 == name;
        }
        return CheckFailed;
      }
      TransformGrows(Operation(TAG_TRANSFORM_OP, inputs, 1, attributes), rule, v, preconditions, k);
      inputs := inputs + [preconditions[k].1];
      attributes := attributes[name := Int64Attribute(k + 1)];
    }
    assert preconditions[..|preconditions|] == preconditions;
    return Passed(Operation(TAG_TRANSFORM_OP, inputs, 1, attributes));
  }

  lemma TransformGrows(before: Operation, rule: string, v: Value, preconditions: Preconditions, k: nat)
    requires k < |preconditions| && IsTransformOf(before, rule, v, preconditions[..k])
    requires preconditions[k].0 !in before.attributes
    ensures
      var op := before.(inputs := before.inputs + [preconditions[k].1],
                        attributes := before.attributes[preconditions[k].0 := Int64Attribute(k + 1)]);
      IsTransformOf(op, rule, v, preconditions[..k + 1])
  {
  }

  /** What `CreateTagTransform` guarantees of an operation: its attributes can be read. */
  predicate IsTagTransform(op: Operation) {
    op.name == TAG_TRANSFORM_OP && op.outputs == 1 && op.inputs != [] &&
    RULE_NAME in op.attributes && op.attributes[RULE_NAME].StringAttribute? &&
    forall name :: name in op.attributes && name != RULE_NAME ==>
      op.attributes[name].Int64Attribute? && 1 <= op.attributes[name].number < |op.inputs|
  }

  function GetRuleName(op: Operation): string
    requires IsTagTransform(op)
  {
    op.attributes[RULE_NAME].text
  }

  /** For every precondition, the index of its input. */
  function PreconditionIndices(op: Operation): map<string, nat>
    requires IsTagTransform(op)
  {
    map name | name in op.attributes && name != RULE_NAME :: op.attributes[name].number
  }

  /** Visits the attributes in an arbitrary order; fails on one that is not the index of a further input. */
  method GetPreconditionInputIndices(op: Operation) returns (r: Checked<map<string, nat>>)
    requires op.name == TAG_TRANSFORM_OP && op.outputs == 1 && op.inputs != []
    requires RULE_NAME in op.attributes && op.attributes[RULE_NAME].StringAttribute?
    ensures r.Passed? <==> IsTagTransform(op)
    ensures r.Passed? ==> r.value == PreconditionIndices(op)
  {
    var result: map<string, nat> := map[];
    var left := op.attributes.Keys;
    while left != {}
      invariant left <= op.attributes.Keys
      invariant forall name :: name in result <==> name in op.attributes.Keys - left && name != RULE_NAME
      invariant forall name :: name in result ==>
        op.attributes[name].Int64Attribute? && 1 <= op.attributes[name].number < |op.inputs| &&
        result[name] == op.attributes[name].number
      decreases |left|
    {
      var name :| name in left;
      left := left - {name};
      if name != RULE_NAME {
        var attribute := op.attributes[name];
        if !attribute.Int64Attribute? || !(1 <= attribute.number < |op.inputs|) {
          return CheckFailed;
        }
        result := result[name := attribute.number];
      }
    }
    return Passed(result);
  }

  /** A created transform gives back its rule name and, for each precondition, an input holding its value. */
  lemma TransformRoundTrip(op: Operation, rule: string, v: Value, preconditions: Preconditions)
    requires IsTransformOf(op, rule, v, preconditions) && HasDistinctNames(preconditions)
    ensures IsTagTransform(op) && GetRuleName(op) == rule
    ensures forall i :: 0 <= i < |preconditions| ==>
      preconditions[i].0 in PreconditionIndices(op) &&
      op.inputs[PreconditionIndices(op)[preconditions[i].0]] == preconditions[i].1
    ensures forall name :: name in PreconditionIndices(op) <==> HasName(preconditions, name)
  {
  }
}
