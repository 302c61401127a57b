/**
 Relation declarations of the lowered program.

 A relation that is delegated to depth `d` needs a declaration for each of its
 forms `canSay_ ... canSay_ name` with 1 to `d` prefixes.  The pass builds each
 form from an earlier entry of one vector that is shared by all relations, at
 an index that does not depend on the relation.  This module says exactly when
 that yields the declarations the program needs.
 */
module Declarations {
  import opened Names
  import opened Seqs
  import opened Datalog

  /** Attributes get the principal they are about as an additional first parameter. */
  function TransformAttribute(d: RelationDeclaration): RelationDeclaration {
    if !d.isAttribute then d
    else RelationDeclaration(d.name, false, [Argument("attribute_prin", PrincipalType)] + d.arguments)
  }

  function TransformAttributes(ds: seq<RelationDeclaration>): (r: seq<RelationDeclaration>)
    ensures |r| == |ds|
  {
    seq(|ds|, i requires 0 <= i < |ds| => TransformAttribute(ds[i]))
  }

  /** The first declaration of each name. */
  function TypeEnvironment(ds: seq<RelationDeclaration>): map<string, RelationDeclaration> {
    if ds == [] then map[]
    else
      var env := TypeEnvironment(ds[..|ds| - 1]);
      var d := ds[|ds| - 1];
      if d.name in env then env else env[d.name := d]
  }

  /** The declaration built from `inner` at depth `i`. */
  function CanSayDeclaration(i: nat, inner: RelationDeclaration): RelationDeclaration {
    RelationDeclaration(CAN_SAY + inner.name, false,
                        [Argument("delegatee" + Decimal(i), PrincipalType)] + inner.arguments)
  }

  /** A declared relation and the depth to which it is delegated. */
  datatype Delegated = Delegated(base: RelationDeclaration, depth: nat)

  /** The shared vector after the depths 1 to `k` of one relation have been appended to `acc`. */
  function AppendDepths(acc: seq<RelationDeclaration>, base: RelationDeclaration, k: nat): (r: seq<RelationDeclaration>)
    ensures |r| == |acc| + k
  {
    if k == 0 then acc
    else
      var before := AppendDepths(acc, base, k - 1);
      before + [CanSayDeclaration(k, if k == 1 then base else before[k - 2])]
  }

  /** The shared vector after all relations in `work` have been processed, in this order. */
  function CanSayDeclarations(work: seq<Delegated>): seq<RelationDeclaration> {
    if work == [] then []
    else
      var last := work[|work| - 1];
      AppendDepths(CanSayDeclarations(work[..|work| - 1]), last.base, last.depth)
  }

  /** The relations to process when the depth table is visited in the order of `names`. */
  function Work(env: map<string, RelationDeclaration>, depths: map<string, nat>, names: seq<string>): seq<Delegated>
    requires forall n :: n in names ==> n in depths
  {
    if names == [] then []
    else
      var before := Work(env, depths, names[..|names| - 1]);
      var n := names[|names| - 1];
      if depths[n] == 0 || n !in env then before else before + [Delegated(env[n], depths[n])]
  }

  function SaysDeclaration(d: RelationDeclaration): RelationDeclaration {
    RelationDeclaration(SAYS + d.name, false, [Argument("speaker", PrincipalType)] + d.arguments)
  }

  function SaysDeclarations(ds: seq<RelationDeclaration>): (r: seq<RelationDeclaration>)
    ensures |r| == |ds|
  {
    seq(|ds|, i requires 0 <= i < |ds| => SaysDeclaration(ds[i]))
  }

  const CAN_ACT_AS_DECLARATION: RelationDeclaration :=
    RelationDeclaration(CAN_ACT_AS, false, [Argument("p1", PrincipalType), Argument("p2", PrincipalType)])

  /** The declarations of all relations, when the depth table is visited in the order of `names`. */
  function LoweredDeclarations(ds: seq<RelationDeclaration>, depths: map<string, nat>, names: seq<string>)
    : seq<RelationDeclaration>
    requires forall n :: n in names ==> n in depths
  {
    var transformed := TransformAttributes(ds);
    var canSay := CanSayDeclarations(Work(TypeEnvironment(transformed), depths, names));
    SaysDeclarations(transformed + canSay + [CAN_ACT_AS_DECLARATION])
  }

  // ---------- What is needed ----------

  function CanSayName(i: nat, name: string): string {
    if i == 0 then name else CAN_SAY + CanSayName(i - 1, name)
  }

  /** The declaration that the `i`-fold delegation of a relation needs. */
  function Form(base: RelationDeclaration, i: nat): RelationDeclaration {
    if i == 0 then base else CanSayDeclaration(i, Form(base, i - 1))
  }

  function Forms(d: Delegated): (r: seq<RelationDeclaration>)
    ensures |r| == d.depth
  {
    seq(d.depth, i requires 0 <= i < d.depth => Form(d.base, i + 1))
  }

  function AllForms(work: seq<Delegated>): seq<RelationDeclaration> {
    if work == [] then [] else AllForms(work[..|work| - 1]) + Forms(work[|work| - 1])
  }

  /** Only the relation that is processed first is delegated more than once. */
  predicate OnlyFirstIsDeep(work: seq<Delegated>) {
    forall j :: 1 <= j < |work| ==> work[j].depth <= 1
  }

  lemma {:induction false} FirstRelationIsExact(base: RelationDeclaration, k: nat)
    ensures AppendDepths([], base, k) == Forms(Delegated(base, k))
  {
    if k > 0 {
      FirstRelationIsExact(base, k - 1);
      var before := AppendDepths([], base, k - 1);
      assert Forms(Delegated(base, k)) == before + [Form(base, k)];
      if k > 1 {
        assert before[k - 2] == Form(base, k - 1);
      } else {
        assert Form(base, 1) == CanSayDeclaration(1, Form(base, 0));
      }
    }
  }

  /** When only the first relation is deep, the shared vector lists exactly the needed forms. */
  lemma {:induction false} ShallowWorkIsExact(work: seq<Delegated>)
    requires OnlyFirstIsDeep(work)
    ensures CanSayDeclarations(work) == AllForms(work)
  {
    if work != [] {
      var init, last := work[..|work| - 1], work[|work| - 1];
      ShallowWorkIsExact(init);
      var acc := CanSayDeclarations(init);
      if init == [] {
        FirstRelationIsExact(last.base, last.depth);
        assert [] + Forms(last) == Forms(last);
      } else if last.depth == 1 {
        assert AppendDepths(acc, last.base, 0) == acc;
        assert Form(last.base, 1) == CanSayDeclaration(1, Form(last.base, 0));
        assert Forms(last) == [Form(last.base, 1)];
      } else {
        assert Forms(last) == [];
      }
    }
  }

  // ---------- What goes wrong otherwise ----------

  /** The number of leading `canSay_` prefixes. */
  function Level(name: string): nat {
    if StartsWith(name, CAN_SAY) then 1 + Level(name[|CAN_SAY|..]) else 0
  }

  /** The name without its leading `canSay_` prefixes. */
  function Root(name: string): string {
    if StartsWith(name, CAN_SAY) then Root(name[|CAN_SAY|..]) else name
  }

  lemma {:induction false} CanSayNameLevel(i: nat, name: string)
    requires !StartsWith(name, CAN_SAY)
    ensures Level(CanSayName(i, name)) == i && Root(CanSayName(i, name)) == name
  {
    if i > 0 {
      CanSayNameLevel(i - 1, name);
      assert (CAN_SAY + CanSayName(i - 1, name))[|CAN_SAY|..] == CanSayName(i - 1, name);
    }
  }

  lemma DeeperName(name: string)
    ensures Level(CAN_SAY + name) == Level(name) + 1 && Root(CAN_SAY + name) == Root(name)
  {
    assert (CAN_SAY + name)[|CAN_SAY|..] == name;
  }

  lemma {:induction false} FormName(base: RelationDeclaration, i: nat)
    ensures Form(base, i).name == CanSayName(i, base.name)
  {
    if i > 0 {
      FormName(base, i - 1);
    }
  }

  /** Relations are declared under distinct names that do not look like delegations. */
  predicate WellNamed(work: seq<Delegated>) {
    (forall j :: 0 <= j < |work| ==> !StartsWith(work[j].base.name, CAN_SAY) && work[j].depth >= 1) &&
    (forall i, j :: 0 <= i < j < |work| ==> work[i].base.name != work[j].base.name)
  }

  /** No entry for a relation other than `first` is nested deeper than its position, or than `bound - 1`. */
  predicate StaysShallow(ds: seq<RelationDeclaration>, first: string, bound: nat) {
    forall p :: 0 <= p < |ds| && Root(ds[p].name) != first ==>
      Level(ds[p].name) <= p && (Level(ds[p].name) < bound || Level(ds[p].name) == 1)
  }

  /** Processing a relation that is not the first one keeps its entries shallow. */
  lemma {:induction false} AppendStaysShallow(acc: seq<RelationDeclaration>, base: RelationDeclaration, k: nat,
                                              first: string, bound: nat)
    requires |acc| >= 1 && k <= bound && !StartsWith(base.name, CAN_SAY)
    requires StaysShallow(acc, first, bound)
    ensures StaysShallow(AppendDepths(acc, base, k), first, bound)
  {
    if k > 0 {
      AppendStaysShallow(acc, base, k - 1, first, bound);
      var before := AppendDepths(acc, base, k - 1);
      var inner := if k == 1 then base else before[k - 2];
      DeeperName(inner.name);
      if k == 1 {
        assert Level(base.name) == 0;
      }
    }
  }

  /** All entries for the first relation have the first relation's name as root. */
  lemma {:induction false} FirstRelationRoots(base: RelationDeclaration, k: nat)
    requires !StartsWith(base.name, CAN_SAY)
    ensures forall p :: 0 <= p < k ==> Root(AppendDepths([], base, k)[p].name) == base.name
  {
    FirstRelationIsExact(base, k);
    forall p | 0 <= p < k
      ensures Root(AppendDepths([], base, k)[p].name) == base.name
    {
      FormName(base, p + 1);
      CanSayNameLevel(p + 1, base.name);
    }
  }

  lemma {:induction false} WorkStaysShallow(work: seq<Delegated>, bound: nat)
    requires work != [] && WellNamed(work)
    requires forall j :: 1 <= j < |work| ==> work[j].depth <= bound
    ensures |CanSayDeclarations(work)| >= 1
    ensures StaysShallow(CanSayDeclarations(work), work[0].base.name, bound)
  {
    var init, last := work[..|work| - 1], work[|work| - 1];
    if |work| == 1 {
      assert CanSayDeclarations(init) == [];
      FirstRelationRoots(last.base, last.depth);
    } else {
      WorkStaysShallow(init, bound);
      AppendStaysShallow(CanSayDeclarations(init), last.base, last.depth, work[0].base.name, bound);
    }
  }

  /** The position, after the first, of a deepest relation. */
  lemma {:induction false} Deepest(work: seq<Delegated>) returns (j: nat)
    requires |work| >= 2
    ensures 1 <= j < |work| && forall i :: 1 <= i < |work| ==> work[i].depth <= work[j].depth
  {
    if |work| == 2 {
      j := 1;
    } else {
      j := Deepest(work[..|work| - 1]);
      if work[j].depth < work[|work| - 1].depth {
        j := |work| - 1;
      }
    }
  }

  /** Some form that `d` needs has no declaration in `ds`. */
  predicate Misses(ds: seq<RelationDeclaration>, d: Delegated) {
    exists i :: 1 <= i <= d.depth && forall p :: 0 <= p < |ds| ==> ds[p].name != CanSayName(i, d.base.name)
  }

  lemma DeepWorkMisses(work: seq<Delegated>)
    requires WellNamed(work) && !OnlyFirstIsDeep(work)
    ensures exists j :: 0 <= j < |work| && Misses(CanSayDeclarations(work), work[j])
  {
    var j := Deepest(work);
    var d := work[j];
    var ds := CanSayDeclarations(work);
    WorkStaysShallow(work, d.depth);
    CanSayNameLevel(d.depth, d.base.name);
    assert d.depth >= 2 && d.base.name != work[0].base.name;
    forall p | 0 <= p < |ds|
      ensures ds[p].name != CanSayName(d.depth, d.base.name)
    {
    }
    assert Misses(ds, d);
  }

  lemma {:induction false} FormsAreInAllForms(work: seq<Delegated>, j: nat, i: nat)
    requires j < |work| && 1 <= i <= work[j].depth
    ensures Form(work[j].base, i) in AllForms(work)
  {
    var n := |work| - 1;
    var form := Form(work[j].base, i);
    InConcat(AllForms(work[..n]), Forms(work[n]), form);
    if j < n {
      FormsAreInAllForms(work[..n], j, i);
    } else {
      assert Forms(work[n])[i - 1] == form;
    }
  }

  /**
   The pass declares every form that is needed exactly when no relation but
   the one it happens to process first is delegated more than once.
   */
  lemma DeclarationsCoverIff(work: seq<Delegated>)
    requires WellNamed(work)
    ensures OnlyFirstIsDeep(work) <==> forall j :: 0 <= j < |work| ==> !Misses(CanSayDeclarations(work), work[j])
  {
    if OnlyFirstIsDeep(work) {
      ShallowWorkIsExact(work);
      var ds := CanSayDeclarations(work);
      forall j, i | 0 <= j < |work| && 1 <= i <= work[j].depth
        ensures exists p :: 0 <= p < |ds| && ds[p].name == CanSayName(i, work[j].base.name)
      {
        FormsAreInAllForms(work, j, i);
        FormName(work[j].base, i);
        var p := IndexOf(ds, Form(work[j].base, i));
      }
    } else {
      DeepWorkMisses(work);
    }
  }

  /**
   Whenever a relation delegated once is processed before one delegated twice,
   the pass declares a second form of the former instead of the latter.
   */
  lemma SecondRelationIsMisdeclared(first: RelationDeclaration, second: RelationDeclaration)
    ensures CanSayDeclarations([Delegated(first, 1), Delegated(second, 2)]) ==
            [Form(first, 1), Form(second, 1), Form(first, 2)]
  {
    var work := [Delegated(first, 1), Delegated(second, 2)];
    assert work[..1] == [work[0]] && [work[0]][..0] == [];
    assert Form(first, 1) == CanSayDeclaration(1, Form(first, 0));
    assert Form(second, 1) == CanSayDeclaration(1, Form(second, 0));
    assert CanSayDeclarations([work[0]]) == AppendDepths([], first, 1);
    assert AppendDepths([], first, 0) == [];
    assert AppendDepths([], first, 1) == [Form(first, 1)];
    assert AppendDepths([Form(first, 1)], second, 0) == [Form(first, 1)];
    assert AppendDepths([Form(first, 1)], second, 1) == [Form(first, 1), Form(second, 1)];
    assert CanSayDeclarations(work) == AppendDepths([Form(first, 1)], second, 2);
  }
}
