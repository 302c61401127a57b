/**
 Declarations of the lowered program against the predicates its rules use: when
 every predicate has exactly one declaration, with its arity, however the depth
 table happens to be ordered.
 */
module DeclarationCover {
  import opened Names
  import opened Seqs
  import opened Datalog
  import opened AuthLogic
  import opened Lowering
  import opened Declarations
  import opened LoweringPass
  import opened DeclarationUses
  import LC = LoweringCorrect

  ghost function ProgramWork(prog: AuthLogic.Program, names: seq<string>): seq<Delegated>
    requires IsVisit(Depths(prog).Keys, names)
  {
    Work(TypeEnvironment(TransformAttributes(prog.declarations)), Depths(prog), names)
  }

  // ---------- How often a form is declared ----------

  predicate IsDeclared(ds: seq<RelationDeclaration>, n: string) {
    exists i :: 0 <= i < |ds| && ds[i].name == n
  }

  lemma {:induction false} CountIsPositive(ds: seq<RelationDeclaration>, name: string)
    ensures Count(ds, name) >= 1 <==> IsDeclared(ds, name)
  {
    if ds != [] {
      var init, d := ds[..|ds| - 1], ds[|ds| - 1];
      CountIsPositive(init, name);
      if i :| 0 <= i < |init| && init[i].name == name {
        assert ds[i].name == name;
      }
    }
  }

  lemma CountActAs(k: nat, n: string)
    requires !StartsWith(n, CAN_SAY)
    ensures Count([CAN_ACT_AS_DECLARATION], CanSayName(k, n)) == if k == 0 && n == CAN_ACT_AS then 1 else 0
  {
    assert [CAN_ACT_AS_DECLARATION][..0] == [];
    ActAsIsNoForm();
    if CanSayName(k, n) == CAN_ACT_AS {
      FormsDiffer(k, n, 0, CAN_ACT_AS);
    }
  }

  lemma ActAsIsNoForm()
    ensures !StartsWith(CAN_ACT_AS, CAN_SAY)
  {
    assert CAN_ACT_AS[3] != CAN_SAY[3];
  }

  /** A form is declared with its relation, with canActAs, or in the vector that all relations share. */
  lemma CountLowered(prog: AuthLogic.Program, names: seq<string>, k: nat, n: string)
    requires WellDeclared(prog.declarations) && !StartsWith(n, CAN_SAY) && IsVisit(Depths(prog).Keys, names)
    ensures Count(LoweredDeclarations(prog.declarations, Depths(prog), names), SAYS + CanSayName(k, n)) ==
      (if k == 0 && (IsDeclared(prog.declarations, n) || n == CAN_ACT_AS) then 1 else 0) +
      Count(CanSayDeclarations(ProgramWork(prog, names)), CanSayName(k, n))
  {
    var ds := TransformAttributes(prog.declarations);
    var shared := CanSayDeclarations(ProgramWork(prog, names));
    var target := CanSayName(k, n);
    TransformKeepsNames(prog.declarations);
    CountSays(ds + shared + [CAN_ACT_AS_DECLARATION], target);
    CountConcat(ds + shared, [CAN_ACT_AS_DECLARATION], target);
    CountConcat(ds, shared, target);
    CountDeclared(ds, k, n);
    CountActAs(k, n);
    SameNames(prog.declarations, n);
  }

  lemma SameNames(ds: seq<RelationDeclaration>, n: string)
    ensures IsDeclared(TransformAttributes(ds), n) <==> IsDeclared(ds, n)
  {
    var transformed := TransformAttributes(ds);
    forall i | 0 <= i < |ds|
      ensures transformed[i].name == ds[i].name
    {
    }
  }

  /** When only the relation visited first is deep, the shared vector has each recorded form once. */
  lemma CountShallow(prog: AuthLogic.Program, names: seq<string>, k: nat, n: string)
    requires WellDeclared(prog.declarations) && !StartsWith(n, CAN_SAY) && IsVisit(Depths(prog).Keys, names)
    requires OnlyFirstIsDeep(ProgramWork(prog, names))
    ensures Count(CanSayDeclarations(ProgramWork(prog, names)), CanSayName(k, n)) ==
      if k > 0 && IsDeclared(prog.declarations, n) && IsRecorded(prog, n, k) then 1 else 0
  {
    var ds := TransformAttributes(prog.declarations);
    var env, depths := TypeEnvironment(ds), Depths(prog);
    var work := ProgramWork(prog, names);
    TransformKeepsNames(prog.declarations);
    WorkIsWellNamed(ds, depths, names);
    ShallowWorkIsExact(work);
    CountAllForms(work, k, n);
    SameNames(prog.declarations, n);
    hide CanSayDeclarations, AllForms, Work, Count, TransformAttributes;
    if k > 0 && IsDeclared(ds, n) && IsRecorded(prog, n, k) {
      var i :| 0 <= i < |ds| && ds[i].name == n;
      EnvironmentFinds(ds, i);
      var j := WorkHasEntry(env, depths, names, n);
      assert Delegates(work, k, n);
    }
    if j :| 0 <= j < |work| && work[j].base.name == n && 1 <= k <= work[j].depth {
      var i := WorkEntries(env, depths, names, j);
      EnvironmentMapsNames(ds, names[i]);
      var l := IndexOf(ds, env[names[i]]);
      assert names[i] in names;
    }
  }

  /** Otherwise some recorded form of a declared relation is not declared at all. */
  lemma DeepOrderMisses(prog: AuthLogic.Program, names: seq<string>) returns (d: RelationDeclaration, k: nat)
    requires WellDeclared(prog.declarations) && IsVisit(Depths(prog).Keys, names)
    requires !OnlyFirstIsDeep(ProgramWork(prog, names))
    ensures d in prog.declarations && k >= 1 && IsRecorded(prog, d.name, k)
    ensures Count(LoweredDeclarations(prog.declarations, Depths(prog), names), SAYS + CanSayName(k, d.name)) == 0
  {
    var ds := TransformAttributes(prog.declarations);
    var env, depths := TypeEnvironment(ds), Depths(prog);
    var work := ProgramWork(prog, names);
    TransformKeepsNames(prog.declarations);
    WorkIsWellNamed(ds, depths, names);
    DeepWorkMisses(work);
    var j :| 0 <= j < |work| && Misses(CanSayDeclarations(work), work[j]);
    var i := WorkEntries(env, depths, names, j);
    EnvironmentMapsNames(ds, names[i]);
    assert names[i] in names;
    var l := IndexOf(ds, env[names[i]]);
    d := prog.declarations[l];
    k :| 1 <= k <= work[j].depth &&
      forall p :: 0 <= p < |CanSayDeclarations(work)| ==> CanSayDeclarations(work)[p].name != CanSayName(k, work[j].base.name);
    CountLowered(prog, names, k, d.name);
    CountIsPositive(CanSayDeclarations(work), CanSayName(k, d.name));
  }

  // ---------- The arguments of a form ----------

  /** The delegatees of a form, the outermost first. */
  function Delegatees(k: nat): (r: seq<Argument>)
    ensures |r| == k
  {
    seq(k, i requires 0 <= i < k => Argument("delegatee" + Decimal(k - i), PrincipalType))
  }

  /** The arguments of a relation; an attribute is about a principal. */
  function OwnArguments(d: RelationDeclaration): seq<Argument> {
    (if d.isAttribute then [Argument("attribute_prin", PrincipalType)] else []) + d.arguments
  }

  /** The speaker, the delegatees, and the arguments of the relation. */
  function FormArguments(d: RelationDeclaration, k: nat): seq<Argument> {
    [Argument("speaker", PrincipalType)] + Delegatees(k) + OwnArguments(d)
  }

  const ACTING := RelationDeclaration("canActAs", false, [Argument("p1", PrincipalType), Argument("p2", PrincipalType)])

  const QUERY_ARGUMENTS := [Argument("dummy_param", CustomType("DummyType"))]

  lemma {:induction false} FormHasDelegatees(base: RelationDeclaration, k: nat)
    ensures Form(base, k).arguments == Delegatees(k) + base.arguments
  {
    if k > 0 {
      FormHasDelegatees(base, k - 1);
      assert Delegatees(k) == [Argument("delegatee" + Decimal(k), PrincipalType)] + Delegatees(k - 1);
    }
  }

  /** A recorded form is among the declarations before they are extended with the speaker. */
  lemma FormIsListed(prog: AuthLogic.Program, names: seq<string>, i: nat, k: nat)
    requires WellDeclared(prog.declarations) && i < |prog.declarations|
    requires IsVisit(Depths(prog).Keys, names) && OnlyFirstIsDeep(ProgramWork(prog, names))
    requires IsRecorded(prog, prog.declarations[i].name, k)
    ensures
      var ds := TransformAttributes(prog.declarations);
      Form(ds[i], k) in ds + CanSayDeclarations(ProgramWork(prog, names)) + [CAN_ACT_AS_DECLARATION]
  {
    hide CanSayDeclarations, TypeEnvironment, Work, AllForms, Forms;
    var ds := TransformAttributes(prog.declarations);
    TransformKeepsNames(prog.declarations);
    var work := ProgramWork(prog, names);
    ShallowWorkIsExact(work);
    InConcat(ds + AllForms(work), [CAN_ACT_AS_DECLARATION], Form(ds[i], k));
    InConcat(ds, AllForms(work), Form(ds[i], k));
    if k == 0 {
      assert Form(ds[i], 0) == ds[i];
    } else {
      EnvironmentFinds(ds, i);
      var j := WorkHasEntry(TypeEnvironment(ds), Depths(prog), names, ds[i].name);
      FormsAreInAllForms(work, j, k);
    }
  }

  /** The declaration of a recorded form has its arguments. */
  lemma FormsHaveTheirArguments(prog: AuthLogic.Program, names: seq<string>, d: RelationDeclaration, k: nat)
    returns (i: nat)
    requires WellDeclared(prog.declarations) && d in prog.declarations
    requires IsVisit(Depths(prog).Keys, names) && OnlyFirstIsDeep(ProgramWork(prog, names))
    requires IsRecorded(prog, d.name, k)
    ensures
      var out := LoweredDeclarations(prog.declarations, Depths(prog), names);
      i < |out| && out[i] == RelationDeclaration(SAYS + CanSayName(k, d.name), false, FormArguments(d, k))
  {
    hide CanSayDeclarations, TypeEnvironment, Work, Form, CanSayName, Delegatees, WellDeclared, IsVisit, OnlyFirstIsDeep, ProgramWork, Depths;
    var ds := TransformAttributes(prog.declarations);
    var j := IndexOf(prog.declarations, d);
    FormIsListed(prog, names, j, k);
    i := ListedIsLowered(prog, names, Form(ds[j], k));
    FormHasDelegatees(ds[j], k);
    FormName(ds[j], k);
    assert ds[j].name == d.name && ds[j].arguments == OwnArguments(d);
  }

  lemma ListedIsLowered(prog: AuthLogic.Program, names: seq<string>, form: RelationDeclaration) returns (i: nat)
    requires IsVisit(Depths(prog).Keys, names)
    requires form in TransformAttributes(prog.declarations) + CanSayDeclarations(ProgramWork(prog, names)) + [CAN_ACT_AS_DECLARATION]
    ensures
      var out := LoweredDeclarations(prog.declarations, Depths(prog), names);
      i < |out| && out[i] == SaysDeclaration(form)
  {
    hide CanSayDeclarations, TypeEnvironment, Work, SaysDeclaration, TransformAttributes;
    i := IndexOf(TransformAttributes(prog.declarations) + CanSayDeclarations(ProgramWork(prog, names)) + [CAN_ACT_AS_DECLARATION], form);
  }

  // ---------- Names outside the forms ----------

  lemma {:induction false} CountOutsideSays(ds: seq<RelationDeclaration>, name: string)
    requires !StartsWith(name, SAYS)
    ensures Count(SaysDeclarations(ds), name) == 0
  {
    if ds != [] {
      assert SaysDeclarations(ds)[..|ds| - 1] == SaysDeclarations(ds[..|ds| - 1]);
      CountOutsideSays(ds[..|ds| - 1], name);
    }
  }

  /** Every name is some form of its root. */
  lemma {:induction false} NameIsForm(name: string)
    ensures !StartsWith(Root(name), CAN_SAY) && name == CanSayName(Level(name), Root(name))
    decreases |name|
  {
    if StartsWith(name, CAN_SAY) {
      NameIsForm(name[|CAN_SAY|..]);
      assert name == CAN_SAY + name[|CAN_SAY|..];
    }
  }

  /** The name that the pass gives to a form of a declared relation, or to canActAs. */
  ghost predicate IsFormName(prog: AuthLogic.Program, name: string) {
    name == SAYS + CAN_ACT_AS ||
    exists n, k: nat :: IsDeclared(prog.declarations, n) && IsRecorded(prog, n, k) && name == SAYS + CanSayName(k, n)
  }

  /** In a good order a name that is no form is not declared among the forms. */
  lemma CountOutsideForms(prog: AuthLogic.Program, names: seq<string>, name: string)
    requires WellDeclared(prog.declarations) && IsVisit(Depths(prog).Keys, names)
    requires OnlyFirstIsDeep(ProgramWork(prog, names)) && !IsFormName(prog, name)
    ensures Count(LoweredDeclarations(prog.declarations, Depths(prog), names), name) == 0
  {
    hide CanSayDeclarations, ProgramWork, WellDeclared, Count, SaysDeclarations, CanSayName, OnlyFirstIsDeep;
    if StartsWith(name, SAYS) {
      var m := name[|SAYS|..];
      assert name == SAYS + m;
      NameIsForm(m);
      CountLowered(prog, names, Level(m), Root(m));
      CountShallow(prog, names, Level(m), Root(m));
      FormOfNothing(Root(m));
    } else {
      LoweredIsSays(prog, names, name);
    }
  }

  lemma FormOfNothing(n: string)
    ensures CanSayName(0, n) == n
  {
  }

  lemma LoweredIsSays(prog: AuthLogic.Program, names: seq<string>, name: string)
    requires IsVisit(Depths(prog).Keys, names) && !StartsWith(name, SAYS)
    ensures Count(LoweredDeclarations(prog.declarations, Depths(prog), names), name) == 0
  {
    var ds := TransformAttributes(prog.declarations);
    var shared := CanSayDeclarations(Work(TypeEnvironment(ds), Depths(prog), names));
    CountOutsideSays(ds + shared + [CAN_ACT_AS_DECLARATION], name);
  }

  // ---------- Queries ----------

  predicate HasDistinctNames(qs: seq<Query>) {
    forall i, j :: 0 <= i < j < |qs| ==> qs[i].name != qs[j].name
  }

  predicate IsQueryName(qs: seq<Query>, name: string) {
    exists i :: 0 <= i < |qs| && qs[i].name == name
  }

  lemma {:induction false} CountQueries(qs: seq<Query>, name: string)
    ensures Count(QueryHeads(qs), name) >= 1 <==> IsQueryName(qs, name)
    ensures HasDistinctNames(qs) ==> Count(QueryHeads(qs), name) <= 1
  {
    if qs != [] {
      var init := qs[..|qs| - 1];
      assert QueryHeads(qs)[..|qs| - 1] == QueryHeads(init);
      CountQueries(init, name);
      if i :| 0 <= i < |init| && init[i].name == name {
        assert qs[i].name == name;
      }
      if HasDistinctNames(qs) && IsQueryName(init, name) {
        var i :| 0 <= i < |init| && init[i].name == name;
        assert qs[i].name != qs[|qs| - 1].name;
      }
    }
  }

  lemma RepeatedQueryIsCounted(qs: seq<Query>, i: nat, j: nat)
    requires i < j < |qs| && qs[i].name == qs[j].name
    ensures Count(QueryHeads(qs), qs[i].name) >= 2
  {
    var a, b := qs[..j], qs[j..];
    assert a[i] == qs[i] && b[0] == qs[j];
    assert QueryHeads(qs) == QueryHeads(a) + QueryHeads(b);
    CountConcat(QueryHeads(a), QueryHeads(b), qs[i].name);
    CountQueries(a, qs[i].name);
    CountQueries(b, qs[i].name);
  }

  lemma CountQueryDeclarations(qs: seq<Query>, name: string)
    ensures Count(QueryDeclarations(qs), name) == Count(QueryHeads(qs), name) + if name == GROUNDED_DUMMY then 1 else 0
  {
    var dummy := [RelationDeclaration(GROUNDED_DUMMY, false, DUMMY_ARGUMENTS)];
    CountConcat(QueryHeads(qs), dummy, name);
    assert dummy[..0] == [];
  }

  // ---------- The declarations of the lowered program ----------

  /** `name` has exactly one declaration, with these arguments. */
  ghost predicate IsDeclaredAs(ds: seq<RelationDeclaration>, name: string, arguments: seq<Argument>) {
    Count(ds, name) == 1 && exists i :: 0 <= i < |ds| && ds[i] == RelationDeclaration(name, false, arguments)
  }

  /**
   Every recorded form of a declared relation and of canActAs, every query and
   the dummy have exactly one declaration, with the right arguments.
   */
  ghost predicate IsFullyDeclared(prog: AuthLogic.Program, names: seq<string>) {
    var out := LoweredProgram(prog, names).declarations;
    (forall d, k: nat :: d in prog.declarations && IsRecorded(prog, d.name, k) ==>
      IsDeclaredAs(out, SAYS + CanSayName(k, d.name), FormArguments(d, k))) &&
    (forall k: nat :: IsRecorded(prog, CAN_ACT_AS, k) ==>
      IsDeclaredAs(out, SAYS + CanSayName(k, CAN_ACT_AS), FormArguments(ACTING, k))) &&
    (forall q :: q in prog.queries ==> IsDeclaredAs(out, q.name, QUERY_ARGUMENTS)) &&
    IsDeclaredAs(out, GROUNDED_DUMMY, QUERY_ARGUMENTS)
  }

  /** Query names differ from each other and from the names of everything else. */
  ghost predicate HasFreeQueryNames(prog: AuthLogic.Program) {
    HasDistinctNames(prog.queries) &&
    forall q :: q in prog.queries ==> q.name != GROUNDED_DUMMY && !IsFormName(prog, q.name)
  }

  ghost predicate DelegatesActing(prog: AuthLogic.Program) {
    CAN_ACT_AS in Depths(prog) && Depths(prog)[CAN_ACT_AS] >= 1
  }

  lemma LoweredParts(prog: AuthLogic.Program, names: seq<string>)
    requires IsVisit(Depths(prog).Keys, names)
    ensures LoweredProgram(prog, names).declarations ==
      LoweredDeclarations(prog.declarations, Depths(prog), names) + QueryDeclarations(prog.queries)
  {
  }

  lemma CountParts(prog: AuthLogic.Program, names: seq<string>, name: string)
    requires IsVisit(Depths(prog).Keys, names)
    ensures Count(LoweredProgram(prog, names).declarations, name) ==
      Count(LoweredDeclarations(prog.declarations, Depths(prog), names), name) +
      Count(QueryHeads(prog.queries), name) + if name == GROUNDED_DUMMY then 1 else 0
  {
    LoweredParts(prog, names);
    hide Count, LoweredDeclarations, QueryDeclarations, LoweredProgram;
    CountConcat(LoweredDeclarations(prog.declarations, Depths(prog), names), QueryDeclarations(prog.queries), name);
    CountQueryDeclarations(prog.queries, name);
  }

  /** Declarations of queries have one argument, so a wider one is among the forms. */
  lemma WideIsForm(prog: AuthLogic.Program, names: seq<string>, name: string, arguments: seq<Argument>)
    requires IsVisit(Depths(prog).Keys, names) && |arguments| >= 2
    requires IsDeclaredAs(LoweredProgram(prog, names).declarations, name, arguments)
    ensures Count(LoweredDeclarations(prog.declarations, Depths(prog), names), name) >= 1
  {
    LoweredParts(prog, names);
    var forms := LoweredDeclarations(prog.declarations, Depths(prog), names);
    CountIsPositive(forms, name);
    hide LoweredDeclarations, LoweredProgram, Count;
    var out := forms + QueryDeclarations(prog.queries);
    var i :| 0 <= i < |out| && out[i] == RelationDeclaration(name, false, arguments);
    assert i < |forms| ==> forms[i] == out[i];
  }

  lemma ListedOnce(prog: AuthLogic.Program, names: seq<string>, i: nat, name: string, arguments: seq<Argument>)
    requires IsVisit(Depths(prog).Keys, names)
    requires
      var forms := LoweredDeclarations(prog.declarations, Depths(prog), names);
      i < |forms| && forms[i] == RelationDeclaration(name, false, arguments) && Count(forms, name) == 1
    requires Count(QueryHeads(prog.queries), name) == 0 && name != GROUNDED_DUMMY
    ensures IsDeclaredAs(LoweredProgram(prog, names).declarations, name, arguments)
  {
    CountParts(prog, names, name);
    LoweredParts(prog, names);
    hide LoweredDeclarations, LoweredProgram, Count, QueryDeclarations;
    var forms := LoweredDeclarations(prog.declarations, Depths(prog), names);
    assert (forms + QueryDeclarations(prog.queries))[i] == forms[i];
  }

  /** Forms start with `says_`; the dummy does not. */
  lemma DummyIsNoForm(name: string)
    ensures SAYS + name != GROUNDED_DUMMY
  {
    assert (SAYS + name)[0] == 's' && GROUNDED_DUMMY[0] == 'g';
  }

  lemma FormIsDeclaredAs(prog: AuthLogic.Program, names: seq<string>, d: RelationDeclaration, k: nat)
    requires WellDeclared(prog.declarations) && IsVisit(Depths(prog).Keys, names)
    requires OnlyFirstIsDeep(ProgramWork(prog, names)) && HasFreeQueryNames(prog)
    requires d in prog.declarations && IsRecorded(prog, d.name, k)
    ensures IsDeclaredAs(LoweredProgram(prog, names).declarations, SAYS + CanSayName(k, d.name), FormArguments(d, k))
  {
    var i := FormsHaveTheirArguments(prog, names, d, k);
    var j := IndexOf(prog.declarations, d);
    var name := SAYS + CanSayName(k, d.name);
    CountLowered(prog, names, k, d.name);
    CountShallow(prog, names, k, d.name);
    CountQueries(prog.queries, name);
    DummyIsNoForm(CanSayName(k, d.name));
    hide LoweredDeclarations, LoweredProgram, Count, CanSayDeclarations, ProgramWork, CanSayName, OnlyFirstIsDeep;
    assert IsFormName(prog, name);
    ListedOnce(prog, names, i, name, FormArguments(d, k));
  }

  lemma ActingIsDeclaredAs(prog: AuthLogic.Program, names: seq<string>)
    requires WellDeclared(prog.declarations) && IsVisit(Depths(prog).Keys, names)
    requires OnlyFirstIsDeep(ProgramWork(prog, names)) && HasFreeQueryNames(prog)
    ensures IsDeclaredAs(LoweredProgram(prog, names).declarations, SAYS + CAN_ACT_AS, FormArguments(ACTING, 0))
  {
    var forms := LoweredDeclarations(prog.declarations, Depths(prog), names);
    ActAsIsNoForm();
    CountLowered(prog, names, 0, CAN_ACT_AS);
    CountShallow(prog, names, 0, CAN_ACT_AS);
    CountQueries(prog.queries, SAYS + CAN_ACT_AS);
    DummyIsNoForm(CAN_ACT_AS);
    assert forms[|forms| - 1] == SaysDeclaration(CAN_ACT_AS_DECLARATION);
    hide LoweredDeclarations, LoweredProgram, Count, CanSayDeclarations, ProgramWork, OnlyFirstIsDeep;
    ListedOnce(prog, names, |forms| - 1, SAYS + CAN_ACT_AS, FormArguments(ACTING, 0));
  }

  lemma QueryIsDeclaredAs(prog: AuthLogic.Program, names: seq<string>, q: Query)
    requires WellDeclared(prog.declarations) && IsVisit(Depths(prog).Keys, names)
    requires OnlyFirstIsDeep(ProgramWork(prog, names)) && HasFreeQueryNames(prog) && q in prog.queries
    ensures IsDeclaredAs(LoweredProgram(prog, names).declarations, q.name, QUERY_ARGUMENTS)
  {
    CountOutsideForms(prog, names, q.name);
    CountQueries(prog.queries, q.name);
    CountParts(prog, names, q.name);
    LoweredParts(prog, names);
    hide LoweredDeclarations, LoweredProgram, Count, ProgramWork, OnlyFirstIsDeep;
    var forms := LoweredDeclarations(prog.declarations, Depths(prog), names);
    var i := IndexOf(prog.queries, q);
    assert QueryDeclarations(prog.queries)[i].name == q.name;
    assert (forms + QueryDeclarations(prog.queries))[|forms| + i] == QueryDeclarations(prog.queries)[i];
  }

  lemma DummyIsDeclaredAs(prog: AuthLogic.Program, names: seq<string>)
    requires IsVisit(Depths(prog).Keys, names) && !IsQueryName(prog.queries, GROUNDED_DUMMY)
    ensures IsDeclaredAs(LoweredProgram(prog, names).declarations, GROUNDED_DUMMY, QUERY_ARGUMENTS)
  {
    assert GROUNDED_DUMMY[0] == 'g' && SAYS[0] == 's';
    LoweredIsSays(prog, names, GROUNDED_DUMMY);
    CountQueries(prog.queries, GROUNDED_DUMMY);
    CountParts(prog, names, GROUNDED_DUMMY);
    LoweredParts(prog, names);
    hide LoweredDeclarations, LoweredProgram, Count;
    var forms, i := LoweredDeclarations(prog.declarations, Depths(prog), names), |prog.queries|;
    assert (forms + QueryDeclarations(prog.queries))[|forms| + i] == QueryDeclarations(prog.queries)[i];
  }

  /** Some visiting order that is not good leaves a recorded form undeclared. */
  lemma DeepOrderIsNotFull(prog: AuthLogic.Program, names: seq<string>)
    requires WellDeclared(prog.declarations) && IsVisit(Depths(prog).Keys, names)
    requires !OnlyFirstIsDeep(ProgramWork(prog, names))
    ensures !IsFullyDeclared(prog, names)
  {
    var d, k := DeepOrderMisses(prog, names);
    hide LoweredDeclarations, LoweredProgram, Count, ProgramWork, OnlyFirstIsDeep;
    if IsDeclaredAs(LoweredProgram(prog, names).declarations, SAYS + CanSayName(k, d.name), FormArguments(d, k)) {
      WideIsForm(prog, names, SAYS + CanSayName(k, d.name), FormArguments(d, k));
    }
  }

  predicate HasNoRoot(ds: seq<RelationDeclaration>, n: string) {
    forall p :: 0 <= p < |ds| ==> Root(ds[p].name) != n
  }

  lemma {:induction false} AppendedHaveNoRoot(acc: seq<RelationDeclaration>, base: RelationDeclaration, k: nat, n: string)
    requires HasNoRoot(acc, n) && Root(base.name) != n
    ensures HasNoRoot(AppendDepths(acc, base, k), n)
  {
    if k > 0 {
      AppendedHaveNoRoot(acc, base, k - 1, n);
      var before := AppendDepths(acc, base, k - 1);
      var inner := if k == 1 then base else before[k - 2];
      assert (CAN_SAY + inner.name)[|CAN_SAY|..] == inner.name;
    }
  }

  lemma {:induction false} SharedHaveNoRoot(work: seq<Delegated>, n: string)
    requires forall j :: 0 <= j < |work| ==> Root(work[j].base.name) != n
    ensures HasNoRoot(CanSayDeclarations(work), n)
  {
    if work != [] {
      var init, last := work[..|work| - 1], work[|work| - 1];
      SharedHaveNoRoot(init, n);
      AppendedHaveNoRoot(CanSayDeclarations(init), last.base, last.depth, n);
    }
  }

  lemma WorkIsAboutRelations(prog: AuthLogic.Program, names: seq<string>, j: nat)
    requires WellDeclared(prog.declarations) && IsVisit(Depths(prog).Keys, names) && j < |ProgramWork(prog, names)|
    ensures Root(ProgramWork(prog, names)[j].base.name) != CAN_ACT_AS
  {
    var ds := TransformAttributes(prog.declarations);
    TransformKeepsNames(prog.declarations);
    var i := WorkEntries(TypeEnvironment(ds), Depths(prog), names, j);
    EnvironmentMapsNames(ds, names[i]);
    assert names[i] in names;
    var l := IndexOf(ds, TypeEnvironment(ds)[names[i]]);
    CanSayNameLevel(0, ds[l].name);
  }

  /** A form of canActAs is never declared, whatever the order. */
  lemma DelegatedActingIsUndeclared(prog: AuthLogic.Program, names: seq<string>, k: nat)
    requires WellDeclared(prog.declarations) && IsVisit(Depths(prog).Keys, names) && k >= 1
    ensures Count(LoweredDeclarations(prog.declarations, Depths(prog), names), SAYS + CanSayName(k, CAN_ACT_AS)) == 0
  {
    hide ProgramWork, CanSayDeclarations, LoweredDeclarations, Count;
    ActAsIsNoForm();
    CountLowered(prog, names, k, CAN_ACT_AS);
    forall j | 0 <= j < |ProgramWork(prog, names)|
      ensures Root(ProgramWork(prog, names)[j].base.name) != CAN_ACT_AS
    {
      WorkIsAboutRelations(prog, names, j);
    }
    SharedHaveNoRoot(ProgramWork(prog, names), CAN_ACT_AS);
    CanSayNameLevel(k, CAN_ACT_AS);
    CountIsPositive(CanSayDeclarations(ProgramWork(prog, names)), CanSayName(k, CAN_ACT_AS));
  }

  lemma DelegatedActingIsNotFull(prog: AuthLogic.Program, names: seq<string>)
    requires WellDeclared(prog.declarations) && IsVisit(Depths(prog).Keys, names) && DelegatesActing(prog)
    ensures !IsFullyDeclared(prog, names)
  {
    DelegatedActingIsUndeclared(prog, names, 1);
    hide LoweredDeclarations, LoweredProgram, Count;
    assert IsRecorded(prog, CAN_ACT_AS, 1);
    if IsDeclaredAs(LoweredProgram(prog, names).declarations, SAYS + CanSayName(1, CAN_ACT_AS), FormArguments(ACTING, 1)) {
      WideIsForm(prog, names, SAYS + CanSayName(1, CAN_ACT_AS), FormArguments(ACTING, 1));
    }
  }

  /** A query name that is taken is declared twice. */
  lemma TakenQueryNameIsNotFull(prog: AuthLogic.Program, names: seq<string>)
    requires WellDeclared(prog.declarations) && IsVisit(Depths(prog).Keys, names)
    requires OnlyFirstIsDeep(ProgramWork(prog, names)) && !HasFreeQueryNames(prog)
    ensures !IsFullyDeclared(prog, names)
  {
    if i, j :| 0 <= i < j < |prog.queries| && prog.queries[i].name == prog.queries[j].name {
      RepeatedQueryIsCounted(prog.queries, i, j);
      CountParts(prog, names, prog.queries[i].name);
      assert prog.queries[i] in prog.queries;
    } else {
      var q :| q in prog.queries && (q.name == GROUNDED_DUMMY || IsFormName(prog, q.name));
      CountQueries(prog.queries, q.name);
      CountParts(prog, names, q.name);
      if IsFormName(prog, q.name) {
        FormNameIsCounted(prog, names, q.name);
      }
    }
  }

  lemma FormNameIsCounted(prog: AuthLogic.Program, names: seq<string>, name: string)
    requires WellDeclared(prog.declarations) && IsVisit(Depths(prog).Keys, names)
    requires OnlyFirstIsDeep(ProgramWork(prog, names)) && IsFormName(prog, name)
    ensures Count(LoweredDeclarations(prog.declarations, Depths(prog), names), name) >= 1
  {
    if name == SAYS + CAN_ACT_AS {
      ActAsIsNoForm();
      CountLowered(prog, names, 0, CAN_ACT_AS);
    } else {
      var n, k: nat :| IsDeclared(prog.declarations, n) && IsRecorded(prog, n, k) && name == SAYS + CanSayName(k, n);
      CountLowered(prog, names, k, n);
      CountShallow(prog, names, k, n);
    }
  }

  /** For one visiting order: exactly when the emitted declarations are right. */
  lemma OrderIsRightIff(prog: AuthLogic.Program, names: seq<string>)
    requires WellDeclared(prog.declarations) && IsVisit(Depths(prog).Keys, names)
    ensures IsFullyDeclared(prog, names) <==>
      OnlyFirstIsDeep(ProgramWork(prog, names)) && !DelegatesActing(prog) && HasFreeQueryNames(prog)
  {
    if !OnlyFirstIsDeep(ProgramWork(prog, names)) {
      DeepOrderIsNotFull(prog, names);
    } else if DelegatesActing(prog) {
      DelegatedActingIsNotFull(prog, names);
    } else if !HasFreeQueryNames(prog) {
      TakenQueryNameIsNotFull(prog, names);
    } else {
      hide WellDeclared, LoweredProgram, IsDeclaredAs, ProgramWork, OnlyFirstIsDeep, FormArguments;
      forall d, k: nat | d in prog.declarations && IsRecorded(prog, d.name, k)
        ensures IsDeclaredAs(LoweredProgram(prog, names).declarations, SAYS + CanSayName(k, d.name), FormArguments(d, k))
      {
        FormIsDeclaredAs(prog, names, d, k);
      }
      ActingIsDeclaredAs(prog, names);
      assert forall k: nat :: IsRecorded(prog, CAN_ACT_AS, k) ==> k == 0;
      FormOfNothing(CAN_ACT_AS);
      forall q | q in prog.queries
        ensures IsDeclaredAs(LoweredProgram(prog, names).declarations, q.name, QUERY_ARGUMENTS)
      {
        QueryIsDeclaredAs(prog, names, q);
      }
      assert forall i :: 0 <= i < |prog.queries| ==> prog.queries[i] in prog.queries;
      DummyIsDeclaredAs(prog, names);
    }
  }

  // ---------- Independence of the visiting order ----------

  /** A declared relation that is delegated at all. */
  ghost predicate IsDelegated(prog: AuthLogic.Program, n: string) {
    n in Depths(prog) && Depths(prog)[n] >= 1 && IsDeclared(prog.declarations, n)
  }

  /** No relation is delegated more than once, or only one relation is delegated. */
  ghost predicate HasShallowDelegation(prog: AuthLogic.Program) {
    (forall n :: IsDelegated(prog, n) ==> Depths(prog)[n] <= 1) ||
    (forall a, b :: IsDelegated(prog, a) && IsDelegated(prog, b) ==> a == b)
  }

  lemma {:induction false} SomeVisit(keys: set<string>) returns (names: seq<string>)
    ensures IsVisit(keys, names)
    decreases |keys|
  {
    if keys == {} {
      names := [];
    } else {
      var k :| k in keys;
      var rest := SomeVisit(keys - {k});
      VisitOneMore(keys - {k}, rest, k);
      assert keys - {k} + {k} == keys;
      names := rest + [k];
    }
  }

  /** Visiting `a` first and `b` last. */
  lemma VisitWithEnds(keys: set<string>, a: string, b: string) returns (names: seq<string>)
    requires a in keys && b in keys && a != b
    ensures IsVisit(keys, names) && names[0] == a && names[|names| - 1] == b && |names| >= 2
  {
    var middle := SomeVisit(keys - {a, b});
    names := [a] + middle + [b];
    forall k
      ensures k in keys <==> k in names
    {
      InConcat([a] + middle, [b], k);
      InConcat([a], middle, k);
    }
    forall i, j | 0 <= i < j < |names|
      ensures names[i] != names[j]
    {
      if 0 < i && j < |names| - 1 {
        assert middle[i - 1] != middle[j - 1];
      } else if i == 0 && j < |names| - 1 {
        assert middle[j - 1] in middle;
      } else if 0 < i {
        assert middle[i - 1] in middle;
      }
    }
  }

  lemma {:induction false} WorkGrows(env: map<string, RelationDeclaration>, depths: map<string, nat>, a: seq<string>, b: seq<string>)
    requires forall n :: n in a + b ==> n in depths
    requires forall n :: n in a ==> n in depths
    ensures Work(env, depths, a) <= Work(env, depths, a + b)
  {
    if b == [] {
      assert a + b == a;
    } else {
      var init := b[..|b| - 1];
      assert (a + b)[..|a + b| - 1] == a + init;
      forall n | n in a + init
        ensures n in depths
      {
        InConcat(a, init, n);
        InConcat(a, b, n);
      }
      WorkGrows(env, depths, a, init);
    }
  }

  /** The relations that the pass finds are the declared ones. */
  lemma EnvironmentIsDeclared(ds: seq<RelationDeclaration>, n: string)
    requires WellDeclared(ds)
    ensures n in TypeEnvironment(TransformAttributes(ds)) <==> IsDeclared(ds, n)
  {
    var transformed := TransformAttributes(ds);
    TransformKeepsNames(ds);
    SameNames(ds, n);
    hide TransformAttributes, WellDeclared;
    if n in TypeEnvironment(transformed) {
      EnvironmentMapsNames(transformed, n);
      var i := IndexOf(transformed, TypeEnvironment(transformed)[n]);
    }
    if i :| 0 <= i < |transformed| && transformed[i].name == n {
      EnvironmentFinds(transformed, i);
    }
  }

  /** Two delegated relations, one of them more than once: some order leaves a form of it undeclared. */
  lemma TwoDelegatedAreUnsafe(prog: AuthLogic.Program, a: string, b: string) returns (names: seq<string>)
    requires WellDeclared(prog.declarations)
    requires IsDelegated(prog, a) && IsDelegated(prog, b) && a != b && Depths(prog)[b] >= 2
    ensures IsVisit(Depths(prog).Keys, names) && !IsFullyDeclared(prog, names)
  {
    EnvironmentIsDeclared(prog.declarations, a);
    EnvironmentIsDeclared(prog.declarations, b);
    names := VisitWithEnds(Depths(prog).Keys, a, b);
    LastIsDeep(prog, names, a, b);
    DeepOrderIsNotFull(prog, names);
  }

  lemma LastIsDeep(prog: AuthLogic.Program, names: seq<string>, a: string, b: string)
    requires IsVisit(Depths(prog).Keys, names) && |names| >= 2 && names[0] == a && names[|names| - 1] == b
    requires a in TypeEnvironment(TransformAttributes(prog.declarations)) && a in Depths(prog) && Depths(prog)[a] >= 1
    requires b in TypeEnvironment(TransformAttributes(prog.declarations)) && b in Depths(prog) && Depths(prog)[b] >= 2
    ensures !OnlyFirstIsDeep(ProgramWork(prog, names))
  {
    var env, depths := TypeEnvironment(TransformAttributes(prog.declarations)), Depths(prog);
    var init := names[..|names| - 1];
    assert init == [a] + init[1..];
    assert names == init + [b];
    forall n | n in init
      ensures n in depths
    {
      InConcat(init, [b], n);
    }
    WorkGrows(env, depths, [a], init[1..]);
    assert Work(env, depths, []) == [] && [a][..0] == [];
    assert Work(env, depths, [a]) == [Delegated(env[a], depths[a])];
    var work := ProgramWork(prog, names);
    assert work == Work(env, depths, init) + [Delegated(env[b], depths[b])];
    assert work[|work| - 1].depth >= 2 && |work| >= 2;
  }

  /** With shallow delegation every visiting order is good. */
  lemma ShallowDelegationIsSafe(prog: AuthLogic.Program, names: seq<string>)
    requires WellDeclared(prog.declarations) && IsVisit(Depths(prog).Keys, names) && HasShallowDelegation(prog)
    ensures OnlyFirstIsDeep(ProgramWork(prog, names))
  {
    var env, depths := TypeEnvironment(TransformAttributes(prog.declarations)), Depths(prog);
    if forall a, b :: IsDelegated(prog, a) && IsDelegated(prog, b) ==> a == b {
      OneRelationOneEntry(prog, names);
    } else {
      forall j | 1 <= j < |ProgramWork(prog, names)|
        ensures ProgramWork(prog, names)[j].depth <= 1
      {
        var i := WorkEntries(env, depths, names, j);
        assert names[i] in names;
        EnvironmentIsDeclared(prog.declarations, names[i]);
        assert IsDelegated(prog, names[i]);
      }
    }
  }

  /** The emitted declarations are right in every visiting order of the depth table. */
  ghost predicate IsAlwaysFullyDeclared(prog: AuthLogic.Program) {
    forall names :: IsVisit(Depths(prog).Keys, names) ==> IsFullyDeclared(prog, names)
  }

  /**
   The emitted declarations are right in every visiting order exactly when no
   relation is delegated more than once or only one is delegated, canActAs is
   not delegated, and query names are free.
   */
  lemma DeclarationsAreRightIff(prog: AuthLogic.Program)
    requires WellDeclared(prog.declarations)
    ensures IsAlwaysFullyDeclared(prog) <==>
      HasShallowDelegation(prog) && !DelegatesActing(prog) && HasFreeQueryNames(prog)
  {
    hide WellDeclared, IsFullyDeclared, OnlyFirstIsDeep, ProgramWork, HasFreeQueryNames;
    if a, b, n :| IsDelegated(prog, a) && IsDelegated(prog, b) && a != b && IsDelegated(prog, n) && Depths(prog)[n] > 1 {
      var names := TwoDelegatedAreUnsafe(prog, if n == a then b else a, n);
    } else {
      assert HasShallowDelegation(prog);
      forall names | IsVisit(Depths(prog).Keys, names)
        ensures IsFullyDeclared(prog, names) <==> !DelegatesActing(prog) && HasFreeQueryNames(prog)
      {
        ShallowDelegationIsSafe(prog, names);
        OrderIsRightIff(prog, names);
      }
      var some := SomeVisit(Depths(prog).Keys);
    }
  }

  lemma OneRelationOneEntry(prog: AuthLogic.Program, names: seq<string>)
    requires WellDeclared(prog.declarations) && IsVisit(Depths(prog).Keys, names)
    requires forall a, b :: IsDelegated(prog, a) && IsDelegated(prog, b) ==> a == b
    ensures OnlyFirstIsDeep(ProgramWork(prog, names))
  {
    OneEntry(prog, names, names);
  }

  lemma {:induction false} OneEntry(prog: AuthLogic.Program, all: seq<string>, names: seq<string>)
    requires WellDeclared(prog.declarations) && IsVisit(Depths(prog).Keys, all) && names <= all
    requires forall a, b :: IsDelegated(prog, a) && IsDelegated(prog, b) ==> a == b
    requires forall n :: n in names ==> n in Depths(prog)
    ensures
      var work := Work(TypeEnvironment(TransformAttributes(prog.declarations)), Depths(prog), names);
      |work| <= 1 && (|work| == 1 ==> exists i :: 0 <= i < |names| && IsDelegated(prog, names[i]))
  {
    var env, depths := TypeEnvironment(TransformAttributes(prog.declarations)), Depths(prog);
    if names != [] {
      var init, n := names[..|names| - 1], names[|names| - 1];
      OneEntry(prog, all, init);
      EnvironmentIsDeclared(prog.declarations, n);
      if depths[n] > 0 && n in env {
        assert IsDelegated(prog, names[|names| - 1]);
      } else if |Work(env, depths, init)| == 1 {
        var i :| 0 <= i < |init| && IsDelegated(prog, init[i]);
        assert names[i] == init[i];
      }
    }
  }

  // ---------- Every use has its declaration ----------

  ghost predicate IsDeclaredOnce(ds: seq<RelationDeclaration>, name: string, arity: nat) {
    Count(ds, name) == 1 && exists i :: 0 <= i < |ds| && ds[i].name == name && |ds[i].arguments| == arity
  }

  function Arity(d: RelationDeclaration): nat {
    |d.arguments| + if d.isAttribute then 1 else 0
  }

  lemma DeclaredWithArity(ds: seq<RelationDeclaration>, name: string, arguments: seq<Argument>)
    requires IsDeclaredAs(ds, name, arguments)
    ensures IsDeclaredOnce(ds, name, |arguments|)
  {
  }

  /** Relations are used as they are declared. */
  ghost predicate IsWellUsed(prog: AuthLogic.Program) {
    forall b :: IsUsed(prog, b) && !b.CanActAs? ==>
      exists d :: d in prog.declarations && d.name == BasePredicate(b).name && Arity(d) == |BasePredicate(b).args|
  }

  lemma RelationUseIsDeclaredOnce(prog: AuthLogic.Program, names: seq<string>, d: RelationDeclaration, k: nat)
    requires IsFullyDeclared(prog, names) && d in prog.declarations && IsRecorded(prog, d.name, k)
    ensures IsDeclaredOnce(LoweredProgram(prog, names).declarations, SAYS + CanSayName(k, d.name), 1 + k + Arity(d))
  {
    hide LoweredProgram, IsDeclaredOnce, IsDeclaredAs, CanSayName, IsRecorded;
    DeclaredWithArity(LoweredProgram(prog, names).declarations, SAYS + CanSayName(k, d.name), FormArguments(d, k));
  }

  lemma ActingUseIsDeclaredOnce(prog: AuthLogic.Program, names: seq<string>, k: nat)
    requires IsFullyDeclared(prog, names) && IsRecorded(prog, CAN_ACT_AS, k)
    ensures IsDeclaredOnce(LoweredProgram(prog, names).declarations, SAYS + CanSayName(k, CAN_ACT_AS), 1 + k + 2)
  {
    hide LoweredProgram, IsDeclaredOnce, IsDeclaredAs, CanSayName, IsRecorded;
    DeclaredWithArity(LoweredProgram(prog, names).declarations, SAYS + CanSayName(k, CAN_ACT_AS), FormArguments(ACTING, k));
  }

  lemma FormUseIsDeclaredOnce(prog: AuthLogic.Program, names: seq<string>, p: Predicate)
    requires IsWellUsed(prog) && IsFullyDeclared(prog, names) && IsRecordedForm(prog, p)
    ensures IsDeclaredOnce(LoweredProgram(prog, names).declarations, p.name, |p.args|)
  {
    hide LoweredProgram, IsUsed, IsDeclaredOnce, CanSayName, IsFullyDeclared, IsRecorded, Arity;
    var b, k: nat :| IsUsed(prog, b) && IsForm(p, b, k) && IsRecorded(prog, BasePredicate(b).name, k);
    if b.CanActAs? {
      ActingUseIsDeclaredOnce(prog, names, k);
    } else {
      var d :| d in prog.declarations && d.name == BasePredicate(b).name && Arity(d) == |BasePredicate(b).args|;
      RelationUseIsDeclaredOnce(prog, names, d, k);
    }
  }

  /**
   Declarations cover uses: when the emitted declarations are right, every
   predicate of every emitted rule has exactly one declaration, with its arity.
   */
  lemma UsesAreDeclaredOnce(prog: AuthLogic.Program, names: seq<string>, rule: Rule, p: Predicate)
    requires IsWellUsed(prog) && IsFullyDeclared(prog, names)
    requires rule in LoweredRules(prog) && (p == rule.lhs || p in rule.rhs)
    ensures IsDeclaredOnce(LoweredProgram(prog, names).declarations, p.name, |p.args|)
  {
    LC.InLoweredRules(prog, rule);
    hide LoweredProgram, LoweredRules, IsWellUsed, IsRecordedForm, IsDeclaredOnce, IsDeclaredAs, SpokenRules;
    DeclaredWithArity(LoweredProgram(prog, names).declarations, GROUNDED_DUMMY, QUERY_ARGUMENTS);
    if rule in SpokenRules(AllSpoken(prog.saysAssertions), 0) {
      SpokenUsesAreRecorded(prog, rule, p);
      FormUseIsDeclaredOnce(prog, names, p);
    } else if rule in QueryRules(prog.queries) {
      var i := IndexOf(QueryRules(prog.queries), rule);
      var q := prog.queries[i];
      assert q in prog.queries;
      QueryUsesAreRecorded(prog, q);
      FormUseIsDeclaredOnce(prog, names, QueryRule(q).rhs[0]);
      DeclaredWithArity(LoweredProgram(prog, names).declarations, q.name, QUERY_ARGUMENTS);
    }
  }

  // ---------- Programs that are misdeclared ----------

  const FIRST := RelationDeclaration("first", false, [])
  const SECOND := RelationDeclaration("second", false, [])

  /** `"A" says "B" canSay first`, `"A" says "B" canSay "C" canSay second`. */
  const TWO_DELEGATED := AuthLogic.Program(
    [FIRST, SECOND],
    [SaysAssertion("\"A\"", [
      FactAssertion(Fact(["\"B\""], PredicateFact(Predicate("first", [], Positive)))),
      FactAssertion(Fact(["\"C\"", "\"B\""], PredicateFact(Predicate("second", [], Positive))))])],
    [])

  /** `"A" says "B" canSay "C" canActAs "D"`. */
  const ACTING_DELEGATED := AuthLogic.Program(
    [],
    [SaysAssertion("\"A\"", [FactAssertion(Fact(["\"B\""], CanActAs("\"C\"", "\"D\"")))])],
    [])

  /** Both programs are lowered, and their declarations are wrong: in some order, and in every order. */
  lemma MisdeclaredPrograms() returns (names: seq<string>)
    ensures IsVisit(Depths(TWO_DELEGATED).Keys, names) && !IsFullyDeclared(TWO_DELEGATED, names)
    ensures forall order :: IsVisit(Depths(ACTING_DELEGATED).Keys, order) ==> !IsFullyDeclared(ACTING_DELEGATED, order)
  {
    TwoDepths();
    assert TWO_DELEGATED.declarations[0].name == "first" && TWO_DELEGATED.declarations[1].name == "second";
    names := TwoDelegatedAreUnsafe(TWO_DELEGATED, "first", "second");
    ActingDepths();
    forall order | IsVisit(Depths(ACTING_DELEGATED).Keys, order)
      ensures !IsFullyDeclared(ACTING_DELEGATED, order)
    {
      DelegatedActingIsNotFull(ACTING_DELEGATED, order);
    }
  }

  lemma OneSays(says: SaysAssertion)
    ensures AllSpoken([says]) == SpokenIn(says)
  {
    assert [says][..0] == [];
  }

  lemma TwoDepths()
    ensures Depths(TWO_DELEGATED) == map["first" := 1, "second" := 2]
  {
    var says := TWO_DELEGATED.saysAssertions[0];
    OneSays(says);
    var fs := LoweredFacts(TWO_DELEGATED);
    assert fs == [says.assertions[0].fact, says.assertions[1].fact];
    assert fs[..1] == [fs[0]] && fs[..1][..0] == [];
    assert DeepenFacts(map[], fs[..1]) == map["first" := 1];
  }

  lemma ActingDepths()
    ensures Depths(ACTING_DELEGATED) == map[CAN_ACT_AS := 1]
  {
    var says := ACTING_DELEGATED.saysAssertions[0];
    OneSays(says);
    var fs := LoweredFacts(ACTING_DELEGATED);
    assert fs == [says.assertions[0].fact];
    assert fs[..0] == [];
  }
}
