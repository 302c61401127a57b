/**
 The declarations of a compiled program: what universe insertion adds to them,
 and when both passes together emit exactly one declaration for every
 predicate that the compiled rules use.
 */
module CompilerDeclarations {
  import opened Names
  import opened Seqs
  import opened Datalog
  import opened AuthLogic
  import opened Lowering
  import opened LoweringPass
  import opened Declarations
  import opened DeclarationUses
  import opened DeclarationCover
  import U = Universe
  import opened UniverseCorrect
  import opened Compiler

  // ---------- The declarations after insertion ----------

  ghost predicate UniversesAreFree(ds: seq<RelationDeclaration>) {
    HasDistinctUniverses(ds) && forall d :: d in ds ==> !IsUniverseName(ds, d.name)
  }

  lemma {:induction false} UniverseIsNoForm(t: ArgumentType)
    ensures !StartsWith(U.UniverseName(t), CAN_SAY) && U.UniverseName(t) != CAN_ACT_AS
  {
    assert U.UniverseName(t)[0] == 'i' && CAN_SAY[0] == 'c' && CAN_ACT_AS[0] == 'c';
  }

  lemma UniverseDeclarationsAreApart(ds: seq<RelationDeclaration>, more: seq<RelationDeclaration>)
    requires U.AreUniverseDeclarations(ds, more) && UniversesAreFree(ds)
    ensures forall i, j :: 0 <= i < j < |more| ==> more[i].name != more[j].name
    ensures forall i, j :: 0 <= i < |ds| && 0 <= j < |more| ==> ds[i].name != more[j].name
  {
    hide U.TypeOccurs;
    forall i, j | 0 <= i < j < |more|
      ensures more[i].name != more[j].name
    {
      assert more[i] in more && more[j] in more && more[i] != more[j];
      var t :| U.TypeOccurs(ds, t) && more[i] == U.UniverseDeclaration(t);
      var t' :| U.TypeOccurs(ds, t') && more[j] == U.UniverseDeclaration(t');
    }
    forall i, j | 0 <= i < |ds| && 0 <= j < |more|
      ensures ds[i].name != more[j].name
    {
      assert more[j] in more && ds[i] in ds;
      var t :| U.TypeOccurs(ds, t) && more[j] == U.UniverseDeclaration(t);
    }
  }

  /**
   After insertion relations are still declared once each exactly when no two
   types share a universe and no relation of the program is named like one.
   A custom type called `Number` shares the universe of the numbers.
   */
  lemma InsertionDeclaresOnceIff(prog: AuthLogic.Program, env: U.Environment, typing: U.Typing, out: AuthLogic.Program)
    requires U.IsInsertion(prog, env, typing, out)
    ensures WellDeclared(out.declarations) <==> WellDeclared(prog.declarations) && UniversesAreFree(prog.declarations)
  {
    var ds := prog.declarations;
    var more := out.declarations[|ds|..];
    assert out.declarations == ds + more && U.AreUniverseDeclarations(ds, more);
    hide U.IsInsertion;
    if WellDeclared(ds + more) {
      PartsAreWellDeclared(ds, more);
      DistinctNamesAreFree(ds, more);
    }
    if WellDeclared(ds) && UniversesAreFree(ds) {
      UniverseDeclarationsAreApart(ds, more);
      UniversesAreWellNamed(ds, more);
      ConcatIsWellDeclared(ds, more);
    }
  }

  lemma UniversesAreWellNamed(ds: seq<RelationDeclaration>, more: seq<RelationDeclaration>)
    requires U.AreUniverseDeclarations(ds, more)
    ensures forall j :: 0 <= j < |more| ==> !StartsWith(more[j].name, CAN_SAY) && more[j].name != CAN_ACT_AS
  {
    forall j | 0 <= j < |more|
      ensures !StartsWith(more[j].name, CAN_SAY) && more[j].name != CAN_ACT_AS
    {
      assert more[j] in more;
      var t :| U.TypeOccurs(ds, t) && more[j] == U.UniverseDeclaration(t);
      UniverseIsNoForm(t);
    }
  }

  lemma ConcatIsWellDeclared(ds: seq<RelationDeclaration>, more: seq<RelationDeclaration>)
    requires WellDeclared(ds) && forall j :: 0 <= j < |more| ==> !StartsWith(more[j].name, CAN_SAY) && more[j].name != CAN_ACT_AS
    requires forall i, j :: 0 <= i < j < |more| ==> more[i].name != more[j].name
    requires forall i, j :: 0 <= i < |ds| && 0 <= j < |more| ==> ds[i].name != more[j].name
    ensures WellDeclared(ds + more)
  {
  }

  lemma PartsAreWellDeclared(ds: seq<RelationDeclaration>, more: seq<RelationDeclaration>)
    requires WellDeclared(ds + more)
    ensures WellDeclared(ds)
    ensures forall i, j :: 0 <= i < j < |more| ==> more[i].name != more[j].name
    ensures forall i, j :: 0 <= i < |ds| && 0 <= j < |more| ==> ds[i].name != more[j].name
  {
    var all := ds + more;
    forall i | 0 <= i < |ds|
      ensures all[i] == ds[i]
    {
    }
    forall j | 0 <= j < |more|
      ensures all[|ds| + j] == more[j]
    {
    }
    forall i, j | 0 <= i < j < |more|
      ensures more[i].name != more[j].name
    {
      assert all[|ds| + i].name != all[|ds| + j].name;
    }
    forall i, j | 0 <= i < |ds| && 0 <= j < |more|
      ensures ds[i].name != more[j].name
    {
      assert all[i].name != all[|ds| + j].name;
    }
  }

  lemma DistinctNamesAreFree(ds: seq<RelationDeclaration>, more: seq<RelationDeclaration>)
    requires U.AreUniverseDeclarations(ds, more)
    requires forall i, j :: 0 <= i < j < |more| ==> more[i].name != more[j].name
    requires forall i, j :: 0 <= i < |ds| && 0 <= j < |more| ==> ds[i].name != more[j].name
    ensures UniversesAreFree(ds)
  {
    hide U.TypeOccurs;
    forall t, t' | U.TypeOccurs(ds, t) && U.TypeOccurs(ds, t') && U.UniverseName(t) == U.UniverseName(t')
      ensures t == t'
    {
      var i := IndexOf(more, U.UniverseDeclaration(t));
      var j := IndexOf(more, U.UniverseDeclaration(t'));
      assert i == j;
    }
    forall d | d in ds
      ensures !IsUniverseName(ds, d.name)
    {
      var i := IndexOf(ds, d);
      if t :| U.TypeOccurs(ds, t) && d.name == U.UniverseName(t) {
        var j := IndexOf(more, U.UniverseDeclaration(t));
        assert ds[i].name != more[j].name;
      }
    }
  }

  // ---------- Uses after insertion ----------

  ghost predicate HasItsDeclaration(ds: seq<RelationDeclaration>, b: BaseFact) {
    exists d :: d in ds && d.name == BasePredicate(b).name && Arity(d) == |BasePredicate(b).args|
  }

  lemma MembershipHasItsDeclaration(prog: AuthLogic.Program, env: U.Environment, typing: U.Typing, out: AuthLogic.Program,
                                    v: string, t: ArgumentType)
    requires U.IsInsertion(prog, env, typing, out) && U.TypeOccurs(prog.declarations, t)
    ensures HasItsDeclaration(out.declarations, U.MembershipFact(v, t))
  {
    var more := out.declarations[|prog.declarations|..];
    assert U.AreUniverseDeclarations(prog.declarations, more);
    hide U.IsInsertion;
    var d := U.UniverseDeclaration(t);
    assert d in more;
    var j := IndexOf(more, d);
    assert out.declarations[|prog.declarations| + j] == d;
  }

  lemma DeclarationsAreKept(prog: AuthLogic.Program, env: U.Environment, typing: U.Typing, out: AuthLogic.Program, b: BaseFact)
    requires U.IsInsertion(prog, env, typing, out) && HasItsDeclaration(prog.declarations, b)
    ensures HasItsDeclaration(out.declarations, b)
  {
    var d :| d in prog.declarations && d.name == BasePredicate(b).name && Arity(d) == |BasePredicate(b).args|;
    var i := IndexOf(prog.declarations, d);
    assert prog.declarations <= out.declarations;
    assert out.declarations[i] == d;
  }

  lemma IsSpokenFact(says: AuthLogic.Program, f: Fact)
    ensures f in LoweredFacts(says) <==>
      (exists s :: s in AllSpoken(says.saysAssertions) && s.assertion.Head() == f) || (exists q :: q in says.queries && q.fact == f)
  {
    var said := AllSpoken(says.saysAssertions);
    InConcat(Heads(said), QueryFacts(says.queries), f);
    if f in Heads(said) {
      var i := IndexOf(Heads(said), f);
      assert said[i] in said && said[i].assertion.Head() == f;
    }
    if f in QueryFacts(says.queries) {
      var i := IndexOf(QueryFacts(says.queries), f);
      assert says.queries[i] in says.queries && says.queries[i].fact == f;
    }
    if s :| s in said && s.assertion.Head() == f {
      HeadIsCounted(says, s);
    }
    if q :| q in says.queries && q.fact == f {
      QueryIsCounted(says, q);
    }
  }

  /** The facts of the new program: those of the old one, and undelegated facts about universes. */
  lemma InsertedFacts(prog: AuthLogic.Program, env: U.Environment, typing: U.Typing, out: AuthLogic.Program, f: Fact)
    requires U.IsInsertion(prog, env, typing, out)
    ensures f in LoweredFacts(prog) ==> f in LoweredFacts(out)
    ensures f in LoweredFacts(out) ==>
      f in LoweredFacts(prog) ||
      (f.delegationChain == [] && exists c, t :: f.base == U.MembershipFact(c, t) && U.TypeOccurs(prog.declarations, t))
  {
    IsSpokenFact(prog, f);
    IsSpokenFact(out, f);
    assert out.queries == prog.queries;
    if s :| s in AllSpoken(prog.saysAssertions) && s.assertion.Head() == f {
      var s' := Spoken(s.speaker, U.Conditioned(env, s.assertion));
      assert IsConditionedSpoken(prog, env, s');
      InsertedSpoken(prog, env, typing, out, s');
      ConditionedKeepsHead(env, s.assertion);
    }
    if s :| s in AllSpoken(out.saysAssertions) && s.assertion.Head() == f {
      InsertedSpoken(prog, env, typing, out, s);
      if IsUniverseSpoken(typing, s) {
        var c :| s.speaker in typing && typing[s.speaker] == PrincipalType && c in typing &&
          s.assertion == FactAssertion(Fact([], U.MembershipFact(c, typing[c])));
        ConstantTypesOccur(prog, env, typing, c);
      } else {
        var a :| Spoken(s.speaker, a) in AllSpoken(prog.saysAssertions) && s.assertion == U.Conditioned(env, a);
        ConditionedKeepsHead(env, a);
      }
    }
  }

  lemma InsertedBodies(prog: AuthLogic.Program, env: U.Environment, typing: U.Typing, out: AuthLogic.Program, s: Spoken, b: BaseFact)
    requires U.IsInsertion(prog, env, typing, out) && s in AllSpoken(out.saysAssertions) && b in s.assertion.Body()
    ensures IsUsed(prog, b) || exists v, t :: b == U.MembershipFact(v, t) && U.TypeOccurs(prog.declarations, t)
  {
    InsertedSpoken(prog, env, typing, out, s);
    assert U.Declares(prog.declarations, env);
    hide U.IsInsertion, U.Conditioned, U.Conditions, U.TypeOccurs;
    if IsConditionedSpoken(prog, env, s) {
      var a :| Spoken(s.speaker, a) in AllSpoken(prog.saysAssertions) && s.assertion == U.Conditioned(env, a);
      ConditionedKeepsHead(env, a);
      InConcat(U.Conditions(env, a.Head().base), a.Body(), b);
      if b in U.Conditions(env, a.Head().base) {
        ConditionsAreTypes(env, a.Head().base, b);
        var v, t :| HasType(env, a.Head().base, v, t) && b == U.MembershipFact(v, t);
        HeadTypesOccur(prog.declarations, env, a.Head().base, v, t);
      } else {
        assert b in Spoken(s.speaker, a).assertion.Body();
      }
    }
  }

  /** Insertion uses the universe relations as it declares them. */
  lemma InsertionIsWellUsed(prog: AuthLogic.Program, env: U.Environment, typing: U.Typing, out: AuthLogic.Program)
    requires U.IsInsertion(prog, env, typing, out) && IsWellUsed(prog)
    ensures IsWellUsed(out)
  {
    hide U.IsInsertion, U.TypeOccurs, Arity, LoweredFacts;
    forall b | IsUsed(out, b) && !b.CanActAs?
      ensures HasItsDeclaration(out.declarations, b)
    {
      if f :| f in LoweredFacts(out) && f.base == b {
        InsertedFacts(prog, env, typing, out, f);
      } else {
        var s :| s in AllSpoken(out.saysAssertions) && b in s.assertion.Body();
        InsertedBodies(prog, env, typing, out, s, b);
      }
      if IsUsed(prog, b) {
        assert HasItsDeclaration(prog.declarations, b);
        DeclarationsAreKept(prog, env, typing, out, b);
      } else {
        var v, t :| b == U.MembershipFact(v, t) && U.TypeOccurs(prog.declarations, t);
        MembershipHasItsDeclaration(prog, env, typing, out, v, t);
      }
    }
  }

  // ---------- Delegation after insertion ----------

  lemma RecordedFact(prog: AuthLogic.Program, n: string, k: nat)
    requires k > 0
    ensures IsRecorded(prog, n, k) <==>
      exists f :: f in LoweredFacts(prog) && BasePredicate(f.base).name == n && |f.delegationChain| >= k
  {
    hide LoweredFacts, BasePredicate;
    if IsRecorded(prog, n, k) {
      var f := DepthsAreAttained(LoweredFacts(prog), n);
    }
    if f :| f in LoweredFacts(prog) && BasePredicate(f.base).name == n && |f.delegationChain| >= k {
      DepthsAreMaxima(map[], LoweredFacts(prog), f);
    }
  }

  /** Insertion delegates nothing, so the depth table records the same forms. */
  lemma InsertionKeepsDepths(prog: AuthLogic.Program, env: U.Environment, typing: U.Typing, out: AuthLogic.Program, n: string, k: nat)
    requires U.IsInsertion(prog, env, typing, out)
    ensures IsRecorded(out, n, k) <==> IsRecorded(prog, n, k)
  {
    hide U.IsInsertion, LoweredFacts, BasePredicate, U.TypeOccurs, IsRecorded;
    if k > 0 {
      RecordedFact(prog, n, k);
      RecordedFact(out, n, k);
      if f :| f in LoweredFacts(prog) && BasePredicate(f.base).name == n && |f.delegationChain| >= k {
        InsertedFacts(prog, env, typing, out, f);
      }
      if f :| f in LoweredFacts(out) && BasePredicate(f.base).name == n && |f.delegationChain| >= k {
        InsertedFacts(prog, env, typing, out, f);
      }
    } else {
      NoDepthIsRecorded(prog, n);
      NoDepthIsRecorded(out, n);
    }
  }

  lemma NoDepthIsRecorded(prog: AuthLogic.Program, n: string)
    ensures IsRecorded(prog, n, 0)
  {
  }

  lemma BaseRelations()
    ensures forall b: BaseFact :: BasePredicate(b).name == RelationOf(b)
  {
    forall b: BaseFact
      ensures BasePredicate(b).name == RelationOf(b)
    {
      if b.AttributeFact? {
        assert "" + b.pred.name == b.pred.name;
      }
    }
  }

  /** Nobody delegates a fact about a universe. */
  lemma UniversesAreNotDelegated(prog: AuthLogic.Program, n: string, k: nat)
    requires IsPlain(prog) && KeepsUniversesApart(prog) && IsUniverseName(prog.declarations, n) && IsRecorded(prog, n, k)
    ensures k == 0
  {
    BaseRelations();
    if k > 0 {
      RecordedFact(prog, n, k);
      var f :| f in LoweredFacts(prog) && BasePredicate(f.base).name == n && |f.delegationChain| >= k;
      IsSpokenFact(prog, f);
      ActAsIsNoUniverse(prog.declarations);
    }
  }

  lemma InsertedIsDeclared(prog: AuthLogic.Program, env: U.Environment, typing: U.Typing, out: AuthLogic.Program, n: string)
    requires U.IsInsertion(prog, env, typing, out)
    ensures IsDeclared(out.declarations, n) <==> IsDeclared(prog.declarations, n) || IsUniverseName(prog.declarations, n)
  {
    var ds := prog.declarations;
    var more := out.declarations[|ds|..];
    assert out.declarations == ds + more && U.AreUniverseDeclarations(ds, more);
    hide U.IsInsertion, U.AreUniverseDeclarations, IsDeclared, IsUniverseName;
    DeclaredInParts(ds, more, n);
    DeclaredUniverses(ds, more, n);
  }

  lemma DeclaredInParts(a: seq<RelationDeclaration>, b: seq<RelationDeclaration>, n: string)
    ensures IsDeclared(a + b, n) <==> IsDeclared(a, n) || IsDeclared(b, n)
  {
    var all := a + b;
    if i :| 0 <= i < |all| && all[i].name == n {
      assert if i < |a| then a[i].name == n else b[i - |a|].name == n;
    }
    if i :| 0 <= i < |a| && a[i].name == n {
      assert all[i].name == n;
    }
    if i :| 0 <= i < |b| && b[i].name == n {
      assert all[|a| + i].name == n;
    }
  }

  lemma DeclaredUniverses(ds: seq<RelationDeclaration>, more: seq<RelationDeclaration>, n: string)
    requires U.AreUniverseDeclarations(ds, more)
    ensures IsDeclared(more, n) <==> IsUniverseName(ds, n)
  {
    hide U.TypeOccurs;
    if i :| 0 <= i < |more| && more[i].name == n {
      assert more[i] in more;
    }
    if t :| U.TypeOccurs(ds, t) && n == U.UniverseName(t) {
      var j := IndexOf(more, U.UniverseDeclaration(t));
    }
  }

  lemma InsertionKeepsDelegation(prog: AuthLogic.Program, env: U.Environment, typing: U.Typing, out: AuthLogic.Program)
    requires U.IsInsertion(prog, env, typing, out) && IsPlain(prog) && KeepsUniversesApart(prog)
    ensures HasShallowDelegation(out) <==> HasShallowDelegation(prog)
    ensures DelegatesActing(out) <==> DelegatesActing(prog)
  {
    hide U.IsInsertion, IsPlain, KeepsUniversesApart, IsUniverseName, IsDeclared;
    forall n
      ensures IsRecorded(out, n, 1) <==> IsRecorded(prog, n, 1)
      ensures IsRecorded(out, n, 2) <==> IsRecorded(prog, n, 2)
      ensures IsDelegated(out, n) <==> IsDelegated(prog, n)
    {
      InsertionKeepsDepths(prog, env, typing, out, n, 1);
      InsertionKeepsDepths(prog, env, typing, out, n, 2);
      InsertedIsDeclared(prog, env, typing, out, n);
      if IsRecorded(prog, n, 1) && IsUniverseName(prog.declarations, n) {
        UniversesAreNotDelegated(prog, n, 1);
      }
    }
    hide IsDelegated;
    forall n | IsDelegated(prog, n)
      ensures Depths(out)[n] <= 1 <==> Depths(prog)[n] <= 1
    {
      DelegatedIsRecorded(prog, n);
      DelegatedIsRecorded(out, n);
    }
  }

  lemma DelegatedIsRecorded(prog: AuthLogic.Program, n: string)
    requires IsDelegated(prog, n)
    ensures n in Depths(prog) && (Depths(prog)[n] <= 1 <==> !IsRecorded(prog, n, 2))
  {
  }

  // ---------- Both passes together ----------

  ghost predicate IsUniverseForm(ds: seq<RelationDeclaration>, name: string) {
    exists n :: IsUniverseName(ds, n) && name == SAYS + n
  }

  /** Insertion adds the undelegated forms of the universes. */
  lemma InsertedFormNames(prog: AuthLogic.Program, env: U.Environment, typing: U.Typing, out: AuthLogic.Program, name: string)
    requires U.IsInsertion(prog, env, typing, out) && IsPlain(prog) && KeepsUniversesApart(prog)
    ensures IsFormName(out, name) <==> IsFormName(prog, name) || IsUniverseForm(prog.declarations, name)
  {
    hide U.IsInsertion, IsPlain, KeepsUniversesApart, IsUniverseName, IsDeclared, IsRecorded, CanSayName;
    forall n, k: nat
      ensures IsRecorded(out, n, k) <==> IsRecorded(prog, n, k)
      ensures IsDeclared(out.declarations, n) <==> IsDeclared(prog.declarations, n) || IsUniverseName(prog.declarations, n)
      ensures IsUniverseName(prog.declarations, n) && IsRecorded(prog, n, k) ==> CanSayName(k, n) == n
    {
      InsertionKeepsDepths(prog, env, typing, out, n, k);
      InsertedIsDeclared(prog, env, typing, out, n);
      if IsUniverseName(prog.declarations, n) && IsRecorded(prog, n, k) {
        UniversesAreNotDelegated(prog, n, k);
        FormOfNothing(n);
      }
    }
    if n, k: nat :| IsDeclared(out.declarations, n) && IsRecorded(out, n, k) && name == SAYS + CanSayName(k, n) {
      assert IsRecorded(prog, n, k);
    }
    if n, k: nat :| IsDeclared(prog.declarations, n) && IsRecorded(prog, n, k) && name == SAYS + CanSayName(k, n) {
      assert IsDeclared(out.declarations, n) && IsRecorded(out, n, k);
    }
    if n :| IsUniverseName(prog.declarations, n) && name == SAYS + n {
      NoDepthIsRecorded(prog, n);
      FormOfNothing(n);
      assert IsDeclared(out.declarations, n) && IsRecorded(out, n, 0) && name == SAYS + CanSayName(0, n);
    }
  }

  /**
   The declarations of the compiled program are right in every visiting order
   exactly when the user's program delegates shallowly, does not delegate
   canActAs, and gives queries names of their own.
   */
  lemma CompiledDeclarationsAreRightIff(prog: AuthLogic.Program, env: U.Environment, typing: U.Typing, out: AuthLogic.Program)
    requires U.IsInsertion(prog, env, typing, out) && IsPlain(prog) && KeepsUniversesApart(prog)
    requires WellDeclared(prog.declarations) && UniversesAreFree(prog.declarations)
    ensures IsAlwaysFullyDeclared(out) <==>
      HasShallowDelegation(prog) && !DelegatesActing(prog) && HasFreeQueryNames(prog) &&
      forall q :: q in prog.queries ==> !IsUniverseForm(prog.declarations, q.name)
  {
    InsertionDeclaresOnceIff(prog, env, typing, out);
    DeclarationsAreRightIff(out);
    InsertionKeepsDelegation(prog, env, typing, out);
    assert out.queries == prog.queries;
    hide U.IsInsertion, IsPlain, KeepsUniversesApart, WellDeclared, UniversesAreFree, IsFormName, IsUniverseForm;
    forall name
      ensures IsFormName(out, name) <==> IsFormName(prog, name) || IsUniverseForm(prog.declarations, name)
    {
      InsertedFormNames(prog, env, typing, out, name);
    }
  }

  /**
   Every predicate of the compiled rules has exactly one declaration, with its
   arity, when the declarations that are emitted for the compiled program are
   right.
   */
  lemma CompiledUsesAreDeclaredOnce(prog: AuthLogic.Program, env: U.Environment, typing: U.Typing, out: AuthLogic.Program,
                                    names: seq<string>, rule: Rule, p: Predicate)
    requires U.IsInsertion(prog, env, typing, out) && IsWellUsed(prog) && IsFullyDeclared(out, names)
    requires rule in LoweredRules(out) && (p == rule.lhs || p in rule.rhs)
    ensures IsDeclaredOnce(LoweredProgram(out, names).declarations, p.name, |p.args|)
  {
    InsertionIsWellUsed(prog, env, typing, out);
    UsesAreDeclaredOnce(out, names, rule, p);
  }
}
