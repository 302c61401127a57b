/**
 The predicates that the rules of the lowered program use, and how often a name
 is declared.
 */
module DeclarationUses {
  import opened Names
  import opened Seqs
  import opened Datalog
  import opened AuthLogic
  import opened Lowering
  import opened Declarations
  import opened LoweringPass
  import LC = LoweringCorrect

  // ---------- What the depth table records ----------

  lemma {:induction false} DepthsAreMaxima(depths: map<string, nat>, fs: seq<Fact>, f: Fact)
    requires f in fs
    ensures BasePredicate(f.base).name in DeepenFacts(depths, fs)
    ensures |f.delegationChain| <= DeepenFacts(depths, fs)[BasePredicate(f.base).name]
  {
    hide BasePredicate;
    InInitOrLast(fs, f);
    var init := fs[..|fs| - 1];
    if f in init {
      DepthsAreMaxima(depths, init, f);
    }
  }

  /** The recorded depth is that of some fact. */
  lemma {:induction false} DepthsAreAttained(fs: seq<Fact>, name: string) returns (f: Fact)
    requires name in DeepenFacts(map[], fs)
    ensures f in fs && BasePredicate(f.base).name == name && |f.delegationChain| == DeepenFacts(map[], fs)[name]
  {
    hide BasePredicate;
    var init, last := fs[..|fs| - 1], fs[|fs| - 1];
    var before := DeepenFacts(map[], init);
    if name in before && before[name] == DeepenFacts(map[], fs)[name] {
      f := DepthsAreAttained(init, name);
    } else {
      f := last;
    }
  }

  lemma HeadIsCounted(prog: AuthLogic.Program, s: Spoken)
    requires s in AllSpoken(prog.saysAssertions)
    ensures s.assertion.Head() in LoweredFacts(prog)
  {
    var said := AllSpoken(prog.saysAssertions);
    var i := IndexOf(said, s);
    assert Heads(said)[i] == s.assertion.Head();
    InConcat(Heads(said), QueryFacts(prog.queries), s.assertion.Head());
  }

  lemma QueryIsCounted(prog: AuthLogic.Program, q: Query)
    requires q in prog.queries
    ensures q.fact in LoweredFacts(prog)
  {
    var i := IndexOf(prog.queries, q);
    assert QueryFacts(prog.queries)[i] == q.fact;
    InConcat(Heads(AllSpoken(prog.saysAssertions)), QueryFacts(prog.queries), q.fact);
  }

  // ---------- Which forms the rules use ----------

  lemma {:induction false} NestName(p: Predicate, chain: seq<string>)
    ensures Nest(p, chain).name == CanSayName(|chain|, p.name)
    ensures |Nest(p, chain).args| == |chain| + |p.args|
  {
    if chain != [] {
      NestName(p, chain[..|chain| - 1]);
    }
  }

  /** `p` is some principal saying the `k`-fold delegation of the relation of `base`. */
  predicate IsForm(p: Predicate, base: BaseFact, k: nat) {
    p.name == SAYS + CanSayName(k, BasePredicate(base).name) && |p.args| == 1 + k + |BasePredicate(base).args|
  }

  /** `b` occurs in the program; canActAs occurs in every program with an attribute or canActAs fact. */
  ghost predicate IsUsed(prog: AuthLogic.Program, b: BaseFact) {
    b.CanActAs? || (exists f :: f in LoweredFacts(prog) && f.base == b) ||
    exists s :: s in AllSpoken(prog.saysAssertions) && b in s.assertion.Body()
  }

  /** `p` is a form of a relation of the program that is not nested deeper than the depth table records. */
  ghost predicate IsRecordedForm(prog: AuthLogic.Program, p: Predicate) {
    exists base, k: nat :: IsUsed(prog, base) && IsForm(p, base, k) && IsRecorded(prog, BasePredicate(base).name, k)
  }

  /** The relation is delegated at least `k` times somewhere. */
  predicate IsRecorded(prog: AuthLogic.Program, name: string, k: nat) {
    k > 0 ==> name in Depths(prog) && k <= Depths(prog)[name]
  }

  lemma FactIsForm(speaker: string, f: Fact)
    ensures IsForm(SaidPredicate(speaker, FactPredicate(f)), f.base, |f.delegationChain|)
  {
    NestName(BasePredicate(f.base), f.delegationChain);
  }

  lemma FactIsRecorded(prog: AuthLogic.Program, speaker: string, f: Fact, k: nat)
    requires f in LoweredFacts(prog) && k <= |f.delegationChain|
    ensures IsRecordedForm(prog, SaidPredicate(speaker, FactPredicate(Fact(f.delegationChain[..k], f.base))))
  {
    DepthsAreMaxima(map[], LoweredFacts(prog), f);
    FactIsForm(speaker, Fact(f.delegationChain[..k], f.base));
    assert IsUsed(prog, f.base) && IsRecorded(prog, BasePredicate(f.base).name, k);
  }

  /** A base fact that differs from one of the program at most in its arguments. */
  lemma BaseIsRecorded(prog: AuthLogic.Program, speaker: string, a: BaseFact, b: BaseFact)
    requires IsUsed(prog, b)
    requires BasePredicate(a).name == BasePredicate(b).name && |BasePredicate(a).args| == |BasePredicate(b).args|
    ensures IsRecordedForm(prog, SaidPredicate(speaker, BasePredicate(a)))
  {
    FactIsForm(speaker, Fact([], a));
    assert IsForm(SaidPredicate(speaker, BasePredicate(a)), b, 0) && IsRecorded(prog, BasePredicate(b).name, 0);
  }

  lemma LevelUses(prog: AuthLogic.Program, s: Spoken, k: nat, y: string)
    requires s in AllSpoken(prog.saysAssertions) && k < |s.assertion.Head().delegationChain|
    ensures
      var rule := LC.LevelRule(s, k, y);
      IsRecordedForm(prog, rule.lhs) && IsRecordedForm(prog, rule.rhs[0]) && IsRecordedForm(prog, rule.rhs[1])
  {
    hide BasePredicate;
    var head := s.assertion.Head();
    HeadIsCounted(prog, s);
    FactIsRecorded(prog, s.speaker, head, k);
    FactIsRecorded(prog, y, head, k);
    DepthsAreMaxima(map[], LoweredFacts(prog), head);
    var g := Fact(head.delegationChain[..k] + [y], head.base);
    assert g.delegationChain[..k] == head.delegationChain[..k];
    FactIsForm(s.speaker, g);
    assert IsForm(LC.LevelRule(s, k, y).rhs[1], head.base, k + 1);
    assert IsUsed(prog, head.base) && IsRecorded(prog, BasePredicate(head.base).name, k + 1);
  }

  lemma ActingUses(prog: AuthLogic.Program, s: Spoken, y: string)
    requires s in AllSpoken(prog.saysAssertions) && !s.assertion.Head().base.PredicateFact?
    ensures
      var rule := LC.ActingRule(s, y);
      IsRecordedForm(prog, rule.lhs) && IsRecordedForm(prog, rule.rhs[0]) && IsRecordedForm(prog, rule.rhs[1])
  {
    hide IsRecordedForm;
    var base := s.assertion.Head().base;
    HeadIsCounted(prog, s);
    assert IsUsed(prog, base);
    BaseIsRecorded(prog, s.speaker, base, base);
    match base {
      case AttributeFact(x, pred) =>
        BaseIsRecorded(prog, s.speaker, AttributeFact(y, pred), base);
        BaseIsRecorded(prog, s.speaker, CanActAs(y, x), CanActAs(y, x));
      case CanActAs(x, z) =>
        BaseIsRecorded(prog, s.speaker, CanActAs(y, z), base);
        BaseIsRecorded(prog, s.speaker, CanActAs(y, x), base);
    }
  }

  /** Every predicate in a rule generated from an assertion is a form the depth table records. */
  lemma SpokenUsesAreRecorded(prog: AuthLogic.Program, rule: Rule, p: Predicate)
    requires rule in SpokenRules(AllSpoken(prog.saysAssertions), 0)
    requires p == rule.lhs || p in rule.rhs
    ensures IsRecordedForm(prog, p)
  {
    hide IsRecordedForm, SpokenRules;
    var origin := LC.SpokenRuleHasOrigin(AllSpoken(prog.saysAssertions), 0, rule);
    match origin {
      case Main(s) =>
        HeadIsCounted(prog, s);
        var head := s.assertion.Head();
        assert head.delegationChain[..|head.delegationChain|] == head.delegationChain;
        FactIsRecorded(prog, s.speaker, head, |head.delegationChain|);
        if p in rule.rhs {
          var i := IndexOf(rule.rhs, p);
          assert s.assertion.Body()[i] in s.assertion.Body();
          BaseIsRecorded(prog, s.speaker, s.assertion.Body()[i], s.assertion.Body()[i]);
        }
      case Level(s, k, n) =>
        LevelUses(prog, s, k, FreshName(n));
      case Acting(s, n) =>
        ActingUses(prog, s, FreshName(n));
    }
  }

  /** The fact a query asks about is a form the depth table records. */
  lemma QueryUsesAreRecorded(prog: AuthLogic.Program, q: Query)
    requires q in prog.queries
    ensures IsRecordedForm(prog, QueryRule(q).rhs[0])
  {
    QueryIsCounted(prog, q);
    var f := q.fact;
    assert f.delegationChain[..|f.delegationChain|] == f.delegationChain;
    FactIsRecorded(prog, q.principal, f, |f.delegationChain|);
  }

  // ---------- How often a name is declared ----------

  function Count(ds: seq<RelationDeclaration>, name: string): nat {
    if ds == [] then 0 else Count(ds[..|ds| - 1], name) + if ds[|ds| - 1].name == name then 1 else 0
  }

  lemma {:induction false} CountConcat(a: seq<RelationDeclaration>, b: seq<RelationDeclaration>, name: string)
    ensures Count(a + b, name) == Count(a, name) + Count(b, name)
  {
    if b == [] {
      assert a + b == a;
    } else {
      var init := b[..|b| - 1];
      assert (a + b)[..|a + b| - 1] == a + init;
      CountConcat(a, init, name);
    }
  }

  lemma {:induction false} CountSays(ds: seq<RelationDeclaration>, name: string)
    ensures Count(SaysDeclarations(ds), SAYS + name) == Count(ds, name)
  {
    if ds != [] {
      var init, d := ds[..|ds| - 1], ds[|ds| - 1];
      assert SaysDeclarations(ds)[..|ds| - 1] == SaysDeclarations(init);
      CountSays(init, name);
      assert (SAYS + d.name)[|SAYS|..] == d.name && (SAYS + name)[|SAYS|..] == name;
    }
  }

  /** Two forms have the same name only if they are the same form of the same relation. */
  lemma FormsDiffer(i: nat, n: string, i': nat, n': string)
    requires !StartsWith(n, CAN_SAY) && !StartsWith(n', CAN_SAY)
    requires CanSayName(i, n) == CanSayName(i', n')
    ensures i == i' && n == n'
  {
    CanSayNameLevel(i, n);
    CanSayNameLevel(i', n');
  }

  lemma {:induction false} CountForms(d: Delegated, k: nat, n: string)
    requires !StartsWith(d.base.name, CAN_SAY) && !StartsWith(n, CAN_SAY)
    ensures Count(Forms(d), CanSayName(k, n)) == if d.base.name == n && 1 <= k <= d.depth then 1 else 0
    decreases d.depth
  {
    if d.depth > 0 {
      var smaller := Delegated(d.base, d.depth - 1);
      CountForms(smaller, k, n);
      assert Forms(d)[..d.depth - 1] == Forms(smaller);
      FormName(d.base, d.depth);
      if CanSayName(d.depth, d.base.name) == CanSayName(k, n) {
        FormsDiffer(d.depth, d.base.name, k, n);
      }
    }
  }

  predicate Delegates(work: seq<Delegated>, k: nat, n: string) {
    exists j :: 0 <= j < |work| && work[j].base.name == n && 1 <= k <= work[j].depth
  }

  lemma {:induction false} CountAllForms(work: seq<Delegated>, k: nat, n: string)
    requires WellNamed(work) && !StartsWith(n, CAN_SAY)
    ensures Count(AllForms(work), CanSayName(k, n)) == if Delegates(work, k, n) then 1 else 0
  {
    if work != [] {
      var init, last := work[..|work| - 1], work[|work| - 1];
      CountAllForms(init, k, n);
      CountConcat(AllForms(init), Forms(last), CanSayName(k, n));
      CountForms(last, k, n);
      if Delegates(init, k, n) {
        var j :| 0 <= j < |init| && init[j].base.name == n && 1 <= k <= init[j].depth;
        assert work[j] == init[j];
      }
    }
  }

  /** Relations are declared once each, under names the pass does not use itself. */
  predicate WellDeclared(ds: seq<RelationDeclaration>) {
    (forall i :: 0 <= i < |ds| ==> !StartsWith(ds[i].name, CAN_SAY) && ds[i].name != CAN_ACT_AS) &&
    (forall i, j :: 0 <= i < j < |ds| ==> ds[i].name != ds[j].name)
  }

  lemma {:induction false} CountDeclared(ds: seq<RelationDeclaration>, k: nat, n: string)
    requires WellDeclared(ds) && !StartsWith(n, CAN_SAY)
    ensures Count(ds, CanSayName(k, n)) == if k == 0 && exists i :: 0 <= i < |ds| && ds[i].name == n then 1 else 0
  {
    if ds != [] {
      var init, d := ds[..|ds| - 1], ds[|ds| - 1];
      CountDeclared(init, k, n);
      if d.name == CanSayName(k, n) {
        FormsDiffer(0, d.name, k, n);
      }
      if i :| 0 <= i < |init| && init[i].name == n {
        assert ds[i].name == n;
      }
    }
  }

  // ---------- The relations the pass processes ----------

  lemma {:induction false} EnvironmentMapsNames(ds: seq<RelationDeclaration>, n: string)
    requires n in TypeEnvironment(ds)
    ensures TypeEnvironment(ds)[n].name == n && TypeEnvironment(ds)[n] in ds
  {
    var init := ds[..|ds| - 1];
    if n in TypeEnvironment(init) {
      EnvironmentMapsNames(init, n);
    }
  }

  lemma {:induction false} EnvironmentFinds(ds: seq<RelationDeclaration>, i: nat)
    requires WellDeclared(ds) && i < |ds|
    ensures ds[i].name in TypeEnvironment(ds) && TypeEnvironment(ds)[ds[i].name] == ds[i]
  {
    var n := |ds| - 1;
    var init := ds[..n];
    if i < n {
      EnvironmentFinds(init, i);
    } else if ds[n].name in TypeEnvironment(init) {
      EnvironmentMapsNames(init, ds[n].name);
    }
  }

  /** What the processed relations are, whatever the order. */
  lemma {:induction false} WorkEntries(env: map<string, RelationDeclaration>, depths: map<string, nat>, names: seq<string>,
                                       j: nat)
    returns (i: nat)
    requires forall n :: n in names ==> n in depths
    requires j < |Work(env, depths, names)|
    ensures i < |names| && names[i] in env && depths[names[i]] >= 1
    ensures Work(env, depths, names)[j] == Delegated(env[names[i]], depths[names[i]])
  {
    var init := names[..|names| - 1];
    if j < |Work(env, depths, init)| {
      i := WorkEntries(env, depths, init, j);
    } else {
      i := |names| - 1;
    }
  }

  lemma {:induction false} WorkHasEntry(env: map<string, RelationDeclaration>, depths: map<string, nat>, names: seq<string>,
                                        n: string)
    returns (j: nat)
    requires forall n :: n in names ==> n in depths
    requires n in names && n in env && depths[n] >= 1
    ensures j < |Work(env, depths, names)| && Work(env, depths, names)[j] == Delegated(env[n], depths[n])
  {
    InInitOrLast(names, n);
    var init := names[..|names| - 1];
    if n == names[|names| - 1] {
      j := |Work(env, depths, init)|;
    } else {
      j := WorkHasEntry(env, depths, init, n);
    }
  }

  lemma {:induction false} WorkIsWellNamed(ds: seq<RelationDeclaration>, depths: map<string, nat>, names: seq<string>)
    requires WellDeclared(ds)
    requires forall n :: n in names ==> n in depths
    requires forall i, j :: 0 <= i < j < |names| ==> names[i] != names[j]
    ensures WellNamed(Work(TypeEnvironment(ds), depths, names))
  {
    var env := TypeEnvironment(ds);
    if names != [] {
      var init, n := names[..|names| - 1], names[|names| - 1];
      WorkIsWellNamed(ds, depths, init);
      var before := Work(env, depths, init);
      if depths[n] > 0 && n in env {
        EnvironmentMapsNames(ds, n);
        forall j | 0 <= j < |before|
          ensures before[j].base.name != n
        {
          var i := WorkEntries(env, depths, init, j);
          EnvironmentMapsNames(ds, init[i]);
          assert names[i] != names[|names| - 1];
        }
      }
    }
  }

  lemma TransformKeepsNames(ds: seq<RelationDeclaration>)
    requires WellDeclared(ds)
    ensures WellDeclared(TransformAttributes(ds))
  {
  }
}
