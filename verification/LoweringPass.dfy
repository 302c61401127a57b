/**
 The stateful pass that lowers a program.  It numbers the variables it invents
 and remembers how deep each relation is delegated; every method is tied to
 the stateless description in module Lowering.
 */
module LoweringPass {
  import opened Names
  import opened Checks
  import opened Datalog
  import opened AuthLogic
  import opened Lowering
  import opened Declarations

  const UINT64_MAX: nat := 0xffff_ffff_ffff_ffff

  // ---------- The delegation-depth table ----------

  function Deepen(depths: map<string, nat>, name: string, depth: nat): map<string, nat> {
    depths[name := if name in depths && depths[name] > depth then depths[name] else depth]
  }

  function DeepenFact(depths: map<string, nat>, f: Fact): map<string, nat> {
    Deepen(depths, BasePredicate(f.base).name, |f.delegationChain|)
  }

  function DeepenFacts(depths: map<string, nat>, fs: seq<Fact>): map<string, nat> {
    if fs == [] then depths else DeepenFact(DeepenFacts(depths, fs[..|fs| - 1]), fs[|fs| - 1])
  }

  function Heads(said: seq<Spoken>): (r: seq<Fact>)
    ensures |r| == |said|
  {
    seq(|said|, i requires 0 <= i < |said| => said[i].assertion.Head())
  }

  function QueryFacts(qs: seq<Query>): (r: seq<Fact>)
    ensures |r| == |qs|
  {
    seq(|qs|, i requires 0 <= i < |qs| => qs[i].fact)
  }

  /** The facts that count towards the depth table: heads of assertions, then queries. */
  function LoweredFacts(prog: AuthLogic.Program): seq<Fact> {
    Heads(AllSpoken(prog.saysAssertions)) + QueryFacts(prog.queries)
  }

  lemma DeepenAppend(depths: map<string, nat>, fs: seq<Fact>, f: Fact)
    ensures DeepenFacts(depths, fs + [f]) == DeepenFact(DeepenFacts(depths, fs), f)
  {
  }

  lemma {:induction false} DeepenConcat(depths: map<string, nat>, a: seq<Fact>, b: seq<Fact>)
    ensures DeepenFacts(depths, a + b) == DeepenFacts(DeepenFacts(depths, a), b)
  {
    if b == [] {
      assert a + b == a;
    } else {
      var init, f := b[..|b| - 1], b[|b| - 1];
      assert a + b == (a + init) + [f];
      DeepenAppend(depths, a + init, f);
      DeepenConcat(depths, a, init);
    }
  }

  // ---------- How the description grows by one element ----------

  lemma {:induction false} DemandConcat(a: seq<Spoken>, b: seq<Spoken>)
    ensures Demand(a + b) == Demand(a) + Demand(b)
  {
    hide AssertionDemand;
    if a == [] {
      assert a + b == b;
    } else {
      assert (a + b)[1..] == a[1..] + b;
      DemandConcat(a[1..], b);
    }
  }

  lemma {:induction false} SpokenRulesConcat(a: seq<Spoken>, b: seq<Spoken>, n: nat)
    ensures SpokenRules(a + b, n) == SpokenRules(a, n) + SpokenRules(b, n + Demand(a))
  {
    hide AssertionDemand, AssertionRules;
    if a == [] {
      assert a + b == b;
    } else {
      var d := AssertionDemand(a[0].assertion);
      assert (a + b)[1..] == a[1..] + b;
      SpokenRulesConcat(a[1..], b, n + d);
      assert n + d + Demand(a[1..]) == n + Demand(a);
    }
  }

  lemma NothingSpoken(n: nat)
    ensures SpokenRules([], n) == [] && Demand([]) == 0 && Heads([]) == []
  {
  }

  lemma NothingDeepened(depths: map<string, nat>)
    ensures DeepenFacts(depths, []) == depths
  {
  }

  lemma SpokenRulesOne(s: Spoken, n: nat)
    ensures SpokenRules([s], n) == AssertionRules(s, n)
    ensures Demand([s]) == AssertionDemand(s.assertion)
  {
  }

  lemma NestAppend(p: Predicate, chain: seq<string>, k: nat)
    requires k < |chain|
    ensures Nest(p, chain[..k + 1]) == PushPrincipal(CAN_SAY, chain[k], Nest(p, chain[..k]))
  {
    assert chain[..k + 1][..k] == chain[..k];
  }

  lemma NextDelegationRule(speaker: string, base: Predicate, chain: seq<string>, n: nat, k: nat)
    requires k < |chain|
    ensures DelegationRules(speaker, base, chain[..k + 1], n) ==
            DelegationRules(speaker, base, chain[..k], n) + [DelegationRule(speaker, Nest(base, chain[..k]), FreshName(n + k + 1))]
  {
    hide Nest, DelegationRule, FreshName;
    assert chain[..k + 1][..k] == chain[..k];
    forall j | 0 <= j < k
      ensures chain[..k + 1][..j] == chain[..k][..j]
    {
    }
  }

  lemma NoDelegation(base: Predicate, speaker: string, n: nat)
    ensures Nest(base, []) == base && DelegationRules(speaker, base, [], n) == []
  {
  }

  // ---------- The pass ----------

  class LoweringToDatalogPass {
    var freshVarCount: nat
    var canSayDepth: map<string, nat>

    ghost predicate Valid()
      reads this
    {
      freshVarCount <= UINT64_MAX
    }

    constructor ()
      ensures Valid() && freshVarCount == 0 && canSayDepth == map[]
    {
      freshVarCount := 0;
      canSayDepth := map[];
    }

    method FreshVar() returns (r: Checked<string>)
      requires Valid()
      modifies this`freshVarCount
      ensures Valid()
      ensures old(freshVarCount) < 18446744073709551615 ==>
        r == Passed(FreshName(old(freshVarCount) + 1)) && freshVarCount == old(freshVarCount) + 1
      ensures old(freshVarCount) == 18446744073709551615 ==> r == CheckFailed
    {
      if freshVarCount >= UINT64_MAX {
        return CheckFailed;
      }
      freshVarCount := freshVarCount + 1;
      return Passed(FreshName(freshVarCount));
    }

    method UpdateCanSayDepth(name: string, depth: nat)
      modifies this`canSayDepth
      ensures canSayDepth == Deepen(old(canSayDepth), name, depth)
    {
      if name in canSayDepth {
        var stored := canSayDepth[name];
        canSayDepth := canSayDepth[name := if depth < stored then stored else depth];
      } else {
        canSayDepth := canSayDepth[name := depth];
      }
    }

    method BaseFactToDlir(speaker: string, b: BaseFact) returns (r: Checked<(Predicate, seq<Rule>)>)
      requires Valid()
      modifies this`freshVarCount
      ensures Valid()
      ensures old(freshVarCount) + BaseDemand(b) <= UINT64_MAX ==>
        r == Passed((BasePredicate(b), BaseRules(speaker, b, old(freshVarCount)))) &&
        freshVarCount == old(freshVarCount) + BaseDemand(b)
      ensures old(freshVarCount) + BaseDemand(b) > UINT64_MAX ==> r == CheckFailed
    {
      match b
      case PredicateFact(p) =>
        return Passed((p, []));
      case AttributeFact(x, p) =>
        var y :- FreshVar();
        return Passed((AttributeToDlir(x, p), [SpokenAttributeRule(speaker, x, p, y)]));
      case CanActAs(x, z) =>
        var y :- FreshVar();
        return Passed((CanActAsToDlir(x, z), [SpokenCanActAsRule(speaker, x, z, y)]));
    }

    method FactToDlir(speaker: string, f: Fact) returns (r: Checked<(Predicate, seq<Rule>)>)
      requires Valid()
      modifies this
      ensures Valid()
      ensures old(freshVarCount) + FactDemand(f) <= UINT64_MAX ==>
        r == Passed((FactPredicate(f), FactRules(speaker, f, old(freshVarCount)))) &&
        freshVarCount == old(freshVarCount) + FactDemand(f) &&
        canSayDepth == DeepenFact(old(canSayDepth), f)
      ensures old(freshVarCount) + FactDemand(f) > UINT64_MAX ==> r == CheckFailed
    {
      hide BaseRules, BasePredicate, DelegationRules, DelegationRule, PushPrincipal, Deepen, FreshName, Nest;
      var base :- BaseFactToDlir(speaker, f.base);
      var inner, genRules := base.0, base.1;
      ghost var n := freshVarCount;
      var chain := f.delegationChain;
      NoDelegation(base.0, speaker, n);
      for k := 0 to |chain|
        invariant Valid() && canSayDepth == old(canSayDepth)
        invariant freshVarCount == n + k == old(freshVarCount) + BaseDemand(f.base) + k
        invariant inner == Nest(base.0, chain[..k])
        invariant genRules == base.1 + DelegationRules(speaker, base.0, chain[..k], n)
      {
        var y :- FreshVar();
        NextDelegationRule(speaker, base.0, chain, n, k);
        genRules := genRules + [DelegationRule(speaker, inner, y)];
        NestAppend(base.0, chain, k);
        inner := PushPrincipal(CAN_SAY, chain[k], inner);
      }
      assert chain[..|chain|] == chain;
      UpdateCanSayDepth(base.0.name, |chain|);
      return Passed((inner, genRules));
    }

    method BodyToDlir(speaker: string, body: seq<BaseFact>) returns (r: Checked<seq<Predicate>>)
      requires Valid()
      modifies this`freshVarCount
      ensures Valid()
      ensures old(freshVarCount) + BodyDemand(body) <= UINT64_MAX ==>
        r == Passed(BodyPredicates(speaker, body)) && freshVarCount == old(freshVarCount) + BodyDemand(body)
      ensures old(freshVarCount) + BodyDemand(body) > UINT64_MAX ==> r == CheckFailed
    {
      var preds := [];
      for i := 0 to |body|
        invariant Valid() && freshVarCount == old(freshVarCount) + BodyDemand(body[..i])
        invariant preds == BodyPredicates(speaker, body)[..i]
      {
        assert body[..i + 1][..i] == body[..i];
        BodyDemandIsMonotone(body, i + 1);
        var base :- BaseFactToDlir(speaker, body[i]);
        preds := preds + [SaidPredicate(speaker, base.0)];
      }
      assert body[..|body|] == body && BodyPredicates(speaker, body)[..|body|] == BodyPredicates(speaker, body);
      return Passed(preds);
    }

    method GenerateDlirAssertions(speaker: string, a: Assertion) returns (r: Checked<seq<Rule>>)
      requires Valid()
      modifies this
      ensures Valid()
      ensures old(freshVarCount) + AssertionDemand(a) <= UINT64_MAX ==>
        r == Passed(AssertionRules(Spoken(speaker, a), old(freshVarCount))) &&
        freshVarCount == old(freshVarCount) + AssertionDemand(a) &&
        canSayDepth == DeepenFact(old(canSayDepth), a.Head())
      ensures old(freshVarCount) + AssertionDemand(a) > UINT64_MAX ==> r == CheckFailed
    {
      var rhs :- BodyToDlir(speaker, a.Body());
      var lhs :- FactToDlir(speaker, a.Head());
      return Passed(lhs.1 + [Rule(SaidPredicate(speaker, lhs.0), rhs)]);
    }

    method SaysAssertionToDlir(says: SaysAssertion) returns (r: Checked<seq<Rule>>)
      requires Valid()
      modifies this
      ensures Valid()
      ensures old(freshVarCount) + Demand(SpokenIn(says)) <= UINT64_MAX ==>
        r == Passed(SpokenRules(SpokenIn(says), old(freshVarCount))) &&
        freshVarCount == old(freshVarCount) + Demand(SpokenIn(says)) &&
        canSayDepth == DeepenFacts(old(canSayDepth), Heads(SpokenIn(says)))
      ensures old(freshVarCount) + Demand(SpokenIn(says)) > UINT64_MAX ==> r == CheckFailed
    {
      hide AssertionRules, AssertionDemand, DeepenFact, SpokenRules, Demand;
      NothingSpoken(freshVarCount);
      var rules := [];
      var said := SpokenIn(says);
      for i := 0 to |said|
        invariant Valid() && freshVarCount == old(freshVarCount) + Demand(said[..i])
        invariant canSayDepth == DeepenFacts(old(canSayDepth), Heads(said[..i]))
        invariant rules == SpokenRules(said[..i], old(freshVarCount))
      {
        AppendSpoken(said[..i], said[i], old(freshVarCount), old(canSayDepth));
        assert said[..i + 1] == said[..i] + [said[i]];
        DemandIsMonotone(said, i + 1);
        var more :- GenerateDlirAssertions(says.principal, says.assertions[i]);
        rules := rules + more;
      }
      assert said[..|said|] == said;
      return Passed(rules);
    }

    method SaysAssertionsToDlir(says: seq<SaysAssertion>) returns (r: Checked<seq<Rule>>)
      requires Valid()
      modifies this
      ensures Valid()
      ensures old(freshVarCount) + Demand(AllSpoken(says)) <= UINT64_MAX ==>
        r == Passed(SpokenRules(AllSpoken(says), old(freshVarCount))) &&
        freshVarCount == old(freshVarCount) + Demand(AllSpoken(says)) &&
        canSayDepth == DeepenFacts(old(canSayDepth), Heads(AllSpoken(says)))
      ensures old(freshVarCount) + Demand(AllSpoken(says)) > UINT64_MAX ==> r == CheckFailed
    {
      hide AssertionRules, AssertionDemand, DeepenFact, DeepenFacts, SpokenRules, Demand, SpokenIn, Heads;
      NothingSpoken(freshVarCount);
      NothingDeepened(canSayDepth);
      var rules := [];
      for i := 0 to |says|
        invariant Valid() && freshVarCount == old(freshVarCount) + Demand(AllSpoken(says[..i]))
        invariant canSayDepth == DeepenFacts(old(canSayDepth), Heads(AllSpoken(says[..i])))
        invariant rules == SpokenRules(AllSpoken(says[..i]), old(freshVarCount))
      {
        ghost var before := AllSpoken(says[..i]);
        assert says[..i + 1][..i] == says[..i];
        assert AllSpoken(says[..i + 1]) == before + SpokenIn(says[i]);
        ConcatSpoken(before, SpokenIn(says[i]), old(freshVarCount), old(canSayDepth));
        AllSpokenDemandIsMonotone(says, i + 1);
        var more :- SaysAssertionToDlir(says[i]);
        rules := rules + more;
      }
      assert says[..|says|] == says;
      return Passed(rules);
    }

    /** The rules generated for the facts of queries are dropped; only their depths are kept. */
    method QueriesToDlir(qs: seq<Query>) returns (r: Checked<seq<Rule>>)
      requires Valid()
      modifies this
      ensures Valid()
      ensures old(freshVarCount) + QueryDemand(qs) <= UINT64_MAX ==>
        r == Passed(QueryRules(qs)) &&
        freshVarCount == old(freshVarCount) + QueryDemand(qs) &&
        canSayDepth == DeepenFacts(old(canSayDepth), QueryFacts(qs))
      ensures old(freshVarCount) + QueryDemand(qs) > UINT64_MAX ==> r == CheckFailed
    {
      hide FactDemand, FactRules, FactPredicate, DeepenFact, SaidPredicate;
      var rules := [];
      for i := 0 to |qs|
        invariant Valid() && freshVarCount == old(freshVarCount) + QueryDemand(qs[..i])
        invariant canSayDepth == DeepenFacts(old(canSayDepth), QueryFacts(qs)[..i])
        invariant rules == QueryRules(qs)[..i]
      {
        assert qs[..i + 1][..i] == qs[..i];
        QueryDemandIsMonotone(qs, i + 1);
        assert QueryFacts(qs)[..i + 1] == QueryFacts(qs)[..i] + [qs[i].fact];
        DeepenAppend(old(canSayDepth), QueryFacts(qs)[..i], qs[i].fact);
        var fact :- FactToDlir(qs[i].principal, qs[i].fact);
        var lhs := Predicate(qs[i].name, [DUMMY_ARGUMENT], Positive);
        rules := rules + [Rule(lhs, [SaidPredicate(qs[i].principal, fact.0), DUMMY_PREDICATE])];
      }
      assert qs[..|qs|] == qs && QueryFacts(qs)[..|qs|] == QueryFacts(qs) && QueryRules(qs)[..|qs|] == QueryRules(qs);
      return Passed(rules);
    }

    /** The inner loop: for a depth above 1, the entry to extend is looked up in the whole vector. */
    static method AppendForms(acc: seq<RelationDeclaration>, base: RelationDeclaration, depth: nat)
      returns (ds: seq<RelationDeclaration>)
      ensures ds == AppendDepths(acc, base, depth)
    {
      ds := acc;
      for i := 1 to depth + 1
        invariant ds == AppendDepths(acc, base, i - 1)
      {
        var inner := if i == 1 then base else ds[i - 2];
        ds := ds + [CanSayDeclaration(i, inner)];
      }
    }

    /** The depth table is a hash map: it is visited in an arbitrary order, recorded in `names`. */
    method GetCanSayDeclarations(env: map<string, RelationDeclaration>)
      returns (ds: seq<RelationDeclaration>, ghost names: seq<string>)
      ensures IsVisit(canSayDepth.Keys, names)
      ensures ds == CanSayDeclarations(Work(env, canSayDepth, names))
    {
      ds, names := [], [];
      var left := canSayDepth.Keys;
      while left != {}
        invariant left <= canSayDepth.Keys
        invariant IsVisit(canSayDepth.Keys - left, names)
        invariant ds == CanSayDeclarations(Work(env, canSayDepth, names))
        decreases |left|
      {
        var name :| name in left;
        VisitOneMore(canSayDepth.Keys - left, names, name);
        assert canSayDepth.Keys - (left - {name}) == canSayDepth.Keys - left + {name};
        WorkAppend(env, canSayDepth, names, name);
        left := left - {name};
        names := names + [name];
        if canSayDepth[name] > 0 && name in env {
          ds := AppendForms(ds, env[name], canSayDepth[name]);
        }
      }
      assert canSayDepth.Keys - left == canSayDepth.Keys;
    }

    method ProgToDlir(prog: AuthLogic.Program) returns (r: Checked<Datalog.Program>, ghost names: seq<string>)
      requires Valid() && freshVarCount == 0 && canSayDepth == map[]
      modifies this
      ensures ProgramDemand(prog) <= UINT64_MAX ==> r == Passed(LoweredProgram(prog, names)) && IsVisit(Depths(prog).Keys, names)
      ensures ProgramDemand(prog) > UINT64_MAX ==> r == CheckFailed
      ensures r.Passed? ==> OutputsAreQueries(prog, r.value)
    {
      names := [];
      var assertions :- SaysAssertionsToDlir(prog.saysAssertions);
      var queries :- QueriesToDlir(prog.queries);
      var rules := assertions + queries + [Rule(DUMMY_PREDICATE, [])];
      DeepenConcat(map[], Heads(AllSpoken(prog.saysAssertions)), QueryFacts(prog.queries));
      var transformed := TransformAttributes(prog.declarations);
      var canSay;
      canSay, names := GetCanSayDeclarations(TypeEnvironment(transformed));
      var declarations := SaysDeclarations(transformed + canSay + [CAN_ACT_AS_DECLARATION]);
      return Passed(Datalog.Program(declarations + QueryDeclarations(prog.queries), rules, QueryNames(prog.queries))), names;
    }
  }

  /** The only public entry point. */
  method Lower(prog: AuthLogic.Program) returns (r: Checked<Datalog.Program>, ghost names: seq<string>)
    ensures ProgramDemand(prog) <= 18446744073709551615 ==> r == Passed(LoweredProgram(prog, names)) && IsVisit(Depths(prog).Keys, names)
    ensures ProgramDemand(prog) > 18446744073709551615 ==> r == CheckFailed
    ensures r.Passed? ==> OutputsAreQueries(prog, r.value)
  {
    var pass := new LoweringToDatalogPass();
    r, names := pass.ProgToDlir(prog);
  }

  /** One output per query, in the order of the queries, and no others. */
  predicate OutputsAreQueries(prog: AuthLogic.Program, out: Datalog.Program) {
    |out.outputs| == |prog.queries| && forall i :: 0 <= i < |prog.queries| ==> out.outputs[i] == prog.queries[i].name
  }

  /** `names` lists each element of `keys` once. */
  ghost predicate IsVisit(keys: set<string>, names: seq<string>) {
    (forall k :: k in keys <==> k in names) && forall i, j :: 0 <= i < j < |names| ==> names[i] != names[j]
  }

  lemma VisitOneMore(keys: set<string>, names: seq<string>, name: string)
    requires IsVisit(keys, names) && name !in keys
    ensures IsVisit(keys + {name}, names + [name])
  {
  }

  lemma WorkAppend(env: map<string, RelationDeclaration>, depths: map<string, nat>, names: seq<string>, name: string)
    requires name in depths && forall n :: n in names ==> n in depths
    ensures
      var work := Work(env, depths, names);
      CanSayDeclarations(Work(env, depths, names + [name])) ==
      if depths[name] == 0 || name !in env then CanSayDeclarations(work)
      else AppendDepths(CanSayDeclarations(work), env[name], depths[name])
  {
  }

  function Depths(prog: AuthLogic.Program): map<string, nat> {
    DeepenFacts(map[], LoweredFacts(prog))
  }

  const DUMMY_ARGUMENTS := [Argument("dummy_param", CustomType("DummyType"))]

  function QueryHeads(qs: seq<Query>): (r: seq<RelationDeclaration>)
    ensures |r| == |qs|
  {
    seq(|qs|, i requires 0 <= i < |qs| => RelationDeclaration(qs[i].name, false, DUMMY_ARGUMENTS))
  }

  function QueryDeclarations(qs: seq<Query>): seq<RelationDeclaration> {
    QueryHeads(qs) + [RelationDeclaration(GROUNDED_DUMMY, false, DUMMY_ARGUMENTS)]
  }

  function QueryNames(qs: seq<Query>): seq<string> {
    seq(|qs|, i requires 0 <= i < |qs| => qs[i].name)
  }

  /** The result of the pass when the depth table is visited in the order of `names`. */
  ghost function LoweredProgram(prog: AuthLogic.Program, names: seq<string>): Datalog.Program {
    if forall n :: n in names ==> n in Depths(prog) then
      Datalog.Program(LoweredDeclarations(prog.declarations, Depths(prog), names) + QueryDeclarations(prog.queries),
                      LoweredRules(prog), QueryNames(prog.queries))
    else
      Datalog.Program([], LoweredRules(prog), QueryNames(prog.queries))
  }

  // ---------- Partial demands never exceed the whole ----------

  lemma {:induction false} BodyDemandIsMonotone(body: seq<BaseFact>, k: nat)
    requires k <= |body|
    ensures BodyDemand(body[..k]) <= BodyDemand(body)
  {
    if k == |body| {
      assert body[..k] == body;
    } else {
      BodyDemandIsMonotone(body[..|body| - 1], k);
      assert body[..|body| - 1][..k] == body[..k];
    }
  }

  lemma DemandIsMonotone(said: seq<Spoken>, k: nat)
    requires k <= |said|
    ensures Demand(said[..k]) <= Demand(said)
  {
    DemandConcat(said[..k], said[k..]);
    assert said == said[..k] + said[k..];
  }

  lemma {:induction false} AllSpokenDemandIsMonotone(says: seq<SaysAssertion>, k: nat)
    requires k <= |says|
    ensures Demand(AllSpoken(says[..k])) <= Demand(AllSpoken(says))
  {
    if k == |says| {
      assert says[..k] == says;
    } else {
      var init := says[..|says| - 1];
      AllSpokenDemandIsMonotone(init, k);
      assert init[..k] == says[..k];
      DemandConcat(AllSpoken(init), SpokenIn(says[|says| - 1]));
    }
  }

  lemma {:induction false} QueryDemandIsMonotone(qs: seq<Query>, k: nat)
    requires k <= |qs|
    ensures QueryDemand(qs[..k]) <= QueryDemand(qs)
  {
    if k == |qs| {
      assert qs[..k] == qs;
    } else {
      QueryDemandIsMonotone(qs[..|qs| - 1], k);
      assert qs[..|qs| - 1][..k] == qs[..k];
    }
  }

  /** Lowering more assertions: rules, invented variables and depths all extend. */
  lemma ConcatSpoken(a: seq<Spoken>, b: seq<Spoken>, n: nat, depths: map<string, nat>)
    ensures SpokenRules(a + b, n) == SpokenRules(a, n) + SpokenRules(b, n + Demand(a))
    ensures Demand(a + b) == Demand(a) + Demand(b)
    ensures DeepenFacts(depths, Heads(a + b)) == DeepenFacts(DeepenFacts(depths, Heads(a)), Heads(b))
  {
    hide AssertionRules, AssertionDemand, SpokenRules, DeepenFact;
    SpokenRulesConcat(a, b, n);
    DemandConcat(a, b);
    assert Heads(a + b) == Heads(a) + Heads(b);
    DeepenConcat(depths, Heads(a), Heads(b));
  }

  lemma AppendSpoken(a: seq<Spoken>, s: Spoken, n: nat, depths: map<string, nat>)
    ensures SpokenRules(a + [s], n) == SpokenRules(a, n) + AssertionRules(s, n + Demand(a))
    ensures Demand(a + [s]) == Demand(a) + AssertionDemand(s.assertion)
    ensures DeepenFacts(depths, Heads(a + [s])) == DeepenFact(DeepenFacts(depths, Heads(a)), s.assertion.Head())
  {
    hide AssertionRules, AssertionDemand, SpokenRules, DeepenFact;
    ConcatSpoken(a, [s], n, depths);
    SpokenRulesOne(s, n + Demand(a));
    assert Heads([s]) == [] + [s.assertion.Head()];
    DeepenAppend(DeepenFacts(depths, Heads(a)), [], s.assertion.Head());
  }
}
