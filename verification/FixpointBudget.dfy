/**
 How long the worklist iteration can run: the states of results only climb a
 lattice of finite height, and each climb enqueues the users of one value.
 */
module FixpointBudget {
  import opened IfcTags
  import opened TaintRules
  import opened IrModule
  import opened Transfer

  /** The tags that some rule of an operation of the module can add. */
  function NamedTags(m: Module, rules: InferenceRules): set<TagId> {
    set o, i, k | o in m.operations && i in rules.RulesFor(o) && 0 <= k < |rules.RulesFor(o)[i]| &&
      rules.RulesFor(o)[i][k].conclusion.ModifyTag? :: rules.RulesFor(o)[i][k].conclusion.tag
  }

  predicate StatesWithin(x: States, tags: set<TagId>) {
    forall v :: v in x ==> Within(x[v], tags)
  }

  /** No state ever leaves the tags named by the rules. */
  lemma TransferStaysWithin(m: Module, rules: InferenceRules, x: States, o: OpId, i: nat)
    requires InBounds(m, rules) && HasResult(m, o, i) && StatesWithin(x, NamedTags(m, rules))
    ensures Within(TransferState(m, rules, x, o, i), NamedTags(m, rules))
  {
    var tags := NamedTags(m, rules);
    var own := rules.RulesFor(o);
    if i in own {
      forall r | r in own[i]
        ensures RuleTags(r) <= tags
      {
        var k :| 0 <= k < |own[i]| && own[i][k] == r;
      }
    }
    OutputStaysWithin(own, InputStates(m, x, o), i, tags);
  }

  // ---------- The climb of one value ----------

  /** The distance of a state from the top of the lattice. */
  function Height(tags: set<TagId>, t: Tags): nat {
    if t.Bottom? then 2 * |tags| + 1 else |tags - t.secrecy| + |tags * t.integrity|
  }

  /** How many more times the state of `v` can be written. */
  function Remaining(tags: set<TagId>, x: States, v: Value): nat {
    if v in x then Height(tags, x[v]) else 2 * |tags| + 2
  }

  lemma SubsetIsSmaller(a: set<TagId>, b: set<TagId>)
    requires a <= b
    ensures |a| <= |b|
    ensures a != b ==> |a| < |b|
  {
    var rest := b - a;
    assert b == a + rest;
    assert |b| == |a| + |rest|;
    if a != b {
      var t :| t in rest;
    }
  }

  lemma HeightIsBounded(tags: set<TagId>, t: Tags)
    ensures t.Tags? ==> Height(tags, t) <= 2 * |tags|
  {
    if t.Tags? {
      SubsetIsSmaller(tags - t.secrecy, tags);
      SubsetIsSmaller(tags * t.integrity, tags);
    }
  }

  /** A state that grows comes closer to the top. */
  lemma GrowthLowersHeight(tags: set<TagId>, a: Tags, b: Tags)
    requires Within(a, tags) && Within(b, tags) && a.Leq(b) && a != b
    ensures Height(tags, b) < Height(tags, a)
  {
    HeightIsBounded(tags, b);
    if a.Tags? {
      SubsetIsSmaller(tags - b.secrecy, tags - a.secrecy);
      SubsetIsSmaller(tags * b.integrity, tags * a.integrity);
      assert a.integrity == tags * a.integrity && b.integrity == tags * b.integrity;
      if a.secrecy != b.secrecy {
        var t :| t in b.secrecy && t !in a.secrecy;
        assert t in tags - a.secrecy && t !in tags - b.secrecy;
      }
    }
  }

  /** Each write uses up at least one of the remaining ones. */
  lemma WriteSpends(tags: set<TagId>, x: States, v: Value, out: Tags)
    requires Within(out, tags) && StatesWithin(x, tags)
    requires v !in x || Get(x, v).Join(out) != x[v]
    ensures Remaining(tags, x[v := Get(x, v).Join(out)], v) < Remaining(tags, x, v)
    ensures Within(Get(x, v).Join(out), tags)
  {
    hide Height;
    var after := Get(x, v).Join(out);
    if v in x {
      JoinIsLeastUpperBound(x[v], out, Bottom);
      GrowthLowersHeight(tags, x[v], after);
    } else {
      BottomIsHighest(tags, after);
    }
  }

  lemma BottomIsHighest(tags: set<TagId>, t: Tags)
    ensures Height(tags, t) <= 2 * |tags| + 1
  {
    HeightIsBounded(tags, t);
  }

  // ---------- The budget of the whole run ----------

  function AllResults(m: Module): set<Value> {
    set o, i | o in m.operations && 0 <= i < m.operations[o].outputs :: OperationResult(o, i)
  }

  /** The operations that writing `v` as often as possible could enqueue. */
  function Cost(m: Module, tags: set<TagId>, x: States, v: Value): nat {
    Remaining(tags, x, v) * |Users(m, v)|
  }

  ghost function Budget(m: Module, tags: set<TagId>, x: States, vs: set<Value>): nat
    decreases vs
  {
    if vs == {} then 0
    else
      var v :| v in vs;
      Cost(m, tags, x, v) + Budget(m, tags, x, vs - {v})
  }

  lemma {:induction false} BudgetSplits(m: Module, tags: set<TagId>, x: States, vs: set<Value>, v: Value)
    requires v in vs
    ensures Budget(m, tags, x, vs) == Cost(m, tags, x, v) + Budget(m, tags, x, vs - {v})
    decreases vs
  {
    hide Cost;
    var u :| u in vs && Budget(m, tags, x, vs) == Cost(m, tags, x, u) + Budget(m, tags, x, vs - {u});
    if u != v {
      BudgetSplits(m, tags, x, vs - {u}, v);
      BudgetSplits(m, tags, x, vs - {v}, u);
      assert vs - {u} - {v} == vs - {v} - {u};
    }
  }

  lemma {:induction false} BudgetAgrees(m: Module, tags: set<TagId>, x: States, y: States, vs: set<Value>)
    requires forall v :: v in vs ==> Remaining(tags, x, v) == Remaining(tags, y, v)
    ensures Budget(m, tags, x, vs) == Budget(m, tags, y, vs)
    decreases vs
  {
    if vs != {} {
      var v :| v in vs;
      BudgetAgrees(m, tags, x, y, vs - {v});
      BudgetSplits(m, tags, x, vs, v);
      BudgetSplits(m, tags, y, vs, v);
    }
  }

  lemma MoreCopies(a: nat, b: nat, n: nat)
    requires a < b
    ensures a * n + n <= b * n
  {
    var d := b - a - 1;
    assert b == a + 1 + d;
    assert (a + 1 + d) * n == a * n + n + d * n;
    assert d * n >= 0;
  }

  /** A write pays for all the operations it enqueues. */
  lemma WritePays(m: Module, tags: set<TagId>, x: States, v: Value, out: Tags)
    requires v in AllResults(m) && Within(out, tags) && StatesWithin(x, tags)
    requires v !in x || Get(x, v).Join(out) != x[v]
    ensures Budget(m, tags, x[v := Get(x, v).Join(out)], AllResults(m)) + |Users(m, v)| <= Budget(m, tags, x, AllResults(m))
  {
    var y, vs := x[v := Get(x, v).Join(out)], AllResults(m);
    WriteSpends(tags, x, v, out);
    MoreCopies(Remaining(tags, y, v), Remaining(tags, x, v), |Users(m, v)|);
    BudgetSplits(m, tags, x, vs, v);
    BudgetSplits(m, tags, y, vs, v);
    BudgetAgrees(m, tags, x, y, vs - {v});
  }

  /** The number of (value, user) pairs among the given values. */
  ghost function Uses(m: Module, vs: set<Value>): nat
    decreases vs
  {
    if vs == {} then 0
    else
      var v :| v in vs;
      |Users(m, v)| + Uses(m, vs - {v})
  }

  lemma {:induction false} UsesSplit(m: Module, vs: set<Value>, v: Value)
    requires v in vs
    ensures Uses(m, vs) == |Users(m, v)| + Uses(m, vs - {v})
    decreases vs
  {
    var u :| u in vs && Uses(m, vs) == |Users(m, u)| + Uses(m, vs - {u});
    if u != v {
      UsesSplit(m, vs - {u}, v);
      UsesSplit(m, vs - {v}, u);
      assert vs - {u} - {v} == vs - {v} - {u};
    }
  }

  lemma Distribute(k: nat, a: nat, b: nat)
    ensures k * (a + b) == k * a + k * b
  {
  }

  /** Before any result is written, the budget is the number of uses times the height of the lattice. */
  lemma {:induction false} InitialBudget(m: Module, tags: set<TagId>, x: States, vs: set<Value>)
    requires forall v :: v in vs ==> v !in x
    ensures Budget(m, tags, x, vs) == (2 * |tags| + 2) * Uses(m, vs)
    decreases vs
  {
    if vs != {} {
      var v :| v in vs;
      InitialBudget(m, tags, x, vs - {v});
      BudgetSplits(m, tags, x, vs, v);
      UsesSplit(m, vs, v);
      Distribute(2 * |tags| + 2, |Users(m, v)|, Uses(m, vs - {v}));
    }
  }

  lemma {:induction false} UnionSize(a: set<OpId>, b: set<OpId>)
    ensures |a + b| <= |a| + |b|
  {
  }
}
