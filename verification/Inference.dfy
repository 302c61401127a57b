/**
 Ground inference systems and their least models.

 Both the authorization logic and the Datalog it is compiled to are given a
 meaning by a (usually infinite) set of ground inference steps.  The meaning of
 such a set is its least model: the intersection of all sets of facts that are
 closed under every step.
 */
module Inference {

  /** One ground inference step: from all of `body`, conclude `head`. */
  datatype Step<A> = Step(head: A, body: seq<A>)

  ghost predicate AllIn<A(!new)>(facts: seq<A>, model: iset<A>) {
    forall i :: 0 <= i < |facts| ==> facts[i] in model
  }

  ghost predicate Closed<A(!new)>(steps: iset<Step<A>>, model: iset<A>) {
    forall s :: s in steps && AllIn(s.body, model) ==> s.head in model
  }

  /** `a` belongs to every model of the system. */
  ghost predicate Entailed<A(!new)>(steps: iset<Step<A>>, a: A) {
    forall model: iset<A> :: Closed(steps, model) ==> a in model
  }

  ghost function LeastModel<A(!new)>(steps: iset<Step<A>>): iset<A> {
    iset a: A | Entailed(steps, a)
  }

  lemma LeastModelIsLeast<A(!new)>(steps: iset<Step<A>>, model: iset<A>)
    requires Closed(steps, model)
    ensures LeastModel(steps) <= model
  {
  }

  /** Using one step of the system. */
  lemma Infer<A(!new)>(steps: iset<Step<A>>, s: Step<A>)
    requires s in steps
    requires AllIn(s.body, LeastModel(steps))
    ensures s.head in LeastModel(steps)
  {
  }

  /**
   Induction over derivations: a property holds of the whole least model as
   soon as every step carries it from derivable premises to the conclusion.
   */
  lemma Induction<A(!new)>(steps: iset<Step<A>>, property: iset<A>)
    requires forall s :: s in steps && AllIn(s.body, LeastModel(steps)) && AllIn(s.body, property)
                         ==> s.head in property
    ensures LeastModel(steps) <= property
  {
    var both := LeastModel(steps) * property;
    forall s | s in steps && AllIn(s.body, both)
      ensures s.head in both
    {
      assert AllIn(s.body, LeastModel(steps));
      assert AllIn(s.body, property);
      Infer(steps, s);
    }
    LeastModelIsLeast(steps, both);
  }

  /** `a` is the conclusion of a step all of whose premises are derivable. */
  ghost predicate Supported<A(!new)>(steps: iset<Step<A>>, a: A) {
    exists s :: s in steps && s.head == a && AllIn(s.body, LeastModel(steps))
  }

  lemma Inversion<A(!new)>(steps: iset<Step<A>>, a: A)
    requires a in LeastModel(steps)
    ensures Supported(steps, a)
  {
    Induction(steps, iset x: A | Supported(steps, x));
  }

  /** The facts with a derivation of height at most `n`. */
  ghost predicate DerivableWithin<A(!new)>(steps: iset<Step<A>>, n: nat, a: A)
    decreases n
  {
    n > 0 && exists s :: s in steps && s.head == a && forall i :: 0 <= i < |s.body| ==> DerivableWithin(steps, n - 1, s.body[i])
  }

  ghost predicate Derivable<A(!new)>(steps: iset<Step<A>>, a: A) {
    exists n: nat :: DerivableWithin(steps, n, a)
  }

  lemma {:induction false} HeightsAreCumulative<A(!new)>(steps: iset<Step<A>>, m: nat, n: nat, a: A)
    requires m <= n && DerivableWithin(steps, m, a)
    ensures DerivableWithin(steps, n, a)
    decreases m
  {
    var s :| s in steps && s.head == a && forall i :: 0 <= i < |s.body| ==> DerivableWithin(steps, m - 1, s.body[i]);
    forall i | 0 <= i < |s.body|
      ensures DerivableWithin(steps, n - 1, s.body[i])
    {
      HeightsAreCumulative(steps, m - 1, n - 1, s.body[i]);
    }
  }

  /** Finitely many derivable premises have a common height. */
  lemma {:induction false} CommonHeight<A(!new)>(steps: iset<Step<A>>, facts: seq<A>) returns (n: nat)
    requires forall i :: 0 <= i < |facts| ==> Derivable(steps, facts[i])
    ensures forall i :: 0 <= i < |facts| ==> DerivableWithin(steps, n, facts[i])
  {
    if facts == [] {
      n := 0;
    } else {
      var rest := facts[1..];
      forall i | 0 <= i < |rest|
        ensures Derivable(steps, rest[i])
      {
        assert rest[i] == facts[i + 1];
      }
      var m := CommonHeight(steps, rest);
      var k: nat :| DerivableWithin(steps, k, facts[0]);
      n := if k < m then m else k;
      forall i | 0 <= i < |facts|
        ensures DerivableWithin(steps, n, facts[i])
      {
        if i == 0 {
          HeightsAreCumulative(steps, k, n, facts[0]);
        } else {
          assert facts[i] == rest[i - 1];
          HeightsAreCumulative(steps, m, n, rest[i - 1]);
        }
      }
    }
  }

  lemma {:induction false} DerivationsAreSound<A(!new)>(steps: iset<Step<A>>, n: nat, a: A)
    requires DerivableWithin(steps, n, a)
    ensures a in LeastModel(steps)
    decreases n
  {
    var s :| s in steps && s.head == a && forall i :: 0 <= i < |s.body| ==> DerivableWithin(steps, n - 1, s.body[i]);
    forall i | 0 <= i < |s.body|
      ensures s.body[i] in LeastModel(steps)
    {
      DerivationsAreSound(steps, n - 1, s.body[i]);
    }
    Infer(steps, s);
  }

  /** The least model consists of exactly the facts with a finite derivation. */
  lemma LeastModelIsFinitelyDerivable<A(!new)>(steps: iset<Step<A>>, a: A)
    ensures a in LeastModel(steps) <==> Derivable(steps, a)
  {
    var derivable := iset x: A | Derivable(steps, x);
    forall s | s in steps && AllIn(s.body, derivable)
      ensures s.head in derivable
    {
      var n := CommonHeight(steps, s.body);
      assert DerivableWithin(steps, n + 1, s.head);
    }
    LeastModelIsLeast(steps, derivable);
    if Derivable(steps, a) {
      var n: nat :| DerivableWithin(steps, n, a);
      DerivationsAreSound(steps, n, a);
    }
  }
}
