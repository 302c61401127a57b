/**
 The Datalog atom that stands for a ground belief, how the lowering of
 syntax produces it, and that no two beliefs share an atom.
 */
module Encoding {
  import opened Names
  import opened Datalog
  import opened AuthLogic
  import opened Lowering

  function PushAtom(modifier: string, c: Const, a: Atom): Atom {
    Atom(modifier + a.name, [c] + a.args)
  }

  function NestAtom(a: Atom, chain: seq<Const>): Atom {
    if chain == [] then a else PushAtom(CAN_SAY, chain[|chain| - 1], NestAtom(a, chain[..|chain| - 1]))
  }

  function EncodeClaim(c: Claim): Atom {
    match c
    case PredicateClaim(name, args) => Atom(name, args)
    case AttributeClaim(prin, name, args) => Atom(name, [prin] + args)
    case ActAsClaim(l, r) => Atom(CAN_ACT_AS, [l, r])
  }

  function Encode(b: Belief): Atom {
    PushAtom(SAYS, b.speaker, NestAtom(EncodeClaim(b.claim), b.chain))
  }

  const DUMMY_ATOM: Atom := Atom(GROUNDED_DUMMY, [DUMMY_ARGUMENT])

  // ---------- Grounding commutes with the translation ----------

  lemma GroundPush(sigma: Substitution, modifier: string, x: string, p: Predicate)
    ensures GroundPredicate(sigma, PushPrincipal(modifier, x, p)) ==
            PushAtom(modifier, Value(sigma, x), GroundPredicate(sigma, p))
  {
    var args := [x] + p.args;
    assert Values(sigma, args) == [Value(sigma, x)] + Values(sigma, p.args);
  }

  lemma {:induction false} GroundNest(sigma: Substitution, p: Predicate, chain: seq<string>)
    ensures GroundPredicate(sigma, Nest(p, chain)) == NestAtom(GroundPredicate(sigma, p), Values(sigma, chain))
  {
    if chain != [] {
      var init, d := chain[..|chain| - 1], chain[|chain| - 1];
      GroundNest(sigma, p, init);
      GroundPush(sigma, CAN_SAY, d, Nest(p, init));
      assert Values(sigma, chain)[..|chain| - 1] == Values(sigma, init);
    }
  }

  lemma GroundBasePredicate(sigma: Substitution, b: BaseFact)
    ensures GroundPredicate(sigma, BasePredicate(b)) == EncodeClaim(GroundBase(sigma, b))
  {
    match b
    case PredicateFact(p) =>
    case AttributeFact(prin, p) =>
      GroundPush(sigma, "", prin, p);
      assert "" + p.name == p.name;
    case CanActAs(l, r) =>
      assert Values(sigma, [l, r]) == [Value(sigma, l), Value(sigma, r)];
  }

  /** The predicate of a spoken fact grounds to the encoding of the ground belief. */
  lemma GroundSaid(sigma: Substitution, speaker: string, f: Fact)
    ensures GroundPredicate(sigma, SaidPredicate(speaker, FactPredicate(f))) == Encode(GroundFact(sigma, speaker, f))
  {
    GroundPush(sigma, SAYS, speaker, FactPredicate(f));
    GroundNest(sigma, BasePredicate(f.base), f.delegationChain);
    GroundBasePredicate(sigma, f.base);
  }

  lemma GroundSaidBase(sigma: Substitution, speaker: string, b: BaseFact)
    ensures GroundPredicate(sigma, SaidPredicate(speaker, BasePredicate(b))) ==
            Encode(Says(Value(sigma, speaker), [], GroundBase(sigma, b)))
  {
    GroundSaid(sigma, speaker, Fact([], b));
    assert Values(sigma, []) == [];
  }

  // ---------- The fragment in which encodings are unambiguous ----------

  /** The names of relations declared as attributes. */
  function AttributeNames(declarations: seq<RelationDeclaration>): set<string> {
    set i | 0 <= i < |declarations| && declarations[i].isAttribute :: declarations[i].name
  }

  /** A user relation does not look like one the pass creates. */
  predicate IsUserRelation(name: string) {
    !StartsWith(name, CAN_SAY) && name != CAN_ACT_AS
  }

  /** Attribute relations are used as attributes, all others as plain predicates. */
  predicate ClaimInFragment(attributes: set<string>, c: Claim) {
    match c
    case PredicateClaim(name, _) => IsUserRelation(name) && name !in attributes
    case AttributeClaim(_, name, _) => IsUserRelation(name) && name in attributes
    case ActAsClaim(_, _) => true
  }

  predicate BaseInFragment(attributes: set<string>, b: BaseFact) {
    match b
    case PredicateFact(p) => p.sign == Positive && IsUserRelation(p.name) && p.name !in attributes
    case AttributeFact(_, p) => p.sign == Positive && IsUserRelation(p.name) && p.name in attributes
    case CanActAs(_, _) => true
  }

  lemma {:induction false} NestIsInjective(a: Atom, chain: seq<Const>, a': Atom, chain': seq<Const>)
    requires !StartsWith(a.name, CAN_SAY) && !StartsWith(a'.name, CAN_SAY)
    requires NestAtom(a, chain) == NestAtom(a', chain')
    ensures a == a' && chain == chain'
  {
    if chain == [] {
      if chain' != [] {
        assert StartsWith(NestAtom(a', chain').name, CAN_SAY);
      }
    } else {
      assert StartsWith(NestAtom(a, chain).name, CAN_SAY);
      var n, n' := |chain| - 1, |chain'| - 1;
      var inner, inner' := NestAtom(a, chain[..n]), NestAtom(a', chain'[..n']);
      PushIsInjective(CAN_SAY, chain[n], inner, chain'[n'], inner');
      NestIsInjective(a, chain[..n], a', chain'[..n']);
      assert chain == chain[..n] + [chain[n]];
      assert chain' == chain'[..n'] + [chain'[n']];
    }
  }

  lemma PushIsInjective(modifier: string, c: Const, a: Atom, c': Const, a': Atom)
    requires PushAtom(modifier, c, a) == PushAtom(modifier, c', a')
    ensures c == c' && a == a'
  {
    assert a.name == (modifier + a.name)[|modifier|..] && a'.name == (modifier + a'.name)[|modifier|..];
    assert a.args == ([c] + a.args)[1..] && a'.args == ([c'] + a'.args)[1..];
    assert ([c] + a.args)[0] == ([c'] + a'.args)[0];
  }

  /** Two beliefs of the fragment with the same atom are the same belief. */
  lemma EncodeIsInjective(attributes: set<string>, b: Belief, b': Belief)
    requires ClaimInFragment(attributes, b.claim) && ClaimInFragment(attributes, b'.claim)
    requires Encode(b) == Encode(b')
    ensures b == b'
  {
    var a, a' := EncodeClaim(b.claim), EncodeClaim(b'.claim);
    PushIsInjective(SAYS, b.speaker, NestAtom(a, b.chain), b'.speaker, NestAtom(a', b'.chain));
    assert !StartsWith(CAN_ACT_AS, CAN_SAY) by {
      assert CAN_ACT_AS[3] != CAN_SAY[3];
    }
    NestIsInjective(a, b.chain, a', b'.chain);
    if b.claim.AttributeClaim? && b'.claim.AttributeClaim? {
      assert a.args[0] == a'.args[0] && a.args[1..] == a'.args[1..];
      assert b.claim.args == a.args[1..] && b'.claim.args == a'.args[1..];
    } else if b.claim.ActAsClaim? && b'.claim.ActAsClaim? {
      assert a.args[0] == a'.args[0] && a.args[1] == a'.args[1];
    }
  }
}
