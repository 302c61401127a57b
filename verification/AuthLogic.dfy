/** The authorization logic: syntax, and meaning by inference rules. */
module AuthLogic {
  import opened Names
  import opened Inference
  import opened Datalog

  // ---------- Syntax ----------

  datatype BaseFact =
    | PredicateFact(pred: Predicate)
    | AttributeFact(principal: string, pred: Predicate)
    | CanActAs(left: string, right: string)

  /** `d_n canSay ... d_1 canSay base`, where the delegation chain is `[d_1, ..., d_n]`. */
  datatype Fact = Fact(delegationChain: seq<string>, base: BaseFact)

  datatype Assertion =
    | FactAssertion(fact: Fact)
    | ConditionalAssertion(lhs: Fact, rhs: seq<BaseFact>)
  {
    function Head(): Fact {
      match this
      case FactAssertion(fact) => fact
      case ConditionalAssertion(lhs, _) => lhs
    }

    function Body(): seq<BaseFact> {
      match this
      case FactAssertion(_) => []
      case ConditionalAssertion(_, rhs) => rhs
    }
  }

  datatype SaysAssertion = SaysAssertion(principal: string, assertions: seq<Assertion>)

  datatype Query = Query(name: string, principal: string, fact: Fact)

  datatype Program = Program(
    declarations: seq<RelationDeclaration>,
    saysAssertions: seq<SaysAssertion>,
    queries: seq<Query>)

  /** One assertion together with the principal that makes it. */
  datatype Spoken = Spoken(speaker: string, assertion: Assertion)

  /** `speaker says { a_1, ..., a_n }` stands for `n` assertions of the speaker. */
  function SpokenIn(says: SaysAssertion): (r: seq<Spoken>)
    ensures |r| == |says.assertions|
  {
    seq(|says.assertions|, i requires 0 <= i < |says.assertions| => Spoken(says.principal, says.assertions[i]))
  }

  function AllSpoken(says: seq<SaysAssertion>): seq<Spoken> {
    if says == [] then [] else AllSpoken(says[..|says| - 1]) + SpokenIn(says[|says| - 1])
  }

  // ---------- Ground beliefs ----------

  datatype Claim =
    | PredicateClaim(name: string, args: seq<Const>)
    | AttributeClaim(principal: Const, name: string, args: seq<Const>)
    | ActAsClaim(left: Const, right: Const)
  {
    /** Attributes and canActAs are properties of a principal; plain predicates are not. */
    predicate HasSubject() {
      !PredicateClaim?
    }

    function Subject(): Const
      requires HasSubject()
    {
      if AttributeClaim? then principal else left
    }

    function OfSubject(p: Const): Claim
      requires HasSubject()
    {
      if AttributeClaim? then this.(principal := p) else this.(left := p)
    }
  }

  /** `speaker says d_n canSay ... d_1 canSay claim`, with `chain == [d_1, ..., d_n]`. */
  datatype Belief = Says(speaker: Const, chain: seq<Const>, claim: Claim)

  function GroundBase(sigma: Substitution, b: BaseFact): Claim {
    match b
    case PredicateFact(p) => PredicateClaim(p.name, Values(sigma, p.args))
    case AttributeFact(prin, p) => AttributeClaim(Value(sigma, prin), p.name, Values(sigma, p.args))
    case CanActAs(l, r) => ActAsClaim(Value(sigma, l), Value(sigma, r))
  }

  function GroundFact(sigma: Substitution, speaker: string, f: Fact): Belief {
    Says(Value(sigma, speaker), Values(sigma, f.delegationChain), GroundBase(sigma, f.base))
  }

  /** The conditions of an assertion are beliefs of the principal that makes it. */
  function GroundBody(sigma: Substitution, speaker: string, body: seq<BaseFact>): (r: seq<Belief>)
    ensures |r| == |body|
  {
    seq(|body|, i requires 0 <= i < |body| => Says(Value(sigma, speaker), [], GroundBase(sigma, body[i])))
  }

  // ---------- Inference rules ----------

  /**
   The reasons for a belief.
   - ByAssertion: an instance of an assertion of the program.
   - ByDelegation: `A says B canSay f` and `B says f` give `A says f`, for every fact `f`.
   - ByActingAs: `S says Y canActAs X` and a claim of `S` about `X` give the same claim about `Y`.
   */
  datatype Reason =
    | ByAssertion(said: Spoken, sigma: Substitution)
    | ByDelegation(delegator: Const, delegatee: Const, chain: seq<Const>, claim: Claim)
    | ByActingAs(speaker: Const, actor: Const, property: Claim)

  ghost predicate Admits(said: seq<Spoken>, reason: Reason) {
    match reason
    case ByAssertion(s, _) => s in said
    case ByDelegation(_, _, _, _) => true
    case ByActingAs(_, _, property) => property.HasSubject()
  }

  ghost function StepFor(reason: Reason): Step<Belief> {
    match reason
    case ByAssertion(s, sigma) =>
      Step(GroundFact(sigma, s.speaker, s.assertion.Head()), GroundBody(sigma, s.speaker, s.assertion.Body()))
    case ByDelegation(a, b, chain, claim) =>
      Step(Says(a, chain, claim), [Says(b, chain, claim), Says(a, chain + [b], claim)])
    case ByActingAs(s, y, property) =>
      if property.HasSubject() then
        Step(Says(s, [], property.OfSubject(y)), [Says(s, [], ActAsClaim(y, property.Subject())), Says(s, [], property)])
      else
        Step(Says(s, [], property), [Says(s, [], property)])
  }

  ghost predicate IsLogicStep(said: seq<Spoken>, s: Step<Belief>) {
    exists reason :: Admits(said, reason) && s == StepFor(reason)
  }

  ghost function LogicSteps(said: seq<Spoken>): iset<Step<Belief>> {
    iset s: Step<Belief> | IsLogicStep(said, s)
  }

  /** Everything some principal believes, given the assertions `said`. */
  ghost function Beliefs(said: seq<Spoken>): iset<Belief> {
    LeastModel(LogicSteps(said))
  }

  lemma Conclude(said: seq<Spoken>, reason: Reason)
    requires Admits(said, reason)
    requires AllIn(StepFor(reason).body, Beliefs(said))
    ensures StepFor(reason).head in Beliefs(said)
  {
  }

  /** A query holds when some instance of `principal says fact` is believed. */
  ghost predicate QueryHolds(said: seq<Spoken>, q: Query) {
    exists sigma: Substitution :: GroundFact(sigma, q.principal, q.fact) in Beliefs(said)
  }
}
