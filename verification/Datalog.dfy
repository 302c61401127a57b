/** The Datalog IR and the meaning of its positive programs. */
module Datalog {
  import opened Names
  import opened Inference

  datatype Sign = Negated | Positive

  datatype Predicate = Predicate(name: string, args: seq<string>, sign: Sign)

  datatype ArgumentType = NumberType | PrincipalType | CustomType(name: string)

  datatype Argument = Argument(name: string, argumentType: ArgumentType)

  datatype RelationDeclaration = RelationDeclaration(name: string, isAttribute: bool, arguments: seq<Argument>)

  /** An unconditional fact is a rule with an empty right-hand side. */
  datatype Rule = Rule(lhs: Predicate, rhs: seq<Predicate>)

  datatype Program = Program(declarations: seq<RelationDeclaration>, rules: seq<Rule>, outputs: seq<string>)

  // ---------- Ground instances ----------

  /** A ground substitution: the value of every variable. */
  type Substitution = string -> Const

  function Value(sigma: Substitution, name: string): Const {
    if IsNameConstant(name) then name else sigma(name)
  }

  function Values(sigma: Substitution, names: seq<string>): (r: seq<Const>)
    ensures |r| == |names|
  {
    seq(|names|, i requires 0 <= i < |names| => Value(sigma, names[i]))
  }

  datatype Atom = Atom(name: string, args: seq<Const>)

  function GroundPredicate(sigma: Substitution, p: Predicate): Atom {
    Atom(p.name, Values(sigma, p.args))
  }

  function GroundPredicates(sigma: Substitution, ps: seq<Predicate>): (r: seq<Atom>)
    ensures |r| == |ps|
  {
    seq(|ps|, i requires 0 <= i < |ps| => GroundPredicate(sigma, ps[i]))
  }

  function RuleInstance(sigma: Substitution, rule: Rule): Step<Atom> {
    Step(GroundPredicate(sigma, rule.lhs), GroundPredicates(sigma, rule.rhs))
  }

  ghost predicate IsRuleInstance(rules: seq<Rule>, s: Step<Atom>) {
    exists rule, sigma :: rule in rules && s == RuleInstance(sigma, rule)
  }

  ghost function Steps(rules: seq<Rule>): iset<Step<Atom>> {
    iset s: Step<Atom> | IsRuleInstance(rules, s)
  }

  /** The least Herbrand model of a positive program. */
  ghost function Model(rules: seq<Rule>): iset<Atom> {
    LeastModel(Steps(rules))
  }

  predicate IsPositive(rule: Rule) {
    rule.lhs.sign == Positive && forall p :: p in rule.rhs ==> p.sign == Positive
  }

  // ---------- Variables ----------

  function VariablesOf(names: seq<string>): set<string> {
    set v | v in names && !IsNameConstant(v)
  }

  /** Every variable of the head occurs in a positive atom of the body. */
  predicate RangeRestricted(rule: Rule) {
    forall v :: v in VariablesOf(rule.lhs.args) ==>
      exists p :: p in rule.rhs && p.sign == Positive && v in p.args
  }

  /** Applying a rule whose ground premises are all in the model. */
  lemma ApplyRule(rules: seq<Rule>, rule: Rule, sigma: Substitution)
    requires rule in rules
    requires AllIn(GroundPredicates(sigma, rule.rhs), Model(rules))
    ensures GroundPredicate(sigma, rule.lhs) in Model(rules)
  {
    var s := RuleInstance(sigma, rule);
    assert IsRuleInstance(rules, s);
    Infer(Steps(rules), s);
  }

  /** Every atom of the model is the head of a rule instance whose body is in the model. */
  lemma RuleFor(rules: seq<Rule>, a: Atom) returns (rule: Rule, sigma: Substitution)
    requires a in Model(rules)
    ensures rule in rules && a == GroundPredicate(sigma, rule.lhs)
    ensures AllIn(GroundPredicates(sigma, rule.rhs), Model(rules))
  {
    Inversion(Steps(rules), a);
    var s :| s in Steps(rules) && s.head == a && AllIn(s.body, Model(rules));
    rule, sigma :| rule in rules && s == RuleInstance(sigma, rule);
  }

  /** Changing a substitution at a name that does not occur changes nothing. */
  lemma ValuesAgree(sigma: Substitution, tau: Substitution, names: seq<string>)
    requires forall v :: v in names && !IsNameConstant(v) ==> sigma(v) == tau(v)
    ensures Values(sigma, names) == Values(tau, names)
  {
  }
}
