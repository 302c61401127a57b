/** Membership in sequences, and numbers that are not in a set. */
module Seqs {

  lemma InConcat<T>(a: seq<T>, b: seq<T>, x: T)
    ensures x in a + b <==> x in a || x in b
  {
  }

  /** An element of a nonempty sequence is its last one or occurs before it. */
  lemma InInitOrLast<T>(s: seq<T>, x: T)
    requires s != []
    ensures x in s <==> x in s[..|s| - 1] || x == s[|s| - 1]
  {
  }

  lemma IndexOf<T>(s: seq<T>, x: T) returns (i: nat)
    requires x in s
    ensures i < |s| && s[i] == x
  {
    i :| i < |s| && s[i] == x;
  }

  /** There is always one more number, such as an unused address. */
  lemma FreshNumber(numbers: set<nat>) returns (n: nat)
    ensures n !in numbers
  {
    n := 0;
    var seen := {};
    while n in numbers
      invariant seen <= numbers && forall i :: i in seen ==> i < n
      decreases |numbers - seen|
    {
      assert numbers - seen - {n} == numbers - (seen + {n});
      seen := seen + {n};
      n := n + 1;
    }
  }
}
