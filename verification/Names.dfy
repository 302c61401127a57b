/**
 Names of the authorization logic and of the Datalog IR.  An argument or
 principal is a string; whether it is a constant or a variable is decided by
 its spelling.
 */
module Names {

  predicate IsSpace(c: char) {
    c in {' ', '\t', '\n', '\r', '\U{0B}', '\U{0C}'}
  }

  predicate IsDigit(c: char) {
    '0' <= c <= '9'
  }

  function TrimLeft(s: string): string {
    if s != [] && IsSpace(s[0]) then TrimLeft(s[1..]) else s
  }

  function TrimRight(s: string): string {
    if s != [] && IsSpace(s[|s| - 1]) then TrimRight(s[..|s| - 1]) else s
  }

  function DigitsValue(s: string): nat
    requires forall c :: c in s ==> IsDigit(c)
  {
    if s == [] then 0
    else
      var last := s[|s| - 1];
      assert IsDigit(last);
      DigitsValue(s[..|s| - 1]) * 10 + (last as int - '0' as int)
  }

  const INT32_MAX: int := 0x7fff_ffff

  /** What the 32-bit integer parser accepts: blanks around an optional sign and digits in range. */
  predicate IsInt32Literal(id: string) {
    var s := TrimRight(TrimLeft(id));
    var negative := s != [] && s[0] == '-';
    var digits := if s != [] && (s[0] == '-' || s[0] == '+') then s[1..] else s;
    digits != [] && (forall c :: c in digits ==> IsDigit(c)) &&
    DigitsValue(digits) <= if negative then INT32_MAX + 1 else INT32_MAX
  }

  /** A name is a constant when it is quoted or reads as a number; otherwise it is a variable. */
  predicate IsNameConstant(id: string) {
    (id != [] && id[0] == '"' && id[|id| - 1] == '"') || IsInt32Literal(id)
  }

  type Const = s: string | IsNameConstant(s) witness "\"\""

  function Decimal(n: nat): string {
    if n < 10 then [('0' as int + n) as char] else Decimal(n / 10) + Decimal(n % 10)
  }

  /** The spelling of the `n`-th variable invented by the lowering pass. */
  function FreshName(n: nat): string {
    "x__" + Decimal(n)
  }

  ghost predicate IsFreshName(name: string) {
    exists n: nat :: name == FreshName(n)
  }

  lemma FreshNameIsVariable(n: nat)
    ensures !IsNameConstant(FreshName(n))
  {
    var id := FreshName(n);
    assert id[0] == 'x';
    assert TrimLeft(id) == id;
    TrimRightKeepsHead(id);
    var s := TrimRight(id);
    assert s[0] == 'x' && s[0] in s && !IsDigit(s[0]);
  }

  lemma {:induction false} TrimRightKeepsHead(s: string)
    requires s != [] && !IsSpace(s[0])
    ensures TrimRight(s) != [] && TrimRight(s)[0] == s[0]
    decreases |s|
  {
    if IsSpace(s[|s| - 1]) {
      TrimRightKeepsHead(s[..|s| - 1]);
    }
  }

  // ---------- Numbers in decimal ----------

  lemma {:induction false} DecimalReads(n: nat)
    ensures forall c :: c in Decimal(n) ==> IsDigit(c)
    ensures DigitsValue(Decimal(n)) == n
  {
    var s := Decimal(n);
    if n < 10 {
      assert s[..0] == [];
      assert DigitsValue(s[..0]) == 0;
    } else {
      DecimalReads(n / 10);
      DecimalReads(n % 10);
      assert s[..|s| - 1] == Decimal(n / 10);
      assert Decimal(n % 10) == [s[|s| - 1]];
    }
  }

  lemma TrimKeeps(s: string)
    requires s != [] && !IsSpace(s[0]) && !IsSpace(s[|s| - 1])
    ensures TrimRight(TrimLeft(s)) == s
  {
  }

  lemma DecimalIsTrimmed(n: nat)
    ensures |Decimal(n)| > 0 && TrimRight(TrimLeft(Decimal(n))) == Decimal(n)
    ensures TrimRight(TrimLeft("-" + Decimal(n))) == "-" + Decimal(n)
    ensures forall c :: c in Decimal(n) ==> IsDigit(c)
    ensures DigitsValue(Decimal(n)) == n
  {
    DecimalReads(n);
    var s := Decimal(n);
    assert s[0] in s && s[|s| - 1] in s;
    TrimKeeps(s);
    TrimKeeps("-" + s);
  }

  /** Decimal numbers are constants up to the bounds of 32-bit integers; beyond, they read as variables. */
  lemma DecimalIsConstantIff(n: nat)
    ensures IsNameConstant(Decimal(n)) <==> n <= 2147483647
    ensures IsNameConstant("-" + Decimal(n)) <==> n <= 2147483648
  {
    DecimalIsTrimmed(n);
    hide Decimal, TrimLeft, TrimRight, DigitsValue;
    var s := Decimal(n);
    assert s[0] in s;
    assert ("-" + s)[1..] == s;
  }

  const SAYS := "says_"
  const CAN_SAY := "canSay_"
  const CAN_ACT_AS := "canActAs"
  const DUMMY_ARGUMENT: Const := "\"dummy_var\""
  const GROUNDED_DUMMY := "grounded_dummy"

  predicate StartsWith(s: string, prefix: string) {
    prefix <= s
  }
}
