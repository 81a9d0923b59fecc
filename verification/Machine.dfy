/** Go's fixed-width integers, with the wrap-around written out. */
module Machine {
  const U64: int := 0x1_0000_0000_0000_0000
  const I63: int := 0x8000_0000_0000_0000

  type uint64 = x: int | 0 <= x < U64
  type int64 = x: int | -I63 <= x < I63

  /** The value a uint64 expression keeps of an exact result. */
  function Wrap(x: int): uint64 {
    if 0 <= x < U64 then x else x % 0x1_0000_0000_0000_0000
  }

  /** The conversion int64(x), and the value an int64 expression keeps of an exact result. */
  function Signed(x: int): int64 {
    if -I63 <= x < I63 then x
    else if Wrap(x) < I63 then Wrap(x)
    else Wrap(x) - U64
  }

  function Min(a: int, b: int): int {
    if a < b then a else b
  }

  function Max(a: int, b: int): int {
    if a > b then a else b
  }

  /** Division with remainder, as repeated subtraction. */
  function DivMod(a: nat, b: nat): (r: (nat, nat))
    requires b > 0
    ensures r.1 < b && r.0 <= a
  {
    if a < b then (0, a)
    else
      var (quotient, rest) := DivMod(a - b, b);
      (quotient + 1, rest)
  }

  lemma {:induction false} DivModSums(a: nat, b: nat)
    requires b > 0
    ensures var (quotient, rest) := DivMod(a, b); a == quotient * b + rest
    decreases a
  {
    if a >= b {
      DivModSums(a - b, b);
      var quotient := DivMod(a - b, b).0;
      assert (quotient + 1) * b == quotient * b + b;
    }
  }

  /** There is only one quotient and remainder. */
  lemma {:induction false} DivModIs(a: nat, b: nat, quotient: nat, rest: nat)
    requires b > 0 && a == quotient * b + rest && rest < b
    ensures DivMod(a, b) == (quotient, rest)
    decreases a
  {
    if quotient > 0 {
      assert a == (quotient - 1) * b + b + rest && (quotient - 1) * b >= 0;
      DivModIs(a - b, b, quotient - 1, rest);
    }
  }

  lemma DivModIsDivision(a: nat, b: nat)
    requires b > 0
    ensures DivMod(a, b) == (a / b, a % b)
  {
    assert a == b * (a / b) + a % b;
    DivModIs(a, b, a / b, a % b);
  }
}
