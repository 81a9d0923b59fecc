/** Numbers as text: the numerals that the program prints, and block numbers in and out of text. */
module Numerals {
  import opened Machine
  import opened Wrappers

  function DigitChar(d: nat): char
    requires d < 16
  {
    if d < 10 then '0' + d as char else 'a' + (d - 10) as char
  }

  function DigitValue(c: char): Option<nat> {
    if '0' <= c <= '9' then Some((c - '0') as nat)
    else if 'a' <= c <= 'f' then Some((c - 'a') as nat + 10)
    else if 'A' <= c <= 'F' then Some((c - 'A') as nat + 10)
    else None
  }

  datatype Base = Decimal | Hexadecimal

  function Size(base: Base): nat {
    if base.Decimal? then 10 else 16
  }

  /** All digits but the last, and the last, and back. */
  function Front(n: nat, base: Base): nat {
    if base.Decimal? then n / 10 else n / 16
  }

  function Last(n: nat, base: Base): (d: nat)
    ensures d < Size(base)
  {
    if base.Decimal? then n % 10 else n % 16
  }

  function Join(front: nat, d: nat, base: Base): nat {
    (if base.Decimal? then front * 10 else front * 16) + d
  }

  /** The numeral of n without leading zeros. */
  function Text(n: nat, base: Base): (s: string)
    ensures s != []
    ensures forall i | 0 <= i < |s| :: '0' <= s[i] <= '9' || (base.Hexadecimal? && 'a' <= s[i] <= 'f')
  {
    if n < Size(base) then [DigitChar(n)] else Text(Front(n, base), base) + [DigitChar(Last(n, base))]
  }

  /** The number that a string of digits stands for; the empty string stands for 0. */
  function Read(s: string, base: Base): Option<nat> {
    if s == [] then Some(0)
    else
      var front, d := Read(s[..|s| - 1], base), DigitValue(s[|s| - 1]);
      if front.None? || d.None? || d.value >= Size(base) then None else Some(Join(front.value, d.value, base))
  }

  lemma {:induction false} TextReads(n: nat, base: Base)
    ensures Read(Text(n, base), base) == Some(n)
    decreases n
  {
    if n >= Size(base) {
      TextReads(Front(n, base), base);
      DigitBack(Last(n, base));
      Appended(Text(Front(n, base), base), DigitChar(Last(n, base)), base);
    } else {
      DigitBack(n);
      OneDigit(DigitChar(n), base);
    }
  }

  lemma DigitBack(d: nat)
    requires d < 16
    ensures DigitValue(DigitChar(d)) == Some(d)
  {
  }

  lemma Appended(front: string, c: char, base: Base)
    ensures Read(front + [c], base) ==
      if Read(front, base).None? || DigitValue(c).None? || DigitValue(c).value >= Size(base) then None
      else Some(Join(Read(front, base).value, DigitValue(c).value, base))
  {
    assert (front + [c])[..|front|] == front;
  }

  lemma OneDigit(c: char, base: Base)
    requires DigitValue(c).Some? && DigitValue(c).value < Size(base)
    ensures Read([c], base) == DigitValue(c)
  {
    assert [c] == [] + [c];
    Appended([], c, base);
  }

  predicate LowerDigit(c: char, base: Base) {
    DigitValue(c).Some? && DigitValue(c).value < Size(base) && !('A' <= c <= 'F')
  }

  predicate LowerDigits(s: string, base: Base) {
    s == [] || (LowerDigits(s[..|s| - 1], base) && LowerDigit(s[|s| - 1], base))
  }

  /** Lower-case digits without a superfluous zero in front. */
  predicate Canonical(s: string, base: Base) {
    s != [] && LowerDigits(s, base) && (|s| > 1 ==> s[0] != '0')
  }

  lemma {:induction false} TextIsCanonical(n: nat, base: Base)
    ensures Canonical(Text(n, base), base)
    ensures n > 0 ==> Text(n, base)[0] != '0'
    decreases n
  {
    var s := Text(n, base);
    if n >= Size(base) {
      TextIsCanonical(Front(n, base), base);
      LowerDigitBack(Last(n, base), base);
      assert s[..|s| - 1] == Text(Front(n, base), base);
    } else {
      LowerDigitBack(n, base);
      assert s[..0] == [] && LowerDigits(s[..0], base);
    }
  }

  lemma LowerDigitBack(d: nat, base: Base)
    requires d < Size(base)
    ensures LowerDigit(DigitChar(d), base) && (d > 0 ==> DigitChar(d) != '0')
  {
  }

  lemma {:induction false} CanonicalIsText(s: string, base: Base)
    requires Canonical(s, base)
    ensures Read(s, base).Some? && Text(Read(s, base).value, base) == s
    ensures s[0] != '0' ==> Read(s, base).value > 0
  {
    var front, c := s[..|s| - 1], s[|s| - 1];
    CharBack(c, base);
    assert s == front + [c];
    if front != [] {
      assert front[0] == s[0];
      CanonicalIsText(front, base);
      TextJoins(Read(front, base).value, DigitValue(c).value, base);
      Appended(front, c, base);
    } else {
      OneDigit(c, base);
    }
  }

  lemma CharBack(c: char, base: Base)
    requires LowerDigit(c, base)
    ensures DigitChar(DigitValue(c).value) == c && (c != '0' ==> DigitValue(c).value > 0)
  {
  }

  lemma TextJoins(front: nat, d: nat, base: Base)
    requires d < Size(base) && front > 0
    ensures Text(Join(front, d, base), base) == Text(front, base) + [DigitChar(d)]
  {
    Joined(front, d, base);
  }

  lemma Joined(front: nat, d: nat, base: Base)
    requires d < Size(base) && front > 0
    ensures var n := Join(front, d, base); n >= Size(base) && Front(n, base) == front && Last(n, base) == d
  {
  }

  // ----- decimal numerals -----

  function Pow10(n: nat): (p: nat)
    ensures p > 0
  {
    if n == 0 then 1 else 10 * Pow10(n - 1)
  }

  /** The number whose numeral is that of v with n zeros behind it. */
  function Scaled(v: nat, n: nat): nat {
    if n == 0 then v else 10 * Scaled(v, n - 1)
  }

  lemma {:induction false} ScaledIs(v: nat, n: nat)
    ensures Scaled(v, n) == v * Pow10(n)
  {
    if n > 0 {
      ScaledIs(v, n - 1);
      TenTimes(v, Pow10(n - 1));
    }
  }

  lemma TenTimes(a: int, p: int)
    ensures a * (10 * p) == 10 * (a * p)
  {
  }

  lemma {:induction false} ReadConcat(s: string, t: string)
    ensures Read(s + t, Decimal) ==
      if Read(s, Decimal).Some? && Read(t, Decimal).Some?
      then Some(Scaled(Read(s, Decimal).value, |t|) + Read(t, Decimal).value) else None
  {
    if t == [] {
      assert s + t == s;
    } else {
      var front, c := t[..|t| - 1], t[|t| - 1];
      ReadConcat(s, front);
      assert s + t == (s + front) + [c] && t == front + [c];
      Appended(s + front, c, Decimal);
      Appended(front, c, Decimal);
    }
  }

  /** A decimal numeral has at most n digits exactly when it is below 10 to the n. */
  lemma {:induction false} LengthIff(v: nat, n: nat)
    requires n > 0
    ensures |Text(v, Decimal)| <= n <==> v < Pow10(n)
    decreases n
  {
    if n == 1 {
      assert Pow10(1) == 10 * Pow10(0);
    } else if v >= 10 {
      LengthIff(v / 10, n - 1);
    }
  }

  // ----- block numbers -----

  predicate HexPrefixed(s: string) {
    |s| >= 2 && s[0] == '0' && s[1] == 'x'
  }

  function FormatBlockNumber(n: uint64): string {
    "0x" + Text(n, Hexadecimal)
  }

  /** A string of at least one digit whose number fits into uint64. */
  function ReadUint64(s: string, base: Base): Option<uint64>
  {
    var v := Read(s, base);
    if s == [] || v.None? || v.value >= U64 then None else Some(v.value)
  }

  /** Hexadecimal digits may follow a sign; below zero there is no block. */
  function ParseBlockNumber(s: string): Option<uint64> {
    if HexPrefixed(s) then
      var body := s[2..];
      if body != [] && body[0] == '+' then ReadUint64(body[1..], Hexadecimal)
      else if body != [] && body[0] == '-' then
        var v := ReadUint64(body[1..], Hexadecimal);
        if v == Some(0) then v else None
      else ReadUint64(body, Hexadecimal)
    else ReadUint64(s, Decimal)
  }

  lemma FormatParses(n: uint64)
    ensures ParseBlockNumber(FormatBlockNumber(n)) == Some(n)
    ensures Canonical(FormatBlockNumber(n)[2..], Hexadecimal)
  {
    TextReads(n, Hexadecimal);
    TextIsCanonical(n, Hexadecimal);
    assert FormatBlockNumber(n)[2..] == Text(n, Hexadecimal);
  }

  /**
   Printing undoes parsing on the texts in canonical form, which are the printed ones, and parsing undoes printing.
   */
  lemma FormatParseIff(n: uint64, s: string)
    ensures FormatBlockNumber(n) == s <==>
      ParseBlockNumber(s) == Some(n) && HexPrefixed(s) && Canonical(s[2..], Hexadecimal)
    ensures ParseBlockNumber(FormatBlockNumber(n)) == Some(n)
  {
    FormatParses(n);
    if HexPrefixed(s) && Canonical(s[2..], Hexadecimal) {
      UnsignedHead(s[2..]);
      CanonicalIsText(s[2..], Hexadecimal);
      assert s == "0x" + s[2..];
    }
  }

  lemma {:induction false} UnsignedHead(s: string)
    requires s != [] && LowerDigits(s, Hexadecimal)
    ensures s[0] != '+' && s[0] != '-'
  {
    if |s| > 1 {
      UnsignedHead(s[..|s| - 1]);
    }
  }

  /** Decimal text is parsed as well. */
  lemma DecimalParses(n: uint64)
    ensures ParseBlockNumber(Text(n, Decimal)) == Some(n)
  {
    TextReads(n, Decimal);
    assert !HexPrefixed(Text(n, Decimal));
  }
}
