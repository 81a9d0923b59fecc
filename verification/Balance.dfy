/** Balances as decimal text. */
module Balance {
  import opened Machine
  import opened Wrappers
  import opened Numerals

  /** The widest padding that the formatter takes, and what it prints for a wider one. */
  const MAX_WIDTH := 1_000_000
  const BAD_WIDTH := "%!(BADWIDTH)"

  function Zeros(n: nat): (s: string)
    ensures |s| == n
  {
    if n == 0 then "" else Zeros(n - 1) + "0"
  }

  /** The format %0*d. */
  function Padded(width: nat, n: nat): string {
    var s := Text(n, Decimal);
    if width > MAX_WIDTH then BAD_WIDTH + s
    else if |s| < width then Zeros(width - |s|) + s
    else s
  }

  function TrimZeros(s: string): (t: string)
    ensures |t| <= |s|
  {
    if s != [] && s[|s| - 1] == '0' then TrimZeros(s[..|s| - 1]) else s
  }

  function BalanceText(balance: Option<nat>, decimals: int): string {
    match balance
    case None => "0"
    case Some(b) =>
      var (whole, fraction) := Parts(b, decimals);
      Spelled(whole, fraction)
  }

  /** The number before the point, and the digits behind it. */
  function Parts(b: nat, decimals: int): (nat, string) {
    if decimals <= 0 then (b, "")
    else
      var (whole, part) := DivMod(b, Pow10(decimals));
      (whole, TrimZeros(Padded(decimals, part)))
  }

  function Spelled(whole: nat, fraction: string): string {
    if fraction == "" then Text(whole, Decimal) else Text(whole, Decimal) + "." + fraction
  }

  // ----- reading back -----

  /** What is before the first point, and what is behind it, if there is one. */
  function Split(s: string): (string, Option<string>) {
    if s == [] then ("", None)
    else if s[0] == '.' then ("", Some(s[1..]))
    else
      var (front, rest) := Split(s[1..]);
      ([s[0]] + front, rest)
  }

  /**
   The number of smallest units that a decimal text stands for, if it has at most `decimals` digits behind the point.
   */
  function ReadBalance(s: string, decimals: nat): Option<nat> {
    var (whole, fraction) := Split(s);
    match fraction
    case None => ReadParts(whole, "", decimals)
    case Some(digits) => if digits == "" then None else ReadParts(whole, digits, decimals)
  }

  function ReadParts(whole: string, fraction: string, decimals: nat): Option<nat> {
    var w, f := Read(whole, Decimal), Read(fraction, Decimal);
    if whole == "" || |fraction| > decimals || w.None? || f.None? then None
    else Some(Scaled(w.value, decimals) + Scaled(f.value, decimals - |fraction|))
  }

  lemma {:induction false} SplitAtPoint(s: string, t: string)
    requires forall i | 0 <= i < |s| :: s[i] != '.'
    ensures Split(s + "." + t) == (s, Some(t)) && Split(s) == (s, None)
  {
    if s != [] {
      assert (s + "." + t)[1..] == s[1..] + "." + t;
      SplitAtPoint(s[1..], t);
      assert [s[0]] + s[1..] == s;
    } else {
      assert (s + "." + t)[1..] == t;
    }
  }

  lemma SplitSpelled(whole: nat, fraction: string)
    ensures Split(Spelled(whole, fraction)) == (Text(whole, Decimal), if fraction == "" then None else Some(fraction))
  {
    SplitAtPoint(Text(whole, Decimal), fraction);
  }

  lemma {:induction false} ZerosRead(n: nat)
    ensures Read(Zeros(n), Decimal) == Some(0)
  {
    if n > 0 {
      ZerosRead(n - 1);
      assert Zeros(n)[..n - 1] == Zeros(n - 1);
    }
  }

  lemma PaddedReads(width: nat, n: nat)
    requires 0 < width <= MAX_WIDTH && n < Pow10(width)
    ensures |Padded(width, n)| == width && Read(Padded(width, n), Decimal) == Some(n)
  {
    var s := Text(n, Decimal);
    LengthIff(n, width);
    TextReads(n, Decimal);
    if |s| < width {
      ZerosRead(width - |s|);
      ReadConcat(Zeros(width - |s|), s);
      ScaledIs(0, |s|);
    }
  }

  lemma {:induction false} TrimReads(s: string)
    requires Read(s, Decimal).Some?
    ensures var t := TrimZeros(s);
      Read(t, Decimal).Some? && Read(s, Decimal).value == Scaled(Read(t, Decimal).value, |s| - |t|)
  {
    if s != [] && s[|s| - 1] == '0' {
      var front := s[..|s| - 1];
      TrimReads(front);
      assert s == front + ['0'];
      Appended(front, '0', Decimal);
    }
  }

  lemma {:induction false} TrimmedEnd(s: string)
    ensures var t := TrimZeros(s); t != "" ==> t[|t| - 1] != '0'
  {
    if s != [] && s[|s| - 1] == '0' {
      TrimmedEnd(s[..|s| - 1]);
    }
  }

  lemma {:induction false} TrimBehind(s: string, t: string)
    requires s != [] && s[|s| - 1] != '0'
    ensures TrimZeros(s + t) == s + TrimZeros(t)
  {
    if t != [] && t[|t| - 1] == '0' {
      assert (s + t)[..|s + t| - 1] == s + t[..|t| - 1];
      TrimBehind(s, t[..|t| - 1]);
    } else if t == [] {
      assert s + t == s;
    }
  }

  lemma FractionReads(part: nat, decimals: nat)
    requires 0 < decimals <= MAX_WIDTH && part < Pow10(decimals)
    ensures var fraction := TrimZeros(Padded(decimals, part));
      && |fraction| <= decimals && Read(fraction, Decimal).Some?
      && Scaled(Read(fraction, Decimal).value, decimals - |fraction|) == part
  {
    PaddedReads(decimals, part);
    TrimReads(Padded(decimals, part));
  }

  lemma PartsRead(b: nat, decimals: nat)
    requires decimals <= MAX_WIDTH
    ensures var (whole, fraction) := Parts(b, decimals);
      && |fraction| <= decimals && Read(fraction, Decimal).Some?
      && b == Scaled(whole, decimals) + Scaled(Read(fraction, Decimal).value, decimals - |fraction|)
      && (fraction != "" ==> fraction[|fraction| - 1] != '0')
  {
    if decimals > 0 {
      var (whole, part) := DivMod(b, Pow10(decimals));
      TrimmedEnd(Padded(decimals, part));
      DivModSums(b, Pow10(decimals));
      ScaledIs(whole, decimals);
      FractionReads(part, decimals);
    }
  }

  lemma SpelledReads(whole: nat, fraction: string, decimals: nat)
    ensures ReadBalance(Spelled(whole, fraction), decimals) == ReadParts(Text(whole, Decimal), fraction, decimals)
  {
    SplitSpelled(whole, fraction);
  }

  lemma PartsReadBack(whole: nat, fraction: string, decimals: nat)
    requires |fraction| <= decimals && Read(fraction, Decimal).Some?
    ensures ReadParts(Text(whole, Decimal), fraction, decimals) ==
      Some(Scaled(whole, decimals) + Scaled(Read(fraction, Decimal).value, decimals - |fraction|))
  {
    TextReads(whole, Decimal);
  }

  lemma SpelledReadsBack(b: nat, whole: nat, fraction: string, decimals: nat)
    requires |fraction| <= decimals && Read(fraction, Decimal).Some?
    requires b == Scaled(whole, decimals) + Scaled(Read(fraction, Decimal).value, decimals - |fraction|)
    ensures ReadBalance(Spelled(whole, fraction), decimals) == Some(b)
  {
    SpelledReads(whole, fraction, decimals);
    PartsReadBack(whole, fraction, decimals);
  }

  lemma ReadsBack(b: nat, decimals: nat)
    requires decimals <= MAX_WIDTH
    ensures ReadBalance(BalanceText(Some(b), decimals), decimals) == Some(b)
  {
    PartsRead(b, decimals);
    SpelledReadsBack(b, Parts(b, decimals).0, Parts(b, decimals).1, decimals);
  }

  lemma TooWideIsUnreadable(b: nat, decimals: nat)
    requires decimals > MAX_WIDTH
    ensures var (whole, part) := DivMod(b, Pow10(decimals));
      Parts(b, decimals) == (whole, BAD_WIDTH + TrimZeros(Text(part, Decimal)))
    ensures ReadBalance(BalanceText(Some(b), decimals), decimals) == None
  {
    var (whole, part) := DivMod(b, Pow10(decimals));
    var digits := Text(part, Decimal);
    TrimBehind(BAD_WIDTH, digits);
    SpelledReads(whole, BAD_WIDTH + TrimZeros(digits), decimals);
    ReadConcat(BAD_WIDTH, TrimZeros(digits));
    Unreadable();
  }

  lemma Unreadable()
    ensures Read(BAD_WIDTH, Decimal) == None
  {
    assert DigitValue(BAD_WIDTH[|BAD_WIDTH| - 1]) == None;
  }

  /** The text gives the balance back exactly when the formatter can pad to the number of decimals. */
  lemma ReadsBackIff(b: nat, decimals: nat)
    ensures ReadBalance(BalanceText(Some(b), decimals), decimals) == Some(b) <==> decimals <= MAX_WIDTH
  {
    if decimals <= MAX_WIDTH {
      ReadsBack(b, decimals);
    } else {
      TooWideIsUnreadable(b, decimals);
    }
  }

  /** Different balances have different texts. */
  ghost predicate Distinguishes(decimals: nat) {
    forall b: nat, b': nat | b != b' :: BalanceText(Some(b), decimals) != BalanceText(Some(b'), decimals)
  }

  /** Exactly then the printed balances can be told apart. */
  lemma DistinguishesIff(decimals: nat)
    ensures Distinguishes(decimals) <==> decimals <= MAX_WIDTH
  {
    if decimals <= MAX_WIDTH {
      forall b: nat, b': nat | b != b'
        ensures BalanceText(Some(b), decimals) != BalanceText(Some(b'), decimals)
      {
        ReadsBack(b, decimals);
        ReadsBack(b', decimals);
      }
    } else {
      TooWideIsUnreadable(1, decimals);
      TooWideIsUnreadable(10, decimals);
      OneAndTen(decimals);
      assert BalanceText(Some(1), decimals) == BalanceText(Some(10), decimals);
    }
  }

  lemma OneAndTen(decimals: nat)
    requires decimals > MAX_WIDTH
    ensures DivMod(1, Pow10(decimals)) == (0, 1) && DivMod(10, Pow10(decimals)) == (0, 10)
    ensures TrimZeros(Text(1, Decimal)) == TrimZeros(Text(10, Decimal))
  {
    assert Pow10(decimals) == 10 * (10 * Pow10(decimals - 2));
    assert Text(10, Decimal) == "10";
    assert TrimZeros("10") == TrimZeros("1");
  }

  /** The printed text has no point, or digits behind it that do not end in zero and are not more than asked for. */
  lemma FractionIsTidy(b: nat, decimals: nat)
    requires decimals <= MAX_WIDTH
    ensures match Split(BalanceText(Some(b), decimals)).1
      case None => true
      case Some(digits) => 0 < |digits| <= decimals && digits[|digits| - 1] != '0' && Read(digits, Decimal).Some?
  {
    PartsRead(b, decimals);
    SplitSpelled(Parts(b, decimals).0, Parts(b, decimals).1);
  }

  /** How many of the smallest units make one. */
  method SmallestUnits(decimals: int) returns (unit: nat)
    ensures unit == Pow10(if decimals < 0 then 0 else decimals)
  {
    var i := 0;
    unit := 1;
    while i < decimals
      invariant 0 <= i && (decimals >= 0 ==> i <= decimals) && (decimals < 0 ==> i == 0)
      invariant unit == Pow10(i)
    {
      unit, i := unit * 10, i + 1;
    }
  }

  method FormatBalance(balance: Option<nat>, decimals: int) returns (text: string)
    ensures text == BalanceText(balance, decimals)
    ensures balance.None? ==> text == "0"
    ensures balance.Some? && decimals <= 0 ==> text == Text(balance.value, Decimal)
  {
    if balance.None? {
      return "0";
    }
    var unit := SmallestUnits(decimals);
    var (whole, part) := DivMod(balance.value, unit);
    if decimals > 0 {
      var fraction := TrimZeros(Padded(decimals, part));
      text := Text(whole, Decimal);
      if fraction != "" {
        text := text + "." + fraction;
      }
    } else {
      DivModSums(balance.value, 1);
      text := Text(whole, Decimal);
    }
  }
}
