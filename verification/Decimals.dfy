/** Decimal numerals: printing, zero padding, stripping and reading back. */
module Decimals {

  predicate IsDigit(c: char) {
    '0' <= c <= '9'
  }

  predicate AllDigits(s: string) {
    forall c <- s :: IsDigit(c)
  }

  function DigitOf(n: nat): char
    requires n < 10
  {
    '0' + n as char
  }

  function ToDecimal(n: nat): (s: string)
    ensures s != "" && AllDigits(s)
  {
    if n < 10 then [DigitOf(n)] else ToDecimal(n / 10) + [DigitOf(n % 10)]
  }

  /** The number a string of digits stands for; the empty string stands for zero. */
  function ValueOf(s: string): nat
    requires AllDigits(s)
  {
    if s == "" then 0
    else
      assert s[|s| - 1] in s;
      ValueOf(s[..|s| - 1]) * 10 + (s[|s| - 1] as int - '0' as int)
  }

  function Zeros(n: nat): (s: string)
    ensures |s| == n && AllDigits(s)
  {
    if n == 0 then "" else Zeros(n - 1) + "0"
  }

  function PadStart(s: string, width: nat): string {
    if |s| < width then Zeros(width - |s|) + s else s
  }

  function StripNonDigits(s: string): (d: string)
    ensures AllDigits(d)
  {
    if s == "" then ""
    else
      var rest := StripNonDigits(s[..|s| - 1]);
      if IsDigit(s[|s| - 1]) then rest + [s[|s| - 1]] else rest
  }

  lemma {:induction false} ReadBack(n: nat)
    ensures ValueOf(ToDecimal(n)) == n
  {
    if n >= 10 {
      ReadBack(n / 10);
      assert (ToDecimal(n / 10) + [DigitOf(n % 10)])[..|ToDecimal(n / 10)|] == ToDecimal(n / 10);
    }
  }

  lemma {:induction false} ZerosAreWorthless(n: nat)
    ensures ValueOf(Zeros(n)) == 0
  {
    if n > 0 {
      ZerosAreWorthless(n - 1);
      assert (Zeros(n - 1) + "0")[..n - 1] == Zeros(n - 1);
    }
  }

  lemma {:induction false} LeadingZeros(n: nat, s: string)
    requires AllDigits(s)
    ensures AllDigits(Zeros(n) + s) && ValueOf(Zeros(n) + s) == ValueOf(s)
  {
    if s == "" {
      ZerosAreWorthless(n);
      assert Zeros(n) + s == Zeros(n);
    } else {
      LeadingZeros(n, s[..|s| - 1]);
      assert (Zeros(n) + s)[..n + |s| - 1] == Zeros(n) + s[..|s| - 1];
    }
  }

  /** A padded numeral reads back as the number. */
  lemma PaddedReadBack(n: nat, width: nat)
    ensures
      var s := PadStart(ToDecimal(n), width);
      s != "" && AllDigits(s) && ValueOf(s) == n
  {
    ReadBack(n);
    if |ToDecimal(n)| < width { LeadingZeros(width - |ToDecimal(n)|, ToDecimal(n)); }
  }

  lemma {:induction false} StripKeepsDigits(prefix: string, d: string)
    requires AllDigits(d) && forall c <- prefix :: !IsDigit(c)
    ensures StripNonDigits(prefix + d) == d
  {
    if d != "" {
      StripKeepsDigits(prefix, d[..|d| - 1]);
      assert (prefix + d)[..|prefix| + |d| - 1] == prefix + d[..|d| - 1];
    } else if prefix != "" {
      StripKeepsDigits(prefix[..|prefix| - 1], "");
      assert prefix + d == prefix;
      assert prefix[..|prefix| - 1] + "" == prefix[..|prefix| - 1];
    }
  }

  lemma {:induction false} StripConcat(a: string, b: string)
    ensures StripNonDigits(a + b) == StripNonDigits(a) + StripNonDigits(b)
  {
    if b == "" {
      assert a + b == a;
    } else {
      var n := |b| - 1;
      StripConcat(a, b[..n]);
      assert (a + b)[..|a| + n] == a + b[..n];
    }
  }

  function Pow10(n: nat): nat {
    if n == 0 then 1 else 10 * Pow10(n - 1)
  }

  /** Digits after other digits. */
  lemma {:induction false} ValueOfConcat(a: string, b: string)
    requires AllDigits(a) && AllDigits(b)
    ensures AllDigits(a + b) && ValueOf(a + b) == ValueOf(a) * Pow10(|b|) + ValueOf(b)
  {
    if b == "" {
      assert a + b == a;
    } else {
      var n := |b| - 1;
      ValueOfConcat(a, b[..n]);
      assert (a + b)[..|a| + n] == a + b[..n];
      assert ValueOf(a) * Pow10(|b|) == ValueOf(a) * Pow10(n) * 10;
    }
  }

  lemma {:induction false} DecimalFits(n: nat, width: nat)
    requires 1 <= width && n < Pow10(width)
    ensures |ToDecimal(n)| <= width
  {
    if n >= 10 {
      assert width > 1;
      DecimalFits(n / 10, width - 1);
    }
  }
}
