/** Numerals in bases 2 to 36: what std::to_string, std::stoi and sio_ltoa print and read. */
module Numerals {
  import opened Model

  predicate IsBase(b: int) {
    2 <= b <= 36
  }

  function DigitChar(d: nat): char
    requires d < 36
  {
    if d < 10 then '0' + d as char else 'a' + (d - 10) as char
  }

  /** The value of a digit, or 36 for a character that is none. */
  function DigitValue(c: char): (d: nat)
    ensures d <= 36
  {
    if '0' <= c <= '9' then (c - '0') as nat
    else if 'a' <= c <= 'z' then (c - 'a') as nat + 10
    else 36
  }

  predicate AllDigits(s: string, b: int) {
    forall i :: 0 <= i < |s| ==> DigitValue(s[i]) < b
  }

  lemma DivMod(n: nat, b: int)
    requires b >= 2
    ensures n == b * (n / b) + n % b
    ensures 0 <= n % b < b && 0 <= n / b
  {
  }

  lemma TimesAtLeast(x: int, b: int)
    requires x >= 1 && b >= 0
    ensures b * x >= b
  {
  }

  lemma DivSmaller(n: nat, b: int)
    requires 2 <= b <= n
    ensures 0 < n / b < n
  {
    DivMod(n, b);
    var q := n / b;
    if q >= 1 {
      assert b * q >= 2 * q by {
        TimesAtLeast(q, b - 2 + 1);
        assert b * q - 2 * q == (b - 2) * q;
      }
    }
  }

  lemma DivideBack(q: nat, r: nat, b: int)
    requires b >= 2 && 0 <= r < b
    ensures (b * q + r) / b == q && (b * q + r) % b == r
  {
    var n := b * q + r;
    DivMod(n, b);
    var q', r' := n / b, n % b;
    assert b * (q - q') == r' - r && b * (q' - q) == r - r';
    if q > q' {
      TimesAtLeast(q - q', b);
    } else if q < q' {
      TimesAtLeast(q' - q, b);
    }
  }

  function Numeral(n: nat, b: int): (s: string)
    requires IsBase(b)
    ensures |s| > 0
    decreases n
  {
    if n < b then [DigitChar(n)]
    else
      DivSmaller(n, b);
      DivMod(n, b);
      Numeral(n / b, b) + [DigitChar(n % b)]
  }

  function Value(s: string, b: int): (n: nat)
    requires IsBase(b)
  {
    if s == "" then 0
    else
      ValueStep(Value(s[..|s| - 1], b), DigitValue(s[|s| - 1]), b)
  }

  function ValueStep(v: nat, d: nat, b: int): nat
    requires IsBase(b)
  {
    b * v + d
  }

  lemma DigitRoundTrip(d: nat)
    requires d < 36
    ensures DigitValue(DigitChar(d)) == d
    ensures DigitChar(d) == '0' <==> d == 0
  {
  }

  lemma DigitOfValue(c: char)
    requires DigitValue(c) < 36
    ensures DigitChar(DigitValue(c)) == c
  {
  }

  /** A numeral consists of digits, has no superfluous leading zero, and reads back. */
  lemma {:induction false} NumeralReadsBack(n: nat, b: int)
    requires IsBase(b)
    ensures AllDigits(Numeral(n, b), b)
    ensures n > 0 ==> Numeral(n, b)[0] != '0'
    ensures Value(Numeral(n, b), b) == n
    decreases n
  {
    var s := Numeral(n, b);
    if n < b {
      DigitRoundTrip(n);
      assert s[..0] == "";
    } else {
      DivSmaller(n, b);
      DivMod(n, b);
      NumeralReadsBack(n / b, b);
      DigitRoundTrip(n % b);
      assert s[..|s| - 1] == Numeral(n / b, b);
      assert ValueStep(n / b, n % b, b) == n;
    }
  }

  /** Printing what was read gives the same digits when there is no leading zero. */
  lemma {:induction false} ReadPrintsBack(s: string, b: int)
    requires IsBase(b) && s != "" && AllDigits(s, b)
    requires s[0] != '0'
    ensures Value(s, b) > 0 && Numeral(Value(s, b), b) == s
    decreases |s|
  {
    var front, d := s[..|s| - 1], DigitValue(s[|s| - 1]);
    DigitOfValue(s[|s| - 1]);
    if front == "" {
      assert s == [s[0]];
      assert Value(front, b) == 0;
    } else {
      assert front[0] == s[0];
      ReadPrintsBack(front, b);
      PrintStep(Value(front, b), d, b);
      assert s == front + [s[|s| - 1]];
    }
  }

  lemma PrintStep(v: nat, d: nat, b: int)
    requires IsBase(b) && v > 0 && d < b
    ensures Numeral(ValueStep(v, d, b), b) == Numeral(v, b) + [DigitChar(d)]
    ensures ValueStep(v, d, b) > 0
  {
    DivideBack(v, d, b);
    TimesAtLeast(v, b);
  }

  /** A digit string is what its value prints as exactly if it is "0" or starts otherwise. */
  lemma PrintsBackIff(s: string)
    requires s != "" && AllDigits(s, 10)
    ensures Numeral(Value(s, 10), 10) == s <==> s == "0" || s[0] != '0'
  {
    NumeralReadsBack(Value(s, 10), 10);
    ZeroPrints();
    hide Numeral, Value, AllDigits;
    if s[0] != '0' {
      ReadPrintsBack(s, 10);
    }
  }

  lemma ZeroPrints()
    ensures Numeral(0, 10) == "0" && Value("0", 10) == 0
  {
    assert "0"[..0] == "";
  }

  /** Leading zeros do not change the value. */
  lemma {:induction false} PadValue(zeros: nat, s: string)
    ensures Value(seq(zeros, _ => '0') + s, 10) == Value(s, 10)
    decreases zeros + |s|
  {
    var pad := seq(zeros, _ => '0');
    if s == "" {
      assert pad + s == pad;
      if zeros > 0 {
        var less := seq(zeros - 1, _ => '0');
        assert pad[..zeros - 1] == less + "";
        PadValue(zeros - 1, "");
      }
    } else {
      assert (pad + s)[..|pad + s| - 1] == pad + s[..|s| - 1];
      PadValue(zeros, s[..|s| - 1]);
    }
  }

  function Pow10(k: nat): nat {
    if k == 0 then 1 else 10 * Pow10(k - 1)
  }

  /** A numeral has at most k digits exactly when the number is below 10 to the k. */
  lemma {:induction false} NumeralLength(n: nat, k: nat)
    requires k > 0
    ensures |Numeral(n, 10)| <= k <==> n < Pow10(k)
  {
    if n < 10 {
      Pow10Grows(k);
    } else if k == 1 {
      assert Pow10(1) == 10 * Pow10(0);
    } else {
      NumeralLength(n / 10, k - 1);
    }
  }

  lemma Pow10Grows(k: nat)
    requires k > 0
    ensures Pow10(k) >= 10
  {
  }

  /** The numeral of an integer: a minus sign, if it is negative, and the digits of its magnitude. */
  function SignedNumeral(v: int, b: int): (s: string)
    requires IsBase(b)
    ensures |s| > 0
  {
    if v < 0 then "-" + Numeral(-v, b) else Numeral(v, b)
  }

  /** std::to_string of an int. */
  function ToString(n: int): (s: string)
    ensures |s| > 0
  {
    SignedNumeral(n, 10)
  }

  lemma IntLength(n: int)
    requires 0 <= n <= INT_MAX
    ensures |ToString(n)| <= 10
  {
    assert Pow10(10) == 10_000_000_000;
    NumeralLength(n, 10);
  }
}
