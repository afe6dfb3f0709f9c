/** Printing a number into a buffer, digits first in reverse, then turned around in place
    (sio_ltoa and sio_reverse of csapp.cpp). */
module Sio {
  import opened Numerals

  const LONG_MIN: int := -0x8000_0000_0000_0000
  const LONG_MAX: int := 0x7FFF_FFFF_FFFF_FFFF

  function SignedValue(s: string, b: int): int
    requires IsBase(b)
  {
    if s != "" && s[0] == '-' then -(Value(s[1..], b) as int) else Value(s, b)
  }

  function Reversed(s: string): string {
    seq(|s|, i requires 0 <= i < |s| => s[|s| - 1 - i])
  }

  /** A printed number is its sign and digits without a superfluous leading zero, and parses
      back to the number, in every base. */
  lemma SignedRoundTrip(v: int, b: int)
    requires IsBase(b)
    ensures SignedValue(SignedNumeral(v, b), b) == v
    ensures var s := SignedNumeral(v, b); var digits := if v < 0 then s[1..] else s;
            AllDigits(digits, b) && (digits[0] == '0' ==> v == 0 && |digits| == 1)
  {
    var m := if v < 0 then -v else v;
    NumeralReadsBack(m, b);
    DigitOfValue(Numeral(m, b)[0]);
    assert v < 0 ==> SignedNumeral(v, b)[1..] == Numeral(m, b);
  }

  /** Base 2 needs the most digits: a long takes at most 63, its sign and the NUL two more. */
  lemma {:induction false} DigitCount(n: nat, b: int, k: nat)
    requires IsBase(b) && k > 0 && n < Pow2(k)
    ensures |Numeral(n, b)| <= k
    decreases k
  {
    if n >= b {
      DivMod(n, b);
      assert k > 1;
      var q := n / b;
      assert 2 * q <= b * q by {
        assert b * q == 2 * q + (b - 2) * q;
      }
      DigitCount(q, b, k - 1);
    }
  }

  function Pow2(k: nat): nat {
    if k == 0 then 1 else 2 * Pow2(k - 1)
  }

  lemma Pow2Plus8(k: nat)
    ensures Pow2(k + 8) == 256 * Pow2(k)
  {
    assert Pow2(k + 4) == 16 * Pow2(k) by {
      assert Pow2(k + 2) == 4 * Pow2(k);
    }
    assert Pow2(k + 6) == 4 * Pow2(k + 4);
  }

  lemma Pow2Values()
    ensures Pow2(63) == LONG_MAX + 1
  {
    assert Pow2(7) == 128;
    Pow2Plus8(7);
    Pow2Plus8(15);
    Pow2Plus8(23);
    Pow2Plus8(31);
    Pow2Plus8(39);
    Pow2Plus8(47);
    Pow2Plus8(55);
  }

  /** Every long but LONG_MIN, with its NUL, fits 65 characters in every base. */
  lemma LongFits(v: int, b: int)
    requires IsBase(b) && LONG_MIN < v <= LONG_MAX
    ensures |SignedNumeral(v, b)| + 1 <= 65
  {
    Pow2Values();
    DigitCount(if v < 0 then -v else v, b, 63);
  }

  /** strlen: the index of the first NUL. */
  method StrLen(s: array<char>, ghost len: nat) returns (n: nat)
    requires len < s.Length && s[len] == '\0' && forall i :: 0 <= i < len ==> s[i] != '\0'
    ensures n == len
  {
    n := 0;
    while s[n] != '\0'
      invariant n <= len
      decreases len - n
    {
      n := n + 1;
    }
  }

  /** sio_reverse: the string before the NUL, turned around in place. */
  method SioReverse(s: array<char>, ghost len: nat)
    requires len < s.Length && s[len] == '\0' && forall i :: 0 <= i < len ==> s[i] != '\0'
    modifies s
    ensures s[..len] == Reversed(old(s[..len]))
    ensures s[len..] == old(s[len..])
  {
    var n := StrLen(s, len);
    var i, j: int := 0, n as int - 1;
    while i < j
      invariant 0 <= i <= len && j == len - 1 - i && i <= j + 1
      invariant forall k :: 0 <= k < i ==> s[k] == old(s[len - 1 - k]) && s[len - 1 - k] == old(s[k])
      invariant forall k :: i <= k <= j ==> s[k] == old(s[k])
      invariant forall k :: len <= k < s.Length ==> s[k] == old(s[k])
    {
      var c := s[i];
      s[i] := s[j];
      s[j] := c;
      i, j := i + 1, j - 1;
    }
  }

  lemma NextDigit(v: nat, b: int)
    requires IsBase(b)
    ensures v >= b ==> v / b > 0 && Numeral(v, b) == Numeral(v / b, b) + [DigitChar(v % b)]
    ensures v < b ==> v / b == 0 && v % b == v && Numeral(v, b) == [DigitChar(v)]
  {
    DivMod(v, b);
    if v >= b {
      DivSmaller(v, b);
    } else {
      DivideBack(0, v, b);
    }
  }

  lemma ReversedConcat(a: string, b: string)
    ensures Reversed(a + b) == Reversed(b) + Reversed(a)
  {
  }

  lemma DigitNotNul(d: nat)
    requires d < 36
    ensures DigitChar(d) != '\0'
  {
  }

  /** All digits of v are those still to come and, before them in reverse, those written. */
  ghost predicate DigitsLeft(digits: string, v: nat, b: int, more: bool, written: string)
    requires IsBase(b)
  {
    digits == (if more then Numeral(v, b) else "") + Reversed(written)
  }

  lemma WriteDigit(digits: string, v: nat, b: int, written: string)
    requires IsBase(b) && DigitsLeft(digits, v, b, true, written)
    ensures v % b < 36 && v / b >= 0
    ensures DigitsLeft(digits, v / b, b, v / b > 0, written + [DigitChar(v % b)])
  {
    NextDigit(v, b);
    DivMod(v, b);
    var d := [DigitChar(v % b)];
    ReversedConcat(written, d);
    assert Reversed(d) == d;
  }

  /** The digit loop of sio_ltoa: least significant digit first. */
  method PutDigits(v0: int, s: array<char>, b: int) returns (i: nat)
    requires 0 <= v0 <= LONG_MAX && IsBase(b) && |Numeral(v0, b)| <= s.Length
    modifies s
    ensures i == |Numeral(v0, b)| && Reversed(s[..i]) == Numeral(v0, b)
    ensures forall k :: 0 <= k < i ==> s[k] != '\0'
  {
    ghost var digits := Numeral(v0, b);
    var v, more := v0, true;
    i := 0;
    assert DigitsLeft(digits, v, b, true, s[..0]);
    while more
      invariant v >= 0 && i <= |digits| && (more ==> i < |digits|)
      invariant DigitsLeft(digits, v, b, more, s[..i])
      invariant forall k :: 0 <= k < i ==> s[k] != '\0'
      decreases |digits| - i
    {
      WriteDigit(digits, v, b, s[..i]);
      ghost var written := s[..i];
      var c := v % b;
      DigitNotNul(c);
      s[i] := DigitChar(c);
      assert s[..i + 1] == written + [DigitChar(c)];
      i := i + 1;
      v := v / b;
      more := v > 0;
    }
    assert "" + Reversed(s[..i]) == Reversed(s[..i]);
  }

  lemma SignLast(done: string)
    ensures Reversed(done + ['-']) == "-" + Reversed(done)
  {
    ReversedConcat(done, ['-']);
    assert Reversed(['-']) == ['-'];
  }

  /** sio_ltoa, for every long but LONG_MIN, whose negation overflows. */
  method SioLtoa(v0: int, s: array<char>, b: int) returns (ghost len: nat)
    requires LONG_MIN < v0 <= LONG_MAX && IsBase(b) && |SignedNumeral(v0, b)| < s.Length
    modifies s
    ensures len < s.Length && s[..len] == SignedNumeral(v0, b) && s[len] == '\0'
  {
    hide Numeral, Reversed;
    var v, neg := v0, v0 < 0;
    if neg {
      v := -v;
    }
    var i := PutDigits(v, s, b);
    if neg {
      ghost var done := s[..i];
      s[i] := '-';
      SignLast(done);
      assert s[..i + 1] == done + ['-'];
      i := i + 1;
    }
    ghost var text := s[..i];
    s[i] := '\0';
    len := i;
    assert s[..len] == text;
    SioReverse(s, len);
    assert s[len..][0] == '\0';
  }
}
