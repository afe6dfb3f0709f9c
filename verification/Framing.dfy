/** Length-prefixed frames on a byte stream (io.cpp): which strings they can carry. */
module Framing {
  import opened Wrappers
  import opened Numerals

  /** The longest string whose frame the receiver can read: its length plus one has four digits. */
  const MAX_PAYLOAD: nat := 9998

  function Zeros(n: nat): string {
    seq(n, _ => '0')
  }

  /** std::setw(4) with fill '0': pads a short numeral, never cuts a long one. */
  function Pad4(s: string): string {
    if |s| >= 4 then s else Zeros(4 - |s|) + s
  }

  function Header(s: string): string {
    Pad4(ToString(|s| + 1))
  }

  function Frame(s: string): string {
    Header(s) + (s + "\n")
  }

  /** The string in the first frame of a stream and the stream after it. */
  function ReceiveFrame(stream: string): Result<(string, string), Exception> {
    if |stream| < 4 || !AllDigits(stream[..4], 10) then Failure(IOException)
    else
      var length := Value(stream[..4], 10);
      if length < 1 || |stream| < 4 + length || stream[3 + length] != '\n' then Failure(IOException)
      else Success((stream[4..3 + length], stream[4 + length..]))
  }

  lemma FrameShrinks(stream: string)
    ensures ReceiveFrame(stream).Failure? ==> ReceiveFrame(stream) == Failure(IOException)
    ensures ReceiveFrame(stream).Success? ==> |ReceiveFrame(stream).value.1| < |stream|
  {
  }

  lemma DigitsConcat(a: string, b: string)
    requires AllDigits(a, 10) && AllDigits(b, 10)
    ensures AllDigits(a + b, 10)
  {
  }

  lemma HeaderReads(s: string)
    requires |s| <= MAX_PAYLOAD
    ensures |Header(s)| == 4 && AllDigits(Header(s), 10) && Value(Header(s), 10) == |s| + 1
  {
    var t := ToString(|s| + 1);
    assert Pow10(4) == 10000;
    NumeralLength(|s| + 1, 4);
    NumeralReadsBack(|s| + 1, 10);
    if |t| < 4 {
      PadValue(4 - |t|, t);
      DigitsConcat(Zeros(4 - |t|), t);
    }
  }

  lemma {:induction false} ValueBound(s: string)
    requires AllDigits(s, 10)
    ensures Value(s, 10) < Pow10(|s|)
  {
    if s != "" {
      ValueBound(s[..|s| - 1]);
    }
  }

  /** Digit strings of one length are told apart by their values. */
  lemma {:induction false} SameValueSameDigits(a: string, b: string)
    requires AllDigits(a, 10) && AllDigits(b, 10) && |a| == |b| && Value(a, 10) == Value(b, 10)
    ensures a == b
    decreases |a|
  {
    if a != "" {
      var a', x := a[..|a| - 1], DigitValue(a[|a| - 1]);
      var b', y := b[..|b| - 1], DigitValue(b[|b| - 1]);
      DivideBack(Value(a', 10), x, 10);
      DivideBack(Value(b', 10), y, 10);
      SameValueSameDigits(a', b');
      DigitOfValue(a[|a| - 1]);
      DigitOfValue(b[|b| - 1]);
      assert a == a' + [a[|a| - 1]] && b == b' + [b[|b| - 1]];
    }
  }

  lemma ReceiveShort(s: string, rest: string)
    requires |s| <= MAX_PAYLOAD
    ensures ReceiveFrame(Frame(s) + rest) == Success((s, rest))
  {
    HeaderReads(s);
    var stream := Frame(s) + rest;
    assert stream[..4] == Header(s);
    assert stream[4..4 + |s|] == s;
    assert stream[4 + |s|] == '\n';
    assert stream[5 + |s|..] == rest;
  }

  /** From a frame that is too long the receiver reads four digits of five or more. */
  lemma ReceiveLong(s: string, rest: string)
    requires |s| > MAX_PAYLOAD
    ensures ReceiveFrame(Frame(s) + rest).Success? ==> |ReceiveFrame(Frame(s) + rest).value.0| < |s|
  {
    assert Pow10(4) == 10000;
    NumeralLength(|s| + 1, 4);
    var prefix := (Frame(s) + rest)[..4];
    if AllDigits(prefix, 10) {
      ValueBound(prefix);
    }
  }

  /** A sent frame is received as the string that was sent, whatever follows it on the stream,
      if and only if the string has at most 9998 characters. */
  lemma FrameExact(s: string, rest: string)
    ensures var r := ReceiveFrame(Frame(s) + rest);
            && ((r.Success? && r.value.0 == s) <==> |s| <= MAX_PAYLOAD)
            && (|s| <= MAX_PAYLOAD ==> r == Success((s, rest)))
  {
    if |s| <= MAX_PAYLOAD {
      ReceiveShort(s, rest);
    } else {
      ReceiveLong(s, rest);
    }
  }

  /** Every stream the receiver accepts starts with exactly the frame of what it returns. */
  lemma FrameCanonical(stream: string)
    requires ReceiveFrame(stream).Success?
    ensures var (s, rest) := ReceiveFrame(stream).value;
            stream == Frame(s) + rest && |s| <= MAX_PAYLOAD
  {
    var (s, rest) := ReceiveFrame(stream).value;
    var length := Value(stream[..4], 10);
    assert Pow10(4) == 10000;
    ValueBound(stream[..4]);
    HeaderReads(s);
    SameValueSameDigits(Header(s), stream[..4]);
    assert stream == stream[..4] + (stream[4..3 + length] + [stream[3 + length]]) + stream[4 + length..];
  }

  /** A frame that can be received starts a stream exactly if the receiver reads its string
      from that stream. */
  lemma FrameStarts(a: string, stream: string)
    requires |a| <= MAX_PAYLOAD
    ensures Frame(a) <= stream <==> ReceiveFrame(stream).Success? && ReceiveFrame(stream).value.0 == a
  {
    if Frame(a) <= stream {
      var rest := stream[|Frame(a)|..];
      ReceiveShort(a, rest);
      assert stream == Frame(a) + rest;
    } else if ReceiveFrame(stream).Success? {
      FrameCanonical(stream);
    }
  }

  /** The header of a string of any length: its digits, of which there are more than four only
      without a leading zero, count the string and its newline. */
  lemma HeaderDigits(s: string)
    ensures |Header(s)| >= 4 && AllDigits(Header(s), 10) && Value(Header(s), 10) == |s| + 1
    ensures |Header(s)| > 4 ==> Header(s) == Numeral(|s| + 1, 10) && Header(s)[0] != '0'
  {
    if |s| <= MAX_PAYLOAD {
      HeaderReads(s);
    } else {
      assert Pow10(4) == 10000;
      NumeralLength(|s| + 1, 4);
      NumeralReadsBack(|s| + 1, 10);
    }
  }

  /** The first k digits of the header, read as a length, end the frame of another string here. */
  predicate CutsAt(b: string, k: nat) {
    && 4 <= k < |Header(b)|
    && var v := Value(Header(b)[..k], 10);
       1 <= v && k + v <= |Frame(b)| && Frame(b)[k + v - 1] == '\n'
  }

  lemma FrameParts(s: string)
    ensures var f, k := Frame(s), |Header(s)|;
            |f| == k + |s| + 1 && f[..k] == Header(s) && f[k..k + |s|] == s && f[k + |s|] == '\n'
  {
    hide Header;
  }

  lemma LongerHeader(a: string, b: string)
    requires |Header(a)| > |Header(b)|
    ensures |a| > |b|
  {
    HeaderDigits(a);
    HeaderDigits(b);
    NumeralLength(|a| + 1, |Header(a)| - 1);
    NumeralLength(|b| + 1, |Header(a)| - 1);
  }

  lemma SamePrefix(x: string, y: string, k: nat)
    requires x <= y && k <= |x|
    ensures x[..k] == y[..k]
  {
  }

  lemma SameTexts(a: string, b: string)
    requires Frame(a) <= Frame(b) && Header(a) == Header(b)
    ensures a == b
  {
    hide Header;
    HeaderDigits(a);
    HeaderDigits(b);
    FrameParts(a);
    FrameParts(b);
    hide Frame;
    assert Frame(a) == Frame(b);
  }

  /** Where a frame starts another, its header is the beginning of the other's. */
  lemma PrefixHeader(a: string, b: string)
    requires Frame(a) <= Frame(b) && a != b
    ensures |Header(a)| < |Header(b)| && Header(b)[..|Header(a)|] == Header(a)
  {
    hide Frame, Header;
    var k := |Header(a)|;
    FrameParts(a);
    FrameParts(b);
    SamePrefix(Frame(a), Frame(b), k);
    if k > |Header(b)| {
      LongerHeader(a, b);
    } else {
      SamePrefix(Header(b), Frame(b), k);
      if k == |Header(b)| {
        SameTexts(a, b);
      }
    }
  }

  lemma CutOfPrefix(a: string, b: string)
    requires Frame(a) <= Frame(b) && a != b
    ensures CutsAt(b, |Header(a)|)
  {
    PrefixHeader(a, b);
    HeaderDigits(a);
    var n := |Frame(a)|;
    assert Frame(a)[n - 1] == '\n' == Frame(b)[n - 1];
  }

  /** What is framed by the first k digits of the header. */
  function CutText(b: string, k: nat): string
    requires CutsAt(b, k)
  {
    Frame(b)[k..k + Value(Header(b)[..k], 10) - 1]
  }

  lemma CutHeader(b: string, k: nat)
    requires CutsAt(b, k)
    ensures Header(CutText(b, k)) == Header(b)[..k]
  {
    var a, digits := CutText(b, k), Header(b)[..k];
    HeaderDigits(b);
    assert digits[0] == Header(b)[0];
    ReadPrintsBack(digits, 10);
    hide Numeral, Value, AllDigits;
    assert |a| + 1 == Value(digits, 10);
  }

  lemma PrefixOfCut(b: string, k: nat)
    requires CutsAt(b, k)
    ensures Frame(CutText(b, k)) <= Frame(b) && CutText(b, k) != b
  {
    var a, v := CutText(b, k), Value(Header(b)[..k], 10);
    CutHeader(b, k);
    FrameParts(a);
    FrameParts(b);
    hide Header, Value;
    SamePrefix(Header(b), Frame(b), k);
    assert Frame(b)[k..k + v] == a + [Frame(b)[k + v - 1]];
    assert Frame(b)[..k + v] == Frame(b)[..k] + Frame(b)[k..k + v];
  }

  /** Exactly when frames fail to be prefix-free: for every string, another frame is a proper
      prefix of its frame if and only if some four or more first digits of its header, short of
      all of them, read as a length that ends at a newline.  The sender can tell beforehand. */
  lemma PrefixExact(b: string)
    ensures (exists a :: a != b && Frame(a) <= Frame(b)) <==> exists k: nat :: CutsAt(b, k)
  {
    hide Frame, CutsAt, CutText;
    if a :| a != b && Frame(a) <= Frame(b) {
      CutOfPrefix(a, b);
    }
    if k: nat :| CutsAt(b, k) {
      PrefixOfCut(b, k);
    }
  }

  /** No frame, of whatever length, is a proper prefix of one that can be received. */
  lemma PrefixFree(a: string, b: string)
    requires |b| <= MAX_PAYLOAD
    ensures Frame(a) <= Frame(b) <==> a == b
  {
    HeaderReads(b);
    if Frame(a) <= Frame(b) && a != b {
      PrefixHeader(a, b);
      HeaderDigits(a);
    }
  }

  /** Of the strings of 9999 characters, those with a newline at index 998 have a frame that
      another starts, for their length is read as 1000, and no others. */
  lemma LongFrameHasPrefix(b: string)
    requires |b| == 9999
    ensures (exists a :: a != b && Frame(a) <= Frame(b)) <==> b[998] == '\n'
  {
    FourDigits();
    var h := Header(b);
    assert h == "10000" && h[..4] == "1000" && Value(h[..4], 10) == 1000;
    assert Frame(b)[1003] == b[998];
    assert CutsAt(b, 4) <==> b[998] == '\n';
    PrefixExact(b);
  }

  lemma FourDigits()
    ensures ToString(1000) == "1000" && ToString(10000) == "10000" && Value("1000", 10) == 1000
  {
    assert Numeral(1, 10) == "1";
    assert Numeral(10, 10) == Numeral(1, 10) + "0";
    assert Numeral(100, 10) == Numeral(10, 10) + "0";
    assert Numeral(1000, 10) == Numeral(100, 10) + "0";
    assert Numeral(10000, 10) == Numeral(1000, 10) + "0";
    NumeralReadsBack(1000, 10);
  }

  // ---------------------------------------------------------------------------------
  // Whole streams
  // ---------------------------------------------------------------------------------

  function FrameAll(ss: seq<string>): string {
    if ss == [] then "" else Frame(ss[0]) + FrameAll(ss[1..])
  }

  /** The first n frames of a stream and what follows them. */
  function ReceiveMany(stream: string, n: nat): Result<(seq<string>, string), Exception> {
    if n == 0 then Success(([], stream))
    else
      var first :- ReceiveFrame(stream);
      var more :- ReceiveMany(first.1, n - 1);
      Success(([first.0] + more.0, more.1))
  }

  /** Frames sent one after another are received one after another. */
  lemma {:induction false} StreamRoundTrip(ss: seq<string>, rest: string)
    requires forall i :: 0 <= i < |ss| ==> |ss[i]| <= MAX_PAYLOAD
    ensures ReceiveMany(FrameAll(ss) + rest, |ss|) == Success((ss, rest))
    decreases |ss|
  {
    if ss == [] {
      assert FrameAll(ss) + rest == rest;
    } else {
      var tail := FrameAll(ss[1..]) + rest;
      assert FrameAll(ss) + rest == Frame(ss[0]) + tail;
      ReceiveShort(ss[0], tail);
      StreamRoundTrip(ss[1..], rest);
      assert [ss[0]] + ss[1..] == ss;
    }
  }
}
