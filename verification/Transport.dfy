/** Messages as bytes on a stream: encoded, framed and sent one after another, received and
    decoded one after another (wire.cpp, io.cpp, client.cpp). */
module Transport {
  import opened Wrappers
  import opened Messages
  import opened Numerals
  import opened Splitting
  import opened Wire
  import opened WireNormal
  import opened Framing

  /** The messages that arrive as they were sent. */
  predicate Sendable(m: Message) {
    WellFormed(m) && Encode(m).Success? && |Encode(m).value| <= MAX_PAYLOAD
  }

  predicate AllSendable(ms: seq<Message>) {
    forall i :: 0 <= i < |ms| ==> Sendable(ms[i])
  }

  /** The bytes written when messages are sent in turn, up to one that cannot be encoded. */
  function StreamOf(ms: seq<Message>): string {
    if ms == [] || Encode(ms[0]).Failure? then ""
    else Frame(Encode(ms[0]).value) + StreamOf(ms[1..])
  }

  /** The first message on a stream, decoded, and the rest of the stream. */
  function ReceiveMessage(stream: string): Result<(Message, string), Exception> {
    var (text, rest) :- ReceiveFrame(stream);
    var m :- Decode(text);
    Success((m, rest))
  }

  /** The first n messages on a stream, decoded, and the rest of it. */
  function ReceiveMessages(stream: string, n: nat): Result<(seq<Message>, string), Exception> {
    if n == 0 then Success(([], stream))
    else
      var first :- ReceiveMessage(stream);
      var more :- ReceiveMessages(first.1, n - 1);
      Success(([first.0] + more.0, more.1))
  }

  lemma ReceiveShrinks(stream: string)
    ensures ReceiveMessage(stream).Success? ==> |ReceiveMessage(stream).value.1| < |stream|
  {
    hide Decode;
  }

  lemma NothingReceived(stream: string)
    ensures ReceiveMessages(stream, 0) == Success(([], stream))
  {
  }

  /** One more message is received from what the earlier ones left. */
  lemma {:induction false} ReceiveMore(stream: string, n: nat)
    requires ReceiveMessages(stream, n).Success?
    ensures var (ms, rest) := ReceiveMessages(stream, n).value;
            && |ms| == n
            && (ReceiveMessage(rest).Success? ==>
                  var (m, tail) := ReceiveMessage(rest).value;
                  ReceiveMessages(stream, n + 1) == Success((ms + [m], tail)))
    decreases n
  {
    hide ReceiveMessage;
    if n > 0 {
      var first := ReceiveMessage(stream).value;
      ReceiveMore(first.1, n - 1);
      var (ms, rest) := ReceiveMessages(first.1, n - 1).value;
      if ReceiveMessage(rest).Success? {
        assert [first.0] + (ms + [ReceiveMessage(rest).value.0]) == [first.0] + ms + [ReceiveMessage(rest).value.0];
      }
    } else if ReceiveMessage(stream).Success? {
      var (m, rest) := ReceiveMessage(stream).value;
      assert ReceiveMessages(rest, 0) == Success(([], rest));
      assert [m] + [] == [m] && [] + [m] == [m];
    }
  }

  lemma StreamEmpty()
    ensures StreamOf([]) == ""
  {
  }

  lemma ReceivedIsWellFormed(stream: string)
    requires ReceiveMessage(stream).Success?
    ensures WellFormed(ReceiveMessage(stream).value.0)
  {
    hide Decode, WellFormed, Encode, NoLeadingZeros;
    DecodeNormalForm(ReceiveFrame(stream).value.0);
  }

  lemma LongHeader(s: string)
    requires |s| > MAX_PAYLOAD
    ensures var n := ToString(|s| + 1); |n| > 4 && Header(s) == n && DigitValue(n[4]) < 10
  {
    assert Pow10(4) == 10000;
    NumeralLength(|s| + 1, 4);
    NumeralReadsBack(|s| + 1, 10);
  }

  /** Of a frame that is too long the receiver takes the end of the length for its content. */
  lemma LongFrameContent(s: string, rest: string)
    requires |s| > MAX_PAYLOAD && ReceiveFrame(Frame(s) + rest).Success?
    ensures var t := ReceiveFrame(Frame(s) + rest).value.0;
            t == "" || DigitValue(t[0]) < 10
  {
    var n := ToString(|s| + 1);
    LongHeader(s);
    hide ToString, AllDigits, Value, Header;
    var stream := Frame(s) + rest;
    assert stream[4] == n[4];
    var t := ReceiveFrame(stream).value.0;
    assert t != "" ==> t[0] == stream[4];
  }

  lemma DigitStartsNoType(s: string)
    requires s == "" || DigitValue(s[0]) < 10
    ensures Decode(s).Failure?
  {
    var f := Split(s, '|');
    SplitJoins(s, '|');
    UnknownTypeFails(f);
    hide Split, DecodeParts, MessageTypeToStr, StrToMessageType, AllFree;
    if f[0] != "" {
      JoinStarts(f, '|');
    }
    DigitStartsNoName(f[0]);
  }

  lemma DigitStartsNoName(name: string)
    requires name == "" || DigitValue(name[0]) < 10
    ensures StrToMessageType(name) == MessageType.INVALID
  {
    NamesPrint(name);
    TypeNameChars(StrToMessageType(name));
    NoEmptyName(StrToMessageType(name));
    hide MessageTypeToStr, StrToMessageType;
  }

  lemma JoinStarts(parts: seq<string>, sep: char)
    requires parts != [] && parts[0] != ""
    ensures Join(parts, sep) != "" && Join(parts, sep)[0] == parts[0][0]
  {
  }

  lemma NoEmptyName(t: MessageType)
    ensures MessageTypeToStr(t) != ""
  {
  }

  lemma LongNeverArrives(s: string, rest: string)
    requires |s| > MAX_PAYLOAD
    ensures ReceiveMessage(Frame(s) + rest).Failure?
  {
    hide Decode, Frame;
    if ReceiveFrame(Frame(s) + rest).Success? {
      LongFrameContent(s, rest);
      DigitStartsNoType(ReceiveFrame(Frame(s) + rest).value.0);
    }
  }

  lemma SendableArrives(m: Message, rest: string)
    requires Sendable(m)
    ensures ReceiveMessage(Frame(Encode(m).value) + rest) == Success((m, rest))
  {
    hide Decode, Encode, WellFormed, Frame, ReceiveFrame;
    ReceiveShort(Encode(m).value, rest);
    RoundTrip(m);
  }

  /** End-to-end transport is exact: messages sent one after another, in front of whatever
      follows, are received as the same messages with exactly that left over, if and only if
      each is well formed and encodes to at most 9998 characters. */
  lemma {:induction false} TransportExact(ms: seq<Message>, rest: string)
    ensures AllSendable(ms) <==> ReceiveMessages(StreamOf(ms) + rest, |ms|) == Success((ms, rest))
  {
    hide Decode, Encode, WellFormed, Frame, ReceiveFrame, ReceiveMessage;
    if ms == [] {
      assert StreamOf(ms) + rest == rest;
    } else if Sendable(ms[0]) {
      var tail := StreamOf(ms[1..]) + rest;
      assert StreamOf(ms) + rest == Frame(Encode(ms[0]).value) + tail;
      SendableArrives(ms[0], tail);
      TransportExact(ms[1..], rest);
      assert ms == [ms[0]] + ms[1..];
      AllSendableCons(ms);
      ReceiveStep(ms, Frame(Encode(ms[0]).value) + tail, tail, rest);
    } else {
      UnsendableLost(ms, rest);
    }
  }

  lemma AllSendableCons(ms: seq<Message>)
    requires ms != []
    ensures AllSendable(ms) <==> Sendable(ms[0]) && AllSendable(ms[1..])
  {
    hide Sendable;
    if AllSendable(ms[1..]) && Sendable(ms[0]) {
      forall i | 0 <= i < |ms|
        ensures Sendable(ms[i])
      {
        assert i > 0 ==> ms[i] == ms[1..][i - 1];
      }
    }
  }

  lemma ReceiveStep(ms: seq<Message>, stream: string, tail: string, rest: string)
    requires ms != [] && ReceiveMessage(stream) == Success((ms[0], tail))
    ensures ReceiveMessages(stream, |ms|) == Success((ms, rest))
       <==> ReceiveMessages(tail, |ms| - 1) == Success((ms[1..], rest))
  {
    hide ReceiveMessage;
    assert ms == [ms[0]] + ms[1..];
    var more := ReceiveMessages(tail, |ms| - 1);
    if more.Success? {
      assert ([ms[0]] + more.value.0)[1..] == more.value.0;
    }
  }

  lemma UnsendableLost(ms: seq<Message>, rest: string)
    requires ms != [] && !Sendable(ms[0])
    ensures ReceiveMessages(StreamOf(ms) + rest, |ms|) != Success((ms, rest))
  {
    hide Decode, Encode, WellFormed, Frame, ReceiveFrame, ReceiveMessage;
    var stream := StreamOf(ms) + rest;
    var first := ReceiveMessage(stream);
    if first.Success? {
      ReceivedIsWellFormed(stream);
      if WellFormed(ms[0]) {
        RoundTrip(ms[0]);
        assert stream == Frame(Encode(ms[0]).value) + (StreamOf(ms[1..]) + rest);
        LongNeverArrives(Encode(ms[0]).value, StreamOf(ms[1..]) + rest);
      }
    }
  }

  /** Nothing stops in the middle of sending these. */
  predicate Encodable(ms: seq<Message>) {
    forall i :: 0 <= i < |ms| ==> Encode(ms[i]).Success?
  }

  lemma StreamHead(ms: seq<Message>)
    requires ms != [] && Encode(ms[0]).Success?
    ensures StreamOf(ms) == Frame(Encode(ms[0]).value) + StreamOf(ms[1..])
  {
  }

  lemma {:induction false} StreamConcat(a: seq<Message>, b: seq<Message>)
    requires Encodable(a)
    ensures StreamOf(a + b) == StreamOf(a) + StreamOf(b)
    decreases |a|
  {
    hide Encode, Frame;
    if a == [] {
      assert a + b == b && StreamOf(a) + StreamOf(b) == StreamOf(b);
    } else {
      assert (a + b)[1..] == a[1..] + b;
      StreamConcat(a[1..], b);
      StreamHead(a);
      StreamHead(a + b);
    }
  }
}
