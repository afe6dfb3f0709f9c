/** Sending and receiving frames over a descriptor that moves bytes in arbitrary chunks
    (io.cpp, and rio_writen of csapp.cpp). */
module FramingCode {
  import opened Wrappers
  import opened Numerals
  import opened Framing
  import opened Descriptors
  import WireCode

  /** rio_writen: all n bytes, across partial writes and interruptions, or -1. */
  method RioWriteN(fd: Descriptor, data: string) returns (n: int)
    modifies fd`outgoing, fd`interrupts
    ensures n == |data| || n == -1
    ensures n == |data| ==> fd.outgoing == old(fd.outgoing) + data
    ensures n == -1 ==> !fd.reliable && old(fd.outgoing) <= fd.outgoing <= old(fd.outgoing) + data
    ensures fd.interrupts <= old(fd.interrupts)
  {
    var nleft, bufp := |data|, 0;
    while nleft > 0
      invariant 0 <= nleft <= |data| && bufp == |data| - nleft
      invariant fd.outgoing == old(fd.outgoing) + data[..bufp]
      invariant fd.interrupts <= old(fd.interrupts)
      decreases nleft, fd.interrupts
    {
      var nwritten, eintr := fd.Write(data[bufp..]);
      if nwritten <= 0 {
        if eintr {
          nwritten := 0;
        } else {
          return -1;
        }
      }
      assert data[..bufp] + data[bufp..][..nwritten] == data[..bufp + nwritten];
      nleft := nleft - nwritten;
      bufp := bufp + nwritten;
    }
    assert data[..|data|] == data;
    n := |data|;
  }

  /** IO::send. */
  method Send(s: string, fd: Descriptor) returns (r: Result<(), Exception>)
    modifies fd`outgoing, fd`interrupts
    ensures r.Success? ==> fd.outgoing == old(fd.outgoing) + Frame(s)
    ensures r.Failure? ==> r.error == IOException && !fd.reliable
    ensures r.Failure? ==> old(fd.outgoing) <= fd.outgoing <= old(fd.outgoing) + Frame(s)
    ensures fd.interrupts <= old(fd.interrupts)
  {
    var length := |s| + 1;
    var frame := Pad4(ToString(length)) + (s + "\n");
    var written := RioWriteN(fd, frame);
    if written != |frame| {
      return Failure(IOException);
    }
    r := Success(());
  }

  /** put_to_buffer: fills the first n bytes of buf, or fails if the stream ends early or any
      read returns an error, an interruption included. */
  method PutToBuffer(fd: Descriptor, buf: array<char>, n: nat) returns (r: Result<(), Exception>)
    requires n <= buf.Length
    modifies fd`incoming, fd`interrupts, buf
    ensures r.Success? ==>
              && n <= |old(fd.incoming)|
              && buf[..n] == old(fd.incoming)[..n]
              && fd.incoming == old(fd.incoming)[n..]
              && fd.interrupts == old(fd.interrupts)
    ensures r.Failure? ==> r.error == IOException && (|old(fd.incoming)| < n || old(!fd.Quiet()))
  {
    var i := 0;
    while i < n
      invariant 0 <= i <= n && i <= |old(fd.incoming)|
      invariant fd.incoming == old(fd.incoming)[i..]
      invariant buf[..i] == old(fd.incoming)[..i]
      invariant fd.interrupts == old(fd.interrupts)
    {
      ghost var before := buf[..];
      var got, _ := fd.Read(buf, i, n - i);
      if got == 0 {
        return Failure(IOException);
      }
      if got < 0 {
        return Failure(IOException);
      }
      assert buf[..i + got] == before[..i] + old(fd.incoming)[i..][..got];
      assert old(fd.incoming)[..i] + old(fd.incoming)[i..][..got] == old(fd.incoming)[..i + got];
      i := i + got;
    }
    r := Success(());
  }

  /** ensure_valid_string: the first four characters are decimal digits. */
  method EnsureValidString(message: array<char>) returns (ok: bool)
    requires message.Length >= 4
    ensures ok <==> AllDigits(message[..4], 10)
  {
    for i := 0 to 4
      invariant forall j :: 0 <= j < i ==> DigitValue(message[j]) < 10
    {
      WireCode.DecimalDigit(message[i]);
      if message[i] < '0' || message[i] > '9' {
        assert message[..4][i] == message[i];
        return false;
      }
    }
    ok := true;
  }

  /** IO::receive: on a quiet descriptor exactly the first frame of the stream; on any
      descriptor nothing but that or an IOException. */
  method Receive(fd: Descriptor) returns (r: Result<string, Exception>)
    modifies fd`incoming, fd`interrupts
    ensures r.Success? ==> ReceiveFrame(old(fd.incoming)) == Success((r.value, fd.incoming))
    ensures r.Failure? ==> r.error == IOException
    ensures old(fd.Quiet()) && r.Failure? ==> ReceiveFrame(old(fd.incoming)).Failure?
    ensures r.Success? ==> fd.interrupts == old(fd.interrupts)
  {
    var message := new char[5](_ => '\0');
    var got := PutToBuffer(fd, message, 4);
    if got.Failure? {
      return Failure(IOException);
    }
    var ok := EnsureValidString(message);
    if !ok {
      return Failure(IOException);
    }
    var myLength := Value(message[..4], 10);
    if myLength < 1 {
      return Failure(IOException);
    }
    var message1 := new char[myLength](_ => '\0');
    got := PutToBuffer(fd, message1, myLength);
    ghost var stream := old(fd.incoming);
    assert stream[4..][..|stream[4..]|] == stream[4..];
    if got.Failure? {
      return Failure(IOException);
    }
    assert message1[..myLength] == stream[4..4 + myLength];
    assert message1[myLength - 1] == message1[..myLength][myLength - 1] == stream[3 + myLength];
    if message1[myLength - 1] != '\n' {
      return Failure(IOException);
    }
    assert message1[..myLength - 1] == message1[..myLength][..myLength - 1] == stream[4..3 + myLength];
    assert stream[4..][myLength..] == stream[4 + myLength..];
    r := Success(message1[..myLength - 1]);
  }
}
