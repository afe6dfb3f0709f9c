/** One message sent or received over a descriptor: encode and send, receive and decode
    (client.cpp, display_main.cpp). */
module MessageCode {
  import opened Wrappers
  import opened Messages
  import opened Framing
  import opened Descriptors
  import opened Transport
  import Wire
  import WireCode
  import FramingCode

  /** send_msg: all of the encoded message's frame, or the exception that stops it: that of
      encode, before anything is written, or an IOException after some prefix. */
  method SendMessage(fd: Descriptor, m: Message) returns (r: Result<(), Exception>)
    modifies fd`outgoing, fd`interrupts
    ensures Wire.Encode(m).Failure? ==> r == Failure(Wire.Encode(m).error) && fd.outgoing == old(fd.outgoing)
    ensures Wire.Encode(m).Success? && r.Failure? ==> r.error == IOException && !fd.reliable
    ensures r.Success? ==> fd.outgoing == old(fd.outgoing) + StreamOf([m])
    ensures old(fd.outgoing) <= fd.outgoing <= old(fd.outgoing) + StreamOf([m])
    ensures fd.interrupts <= old(fd.interrupts)
  {
    hide Wire.Encode, Frame;
    assert [m][1..] == [];
    assert StreamOf([]) == "";
    var text := WireCode.EncodeMessage(m);
    if text.Failure? {
      return Failure(text.error);
    }
    assert StreamOf([m]) == Frame(text.value);
    r := FramingCode.Send(text.value, fd);
  }

  /** IO::receive and Wire::decode: the next message on the stream, or why there is none, or an
      IOException because a read failed or was interrupted. */
  method ReceiveMessage(fd: Descriptor) returns (r: Result<Message, Exception>)
    modifies fd`incoming, fd`interrupts
    ensures r.Success? ==> Transport.ReceiveMessage(old(fd.incoming)) == Success((r.value, fd.incoming))
    ensures r.Failure? ==>
              || Transport.ReceiveMessage(old(fd.incoming)) == Failure(r.error)
              || (!old(fd.Quiet()) && r.error == IOException)
    ensures r.Success? ==> fd.interrupts == old(fd.interrupts)
  {
    hide Wire.Decode, ReceiveFrame;
    FrameShrinks(fd.incoming);
    var text := FramingCode.Receive(fd);
    if text.Failure? {
      return Failure(text.error);
    }
    r := WireCode.DecodeMessage(text.value);
  }
}
