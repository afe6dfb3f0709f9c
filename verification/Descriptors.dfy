/** A connected file descriptor: a reliable stream of bytes in each direction that moves them
    in chunks of any size, and may interrupt a call or fail. */
module Descriptors {

  class Descriptor {
    var incoming: string   // bytes the peer has sent or will send, not read yet
    var outgoing: string   // bytes written so far
    var interrupts: nat    // how many more calls a signal will interrupt (EINTR)
    const reliable: bool   // no call fails for any other reason

    constructor (incoming: string, interrupts: nat, reliable: bool)
      ensures this.incoming == incoming && outgoing == "" && this.interrupts == interrupts && this.reliable == reliable
    {
      this.incoming, outgoing, this.interrupts, this.reliable := incoming, "", interrupts, reliable;
    }

    /** No call on this descriptor will return an error. */
    predicate Quiet()
      reads this
    {
      reliable && interrupts == 0
    }

    /** read(2): the next k bytes, for some k up to n; 0 at the end of the stream; -1 on error. */
    method Read(buf: array<char>, at: nat, n: nat) returns (k: int, eintr: bool)
      requires at + n <= buf.Length
      modifies this`incoming, this`interrupts, buf
      ensures -1 <= k <= n && k <= |old(incoming)|
      ensures k == 0 <==> n == 0 || old(incoming) == ""
      ensures k >= 0 ==>
                && incoming == old(incoming)[k..] && interrupts == old(interrupts)
                && buf[..] == old(buf[..at]) + old(incoming)[..k] + old(buf[at + k..])
      ensures k < 0 ==> incoming == old(incoming) && buf[..] == old(buf[..])
      ensures k < 0 ==> if eintr then old(interrupts) > 0 && interrupts == old(interrupts) - 1
                        else !reliable && interrupts == old(interrupts)
    {
      eintr := false;
      if n == 0 || incoming == "" {
        return 0, false;
      }
      var signal: bool, error: bool := *, *;
      if interrupts > 0 && signal {
        interrupts := interrupts - 1;
        return -1, true;
      }
      if !reliable && error {
        return -1, false;
      }
      k :| 1 <= k <= n && k <= |incoming|;
      forall i | 0 <= i < k {
        buf[at + i] := incoming[i];
      }
      incoming := incoming[k..];
    }

    /** write(2): some non-empty prefix of the data; -1 on error. */
    method Write(data: string) returns (k: int, eintr: bool)
      requires data != ""
      modifies this`outgoing, this`interrupts
      ensures k == -1 || 1 <= k <= |data|
      ensures k >= 0 ==> outgoing == old(outgoing) + data[..k] && interrupts == old(interrupts)
      ensures k < 0 ==> outgoing == old(outgoing)
      ensures k < 0 ==> if eintr then old(interrupts) > 0 && interrupts == old(interrupts) - 1
                        else !reliable && interrupts == old(interrupts)
    {
      eintr := false;
      var signal: bool, error: bool := *, *;
      if interrupts > 0 && signal {
        interrupts := interrupts - 1;
        return -1, true;
      }
      if !reliable && error {
        return -1, false;
      }
      k :| 1 <= k <= |data|;
      outgoing := outgoing + data[..k];
    }
  }
}
