/** Buffered reading (the Rio functions of csapp.cpp): whatever sizes the buffer is refilled in
    and however often a read is interrupted, calls deliver consecutive pieces of the stream. */
module Rio {
  import opened Model
  import opened Descriptors

  const RIO_BUFSIZE: nat := 8192

  function Min(a: nat, b: nat): nat {
    if a <= b then a else b
  }

  /** How long the next line of a text is, if at most limit characters are taken: up to and
      including the first newline, or all there is. */
  function LineLength(text: string, limit: nat): (n: nat)
    ensures n <= limit && n <= |text|
  {
    if limit == 0 || text == "" then 0
    else if text[0] == '\n' then 1
    else 1 + LineLength(text[1..], limit - 1)
  }

  /** A line has no newline before its last character, and ends early only at a newline or at
      the end of the text. */
  lemma {:induction false} LineEnds(text: string, limit: nat)
    ensures var n := LineLength(text, limit);
            && (forall i :: 0 <= i < n - 1 ==> text[i] != '\n')
            && (n < limit ==> n == |text| || (n > 0 && text[n - 1] == '\n'))
    decreases limit
  {
    if limit > 0 && text != "" && text[0] != '\n' {
      LineEnds(text[1..], limit - 1);
      var n := LineLength(text, limit);
      assert forall i :: 1 <= i < n ==> text[i] == text[1..][i - 1];
    }
  }

  class Buffer {
    const fd: Descriptor
    var cnt: int          // unread bytes in the buffer; -1 after a failed refill
    var bufptr: nat       // index of the next unread byte
    const buf: array<char>

    /** rio_readinitb. */
    constructor (fd: Descriptor)
      ensures Valid() && this.fd == fd && fresh(buf) && Pending() == fd.incoming
    {
      this.fd, cnt, bufptr := fd, 0, 0;
      buf := new char[RIO_BUFSIZE](_ => '\0');
    }

    ghost predicate Valid()
      reads this
    {
      buf.Length == RIO_BUFSIZE && -1 <= cnt && (cnt > 0 ==> bufptr + cnt <= RIO_BUFSIZE)
    }

    /** The part of the stream the reader has not been given yet. */
    ghost function Pending(): string
      requires Valid()
      reads this, buf, fd
    {
      (if cnt > 0 then buf[bufptr..bufptr + cnt] else "") + fd.incoming
    }

    /** The refill loop of rio_read: afterwards the buffer has bytes, unless the stream has
        ended (0) or a read has failed (-1). */
    method Refill() returns (status: int)
      requires Valid()
      modifies this`cnt, this`bufptr, buf, fd`incoming, fd`interrupts
      ensures Valid() && Pending() == old(Pending()) && -1 <= status <= 1
      ensures status == 1 <==> cnt > 0
      ensures status == 0 ==> Pending() == ""
      ensures status == -1 ==> !fd.reliable
    {
      ghost var p := Pending();
      while cnt <= 0
        invariant Valid() && Pending() == p
        decreases fd.interrupts, if cnt <= 0 then 1 else 0
      {
        ghost var stream := fd.incoming;
        var got, eintr := fd.Read(buf, 0, buf.Length);
        cnt := got;
        if cnt < 0 {
          if !eintr {
            return -1;
          }
        } else if cnt == 0 {
          return 0;
        } else {
          bufptr := 0;
          assert buf[..][0..cnt] == stream[..cnt];
        }
      }
      status := 1;
    }

    /** rio_read: up to n of the pending bytes, at least one unless there is none. */
    method Read(usrbuf: array<char>, at: nat, n: nat) returns (k: int)
      requires Valid() && 0 < n <= INT_MAX && at + n <= usrbuf.Length && usrbuf != buf
      modifies this`cnt, this`bufptr, buf, fd`incoming, fd`interrupts, usrbuf
      ensures Valid() && -1 <= k <= n && k <= |old(Pending())|
      ensures k == -1 ==> !fd.reliable && Pending() == old(Pending())
      ensures k == 0 <==> k != -1 && old(Pending()) == ""
      ensures k >= 0 ==> Pending() == old(Pending())[k..]
      ensures k >= 0 ==> usrbuf[..] == old(usrbuf[..at]) + old(Pending())[..k] + old(usrbuf[at + k..])
    {
      var status := Refill();
      if status <= 0 {
        return status;
      }
      k := n;
      if cnt < n {
        k := cnt;
      }
      ghost var chunk, before := buf[bufptr..bufptr + cnt], usrbuf[..];
      forall i | 0 <= i < k {
        usrbuf[at + i] := buf[bufptr + i];
      }
      assert usrbuf[..] == before[..at] + chunk[..k] + before[at + k..];
      bufptr := bufptr + k;
      cnt := cnt - k;
      SplitChunk(chunk, k, fd.incoming);
      assert cnt > 0 ==> buf[bufptr..bufptr + cnt] == chunk[k..];
    }

    /** rio_readnb: n bytes, or all that are left. */
    method ReadNB(usrbuf: array<char>, n: nat) returns (r: int)
      requires Valid() && n <= INT_MAX && n <= usrbuf.Length && usrbuf != buf
      modifies this`cnt, this`bufptr, buf, fd`incoming, fd`interrupts, usrbuf
      ensures Valid() && (r == -1 ==> !fd.reliable)
      ensures r != -1 ==>
                && r == Min(n, |old(Pending())|)
                && usrbuf[..r] == old(Pending())[..r]
                && Pending() == old(Pending())[r..]
    {
      ghost var p := Pending();
      var nleft, bufp := n, 0;
      while nleft > 0
        invariant Valid() && 0 <= nleft <= n && bufp == n - nleft && bufp <= |p|
        invariant usrbuf[..bufp] == p[..bufp]
        invariant Pending() == p[bufp..]
      {
        var nread := Read(usrbuf, bufp, nleft);
        if nread < 0 {
          return -1;
        } else if nread == 0 {
          break;
        }
        ReadMore(p, bufp, nread);
        assert usrbuf[..bufp + nread] == p[..bufp] + p[bufp..][..nread];
        nleft := nleft - nread;
        bufp := bufp + nread;
      }
      r := n - nleft;
    }

    /** The call rio_read(rp, &c, 1). */
    method ReadChar() returns (rc: int, c: char)
      requires Valid()
      modifies this`cnt, this`bufptr, buf, fd`incoming, fd`interrupts
      ensures Valid() && -1 <= rc <= 1
      ensures rc == -1 ==> !fd.reliable
      ensures rc == 0 ==> old(Pending()) == "" == Pending()
      ensures rc == 1 ==> old(Pending()) != "" && c == old(Pending())[0] && Pending() == old(Pending())[1..]
    {
      var cell := new char[1](_ => '\0');
      rc := Read(cell, 0, 1);
      c := cell[..][0];
    }

    /** The loop of rio_readlineb: one character per round, up to a newline, maxlen - 1
        characters or the end of the stream; then the count of the next one, or -1. */
    method FillLine(usrbuf: array<char>, maxlen: nat) returns (n: int)
      requires Valid() && 1 <= maxlen <= INT_MAX && maxlen <= usrbuf.Length && usrbuf != buf
      modifies this`cnt, this`bufptr, buf, fd`incoming, fd`interrupts, usrbuf
      ensures Valid() && (n == -1 ==> !fd.reliable)
      ensures n != -1 ==>
                && n == LineLength(old(Pending()), maxlen - 1) + 1
                && usrbuf[..] == Held(old(Pending()), old(usrbuf[..]), n - 1)
                && Pending() == Rest(old(Pending()), n - 1)
    {
      hide LineLength, Pending, Held, Rest;
      ghost var p, before := Pending(), usrbuf[..];
      n := 1;
      StoreNothing(p, before);
      while n < maxlen
        invariant Valid() && 1 <= n <= maxlen && n - 1 <= |p|
        invariant usrbuf[..] == Held(p, before, n - 1)
        invariant Pending() == Rest(p, n - 1)
        invariant LineLength(p, maxlen - 1) == n - 1 + LineLength(Rest(p, n - 1), maxlen - n)
      {
        LineStep(p, n - 1, maxlen - n);
        var rc, c := ReadChar();
        if rc == 1 {
          TakeOne(p, n - 1);
          ghost var held := usrbuf[..];
          usrbuf[n - 1] := c;
          assert usrbuf[..] == held[n - 1 := c];
          StoreNext(p, before, n - 1);
          n := n + 1;
          if c == '\n' {
            break;
          }
        } else if rc == 0 {
          break;
        } else {
          return -1;
        }
      }
      LineStep(p, n - 1, 0);
    }

    /** rio_readlineb: the next line, cut at maxlen - 1 characters, with a NUL after it; at the
        end of the stream nothing, and then the buffer is left as it was, without a NUL. */
    method ReadLineB(usrbuf: array<char>, maxlen: nat) returns (r: int)
      requires Valid() && 1 <= maxlen <= INT_MAX && maxlen <= usrbuf.Length && usrbuf != buf
      modifies this`cnt, this`bufptr, buf, fd`incoming, fd`interrupts, usrbuf
      ensures Valid() && (r == -1 ==> !fd.reliable)
      ensures r != -1 ==>
                && r == LineLength(old(Pending()), maxlen - 1)
                && Pending() == old(Pending())[r..]
                && usrbuf[..] == if maxlen > 1 && old(Pending()) == "" then old(usrbuf[..])
                                 else old(Pending())[..r] + ['\0'] + old(usrbuf[..])[r + 1..]
    {
      hide LineLength, Pending, Held;
      ghost var p, before := Pending(), usrbuf[..];
      LineIsEmpty(p, maxlen - 1);
      StoreNothing(p, before);
      var n := FillLine(usrbuf, maxlen);
      if n == -1 {
        return -1;
      }
      if n == 1 && maxlen > 1 {
        return 0;
      }
      ghost var held := usrbuf[..];
      usrbuf[n - 1] := '\0';
      assert usrbuf[..] == held[n - 1 := '\0'];
      StoreEnd(p, before, n - 1, '\0');
      r := n - 1;
    }

    // -------------------------------------------------------------------------------
    // Any mix of calls
    // -------------------------------------------------------------------------------

    /** One call, by its kind, into a buffer of its own. */
    method Deliver(call: Call) returns (ok: bool, piece: string)
      requires Valid() && call.Legal()
      modifies this`cnt, this`bufptr, buf, fd`incoming, fd`interrupts
      ensures Valid() && (!ok ==> !fd.reliable)
      ensures ok ==> piece == old(Pending())[..call.Takes(old(Pending()))]
      ensures ok ==> Pending() == old(Pending())[call.Takes(old(Pending()))..]
    {
      var usrbuf := new char[call.size](_ => '\0');
      var r;
      match call {
        case Bytes(n) => r := ReadNB(usrbuf, n);
        case Line(maxlen) => r := ReadLineB(usrbuf, maxlen);
      }
      ok := r != -1;
      piece := if ok then usrbuf[..r] else "";
    }

    /** A sequence of calls delivers consecutive, non-overlapping segments of what was pending,
        sized by the calls alone and not by how the bytes arrived, up to the first call that
        fails, if one does. */
    method Drain(calls: seq<Call>) returns (pieces: seq<string>)
      requires Valid() && forall i :: 0 <= i < |calls| ==> calls[i].Legal()
      modifies this`cnt, this`bufptr, buf, fd`incoming, fd`interrupts
      ensures Valid() && |pieces| <= |calls| && pieces == Segments(old(Pending()), calls[..|pieces|])
      ensures Flatten(pieces) <= old(Pending())
      ensures if |pieces| == |calls| then Flatten(pieces) + Pending() == old(Pending()) else !fd.reliable
    {
      hide Segments, Flatten, LineLength, Pending, Call.Takes, Call.Legal;
      ghost var p := Pending();
      EmptySegments(p);
      pieces := [];
      assert calls[..0] == [] && "" + p == p;
      for i := 0 to |calls|
        invariant Valid() && |pieces| == i
        invariant pieces == Segments(p, calls[..i])
        invariant Flatten(pieces) + Pending() == p
      {
        ghost var before := Pending();
        OneMoreSegment(p, calls, i, before);
        var ok, piece := Deliver(calls[i]);
        if !ok {
          return;
        }
        pieces := pieces + [piece];
      }
    }
  }

  lemma SplitChunk(chunk: string, k: nat, rest: string)
    requires k <= |chunk|
    ensures (chunk + rest)[..k] == chunk[..k] && (chunk + rest)[k..] == chunk[k..] + rest
  {
  }

  /** A buffer whose first i characters have been overwritten by those of p. */
  ghost function Held(p: string, before: string, i: nat): (s: string)
    requires i <= |p| && i <= |before|
    ensures |s| == |before|
  {
    p[..i] + before[i..]
  }

  lemma StoreNothing(p: string, before: string)
    ensures Held(p, before, 0) == before && Rest(p, 0) == p
  {
  }

  /** The buffer after another character of p, and after the character that ends the line. */
  lemma StoreNext(p: string, before: string, i: nat)
    requires i < |p| && i < |before|
    ensures Held(p, before, i)[i := p[i]] == Held(p, before, i + 1)
  {
  }

  lemma StoreEnd(p: string, before: string, i: nat, c: char)
    requires i <= |p| && i < |before|
    ensures Held(p, before, i)[i := c] == p[..i] + [c] + before[i + 1..]
  {
  }

  lemma LineIsEmpty(text: string, limit: nat)
    ensures LineLength(text, limit) == 0 <==> limit == 0 || text == ""
  {
  }

  function Rest(p: string, at: nat): string
    requires at <= |p|
  {
    p[at..]
  }

  lemma ReadMore(p: string, at: nat, n: nat)
    requires at + n <= |p|
    ensures p[..at] + p[at..][..n] == p[..at + n] && p[at..][n..] == p[at + n..]
  {
  }

  lemma TakeOne(p: string, at: nat)
    requires at < |p|
    ensures var r := Rest(p, at); r != "" && r[0] == p[at] && r[1..] == Rest(p, at + 1)
  {
  }

  /** How a line goes on at position at. */
  lemma LineStep(p: string, at: nat, limit: nat)
    requires at <= |p|
    ensures Rest(p, at) == "" <==> at == |p|
    ensures limit == 0 || at == |p| ==> LineLength(Rest(p, at), limit) == 0
    ensures limit > 0 && at < |p| && p[at] == '\n' ==> LineLength(Rest(p, at), limit) == 1
    ensures limit > 0 && at < |p| && p[at] != '\n' ==>
              LineLength(Rest(p, at), limit) == 1 + LineLength(Rest(p, at + 1), limit - 1)
  {
    if at < |p| {
      TakeOne(p, at);
    }
  }

  datatype Call = Bytes(size: nat) | Line(size: nat) {
    predicate Legal() {
      size <= INT_MAX && (Line? ==> size >= 1)
    }

    /** How much of the text the call takes. */
    function Takes(text: string): (n: nat)
      requires Legal()
      ensures n <= |text|
    {
      if Bytes? then Min(size, |text|) else LineLength(text, size - 1)
    }
  }

  function Segments(text: string, calls: seq<Call>): seq<string>
    requires forall i :: 0 <= i < |calls| ==> calls[i].Legal()
    decreases |calls|
  {
    if calls == [] then []
    else
      var n := calls[0].Takes(text);
      [text[..n]] + Segments(text[n..], calls[1..])
  }

  lemma EmptySegments(text: string)
    ensures Segments(text, []) == [] && Flatten([]) == ""
  {
  }

  lemma LeftAfterFirst(text: string, n: nat, middle: string, left: string)
    requires n <= |text| && text[..n] + middle + left == text
    ensures middle + left == text[n..]
  {
    assert text[..n] + middle + left == text[..n] + (middle + left);
    assert (text[..n] + (middle + left))[n..] == middle + left;
  }

  /** The segment of one more call is taken from what the earlier ones left. */
  lemma {:induction false} SegmentsSnoc(text: string, calls: seq<Call>, last: Call, left: string)
    requires (forall i :: 0 <= i < |calls| ==> calls[i].Legal()) && last.Legal()
    requires Flatten(Segments(text, calls)) + left == text
    ensures Segments(text, calls + [last]) == Segments(text, calls) + [left[..last.Takes(left)]]
    decreases |calls|
  {
    if calls == [] {
      assert left == text;
      assert (calls + [last])[1..] == [];
    } else {
      var n := calls[0].Takes(text);
      var tail := Segments(text[n..], calls[1..]);
      FlattenCons(text[..n], tail);
      hide Flatten, LineLength;
      LeftAfterFirst(text, n, Flatten(tail), left);
      assert (calls + [last])[1..] == calls[1..] + [last];
      SegmentsSnoc(text[n..], calls[1..], last, left);
    }
  }

  /** One more call of a sequence, made when this much is left. */
  lemma OneMoreSegment(p: string, calls: seq<Call>, i: nat, left: string)
    requires i < |calls| && forall j :: 0 <= j < |calls| ==> calls[j].Legal()
    requires var pieces := Segments(p, calls[..i]); |pieces| == i && Flatten(pieces) + left == p
    ensures var pieces, n := Segments(p, calls[..i]), calls[i].Takes(left);
            && Flatten(pieces) <= p
            && Segments(p, calls[..i + 1]) == pieces + [left[..n]]
            && Flatten(pieces + [left[..n]]) + left[n..] == p
  {
    hide Segments, Flatten;
    var pieces, n := Segments(p, calls[..i]), calls[i].Takes(left);
    SegmentsSnoc(p, calls[..i], calls[i], left);
    assert calls[..i + 1] == calls[..i] + [calls[i]];
    FlattenSnoc(pieces, left[..n]);
    assert Flatten(pieces) + left[..n] + left[n..] == Flatten(pieces) + left;
  }

  lemma {:induction false} FlattenCons(piece: string, pieces: seq<string>)
    ensures Flatten([piece] + pieces) == piece + Flatten(pieces)
    decreases |pieces|
  {
    if pieces == [] {
      assert [piece] + pieces == [] + [piece];
      FlattenSnoc([], piece);
    } else {
      var front, last := pieces[..|pieces| - 1], pieces[|pieces| - 1];
      assert [piece] + pieces == ([piece] + front) + [last];
      FlattenSnoc([piece] + front, last);
      FlattenCons(piece, front);
      FlattenSnoc(front, last);
      assert pieces == front + [last];
      hide Flatten;
    }
  }

  function Flatten(pieces: seq<string>): string {
    if pieces == [] then "" else Flatten(pieces[..|pieces| - 1]) + pieces[|pieces| - 1]
  }

  lemma FlattenSnoc(pieces: seq<string>, piece: string)
    ensures Flatten(pieces + [piece]) == Flatten(pieces) + piece
  {
    assert (pieces + [piece])[..|pieces|] == pieces;
  }
}
