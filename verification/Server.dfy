/**
 The blocking side of the framing layer: `readExact`, `writeAll` and the loop of `handleClient`,
 over a socket that splits the stream in any way it likes.
 */
module Server {
  import opened MessageFramer

  /**
   One TCP connection.  `incoming` is everything that will ever be received on it: a disconnect or a
   receive error is the end of `incoming`.
   */
  class Socket {
    var incoming: seq<Byte>
    var outgoing: seq<Byte>

    constructor (incoming: seq<Byte>)
      ensures this.incoming == incoming && outgoing == []
    {
      this.incoming := incoming;
      outgoing := [];
    }

    /** Up to `remaining` bytes go to `buf` from `at` on, as many as the network chooses, but at least one. */
    method Recv(buf: array<Byte>, at: nat, remaining: nat) returns (r: int)
      requires 0 < remaining && at + remaining <= buf.Length
      modifies this`incoming, buf
      ensures old(incoming) == [] ==> r <= 0 && incoming == []
      ensures old(incoming) != [] ==> 1 <= r <= remaining && r <= |old(incoming)| && incoming == old(incoming)[r..]
      ensures buf[..at] == old(buf[..at])
      ensures r > 0 ==> buf[at..at + r] == old(incoming)[..r]
    {
      if incoming == [] {
        r :| r <= 0;
        return;
      }
      r :| 1 <= r <= remaining && r <= |incoming|;
      forall i | 0 <= i < r {
        buf[at + i] := incoming[i];
      }
      incoming := incoming[r..];
    }

    /** As many bytes as the network takes, or a failure. */
    method Send(data: seq<Byte>) returns (w: int)
      requires data != []
      modifies this`outgoing
      ensures w <= |data|
      ensures outgoing == old(outgoing) + if w > 0 then data[..w] else []
    {
      w :| w <= |data|;
      if w > 0 {
        outgoing := outgoing + data[..w];
      }
    }
  }

  /** All of `n` bytes in order, or the stream has ended before them. */
  method ReadExact(sock: Socket, buf: array<Byte>, n: nat) returns (ok: bool)
    requires n <= buf.Length
    modifies sock`incoming, buf
    ensures ok == (n <= |old(sock.incoming)|)
    ensures ok ==> buf[..n] == old(sock.incoming)[..n] && sock.incoming == old(sock.incoming)[n..]
    ensures !ok ==> sock.incoming == []
  {
    var ptr, remaining := 0, n;
    while remaining > 0
      invariant 0 <= remaining <= n && ptr == n - remaining
      invariant ptr <= |old(sock.incoming)| && sock.incoming == old(sock.incoming)[ptr..]
      invariant buf[..ptr] == old(sock.incoming)[..ptr]
    {
      var r := sock.Recv(buf, ptr, remaining);
      if r <= 0 {
        return false;
      }
      assert buf[..ptr + r] == buf[..ptr] + buf[ptr..ptr + r];
      ptr := ptr + r;
      remaining := remaining - r;
    }
    return true;
  }

  /** All of the data in order, or a proper prefix of it and a failure. */
  method WriteAll(sock: Socket, data: seq<Byte>) returns (ok: bool)
    modifies sock`outgoing
    ensures ok ==> sock.outgoing == old(sock.outgoing) + data
    ensures !ok ==> exists k :: 0 <= k < |data| && sock.outgoing == old(sock.outgoing) + data[..k]
  {
    var ptr := 0;
    while ptr < |data|
      invariant 0 <= ptr <= |data|
      invariant sock.outgoing == old(sock.outgoing) + data[..ptr]
    {
      var w := sock.Send(data[ptr..]);
      if w <= 0 {
        return false;
      }
      assert data[..ptr] + data[ptr..][..w] == data[..ptr + w];
      ptr := ptr + w;
    }
    return true;
  }

  /** Encoding and writing one response: its whole frame, or a proper prefix and a failure. */
  method Answer(sock: Socket, response: Payload) returns (sent: bool)
    modifies sock`outgoing
    ensures sent ==> sock.outgoing == old(sock.outgoing) + Encode(response)
    ensures !sent ==> old(sock.outgoing) <= sock.outgoing < old(sock.outgoing) + Encode(response)
  {
    var frame := EncodeFrame(response);
    sent := WriteAll(sock, frame[..]);
  }

  /** The frames of the first `n` responses. */
  function Responses(reply: nat -> Payload, n: nat): seq<Byte> {
    if n == 0 then [] else Responses(reply, n - 1) + Encode(reply(n - 1))
  }

  /**
   The two reads of one round of the client loop, with the loop's own decoding of the header.  The
   result is what the specification finds at the front of the stream.
   */
  method ReadMessage(sock: Socket, lenBuf: array<Byte>) returns (r: Outcome)
    requires lenBuf.Length == HEADER_SIZE
    modifies sock`incoming, lenBuf
    ensures r == First(old(sock.incoming))
    ensures r.Message? ==> sock.incoming == old(sock.incoming)[HEADER_SIZE + |r.payload|..]
    ensures r.NeedMore? ==> sock.incoming == []
    ensures |sock.incoming| <= |old(sock.incoming)|
  {
    var ok := ReadExact(sock, lenBuf, HEADER_SIZE);
    if !ok {
      return NeedMore;
    }
    assert lenBuf[..] == old(sock.incoming)[..HEADER_SIZE];
    var payloadLen := ReadU32LE(lenBuf[..]);
    if payloadLen > MAX_MESSAGE_SIZE {
      return TooLarge;
    }
    var payload := new Byte[payloadLen];
    ok := ReadExact(sock, payload, payloadLen);
    if !ok {
      return NeedMore;
    }
    assert payload[..] == payload[..payloadLen] == old(sock.incoming)[HEADER_SIZE..][..payloadLen];
    return Message(payload[..]);
  }

  /** One round of the loop: a message read and answered, or neither. */
  method Round(sock: Socket, lenBuf: array<Byte>, response: Payload) returns (r: Outcome, sent: bool)
    requires lenBuf.Length == HEADER_SIZE
    modifies sock, lenBuf
    ensures r == First(old(sock.incoming))
    ensures r.Message? ==> sock.incoming == old(sock.incoming)[HEADER_SIZE + |r.payload|..]
    ensures r.NeedMore? ==> sock.incoming == []
    ensures |sock.incoming| <= |old(sock.incoming)|
    ensures !r.Message? ==> sock.outgoing == old(sock.outgoing)
    ensures r.Message? && sent ==> sock.outgoing == old(sock.outgoing) + Encode(response)
    ensures r.Message? && !sent ==> old(sock.outgoing) <= sock.outgoing < old(sock.outgoing) + Encode(response)
  {
    r := ReadMessage(sock, lenBuf);
    sent := false;
    if r.Message? {
      sent := Answer(sock, response);
    }
  }

  datatype Ending = Disconnected | Oversized | SendFailed

  /**
   The loop of one client.  `reply` is what dispatching the i-th message answered, whatever the game
   and the other clients did meanwhile.  The dispatched payloads are those of the specification, for
   every way the stream is split, and every one of them is answered in order.
   */
  method HandleClient(sock: Socket, reply: nat -> Payload) returns (dispatched: seq<Payload>, ending: Ending)
    modifies sock
    ensures dispatched <= Parse(old(sock.incoming)).payloads
    ensures !ending.SendFailed? ==> dispatched == Parse(old(sock.incoming)).payloads
    ensures !ending.SendFailed? ==> sock.outgoing == old(sock.outgoing) + Responses(reply, |dispatched|)
    ensures ending.Oversized? ==> Parse(old(sock.incoming)).stop == TooLarge
    ensures ending.Disconnected? ==> Parse(old(sock.incoming)).stop == NeedMore && sock.incoming == []
    ensures ending.SendFailed? ==> dispatched != []
    ensures ending.SendFailed? ==> old(sock.outgoing) + Responses(reply, |dispatched| - 1) <= sock.outgoing
    ensures ending.SendFailed? ==> sock.outgoing < old(sock.outgoing) + Responses(reply, |dispatched|)
  {
    var lenBuf := new Byte[HEADER_SIZE];
    dispatched := [];
    ghost var whole := Parse(sock.incoming);
    ghost var base := sock.outgoing;
    while true
      invariant whole == Prepend(dispatched, Parse(sock.incoming))
      invariant sock.outgoing == base + Responses(reply, |dispatched|)
      decreases |sock.incoming|
    {
      ghost var stream := sock.incoming;
      var r, sent := Round(sock, lenBuf, reply(|dispatched|));
      if !r.Message? {
        TakeNone(whole, dispatched, stream);
        return dispatched, if r.TooLarge? then Oversized else Disconnected;
      }
      TakeNext(whole, dispatched, stream);
      NextResponse(reply, |dispatched|, base);
      dispatched := dispatched + [r.payload];
      if !sent {
        return dispatched, SendFailed;
      }
    }
  }

  lemma NextResponse(reply: nat -> Payload, n: nat, base: seq<Byte>)
    ensures base + Responses(reply, n + 1) == base + Responses(reply, n) + Encode(reply(n))
  {
  }

  /** The responses of the first n dispatches. */
  function Replies(reply: nat -> Payload, n: nat): (rs: seq<Payload>)
    ensures |rs| == n && forall i :: 0 <= i < n ==> rs[i] == reply(i)
  {
    if n == 0 then [] else Replies(reply, n - 1) + [reply(n - 1)]
  }

  lemma {:induction false} ResponsesAreEncoded(reply: nat -> Payload, n: nat)
    ensures Responses(reply, n) == EncodeAll(Replies(reply, n))
  {
    if n > 0 {
      ResponsesAreEncoded(reply, n - 1);
      EncodeAllSnoc(Replies(reply, n - 1), reply(n - 1));
    }
  }

  /** Decoding what was sent gives the client the i-th response for its i-th message, if each fits. */
  lemma ResponsesAreRead(reply: nat -> Payload, n: nat)
    requires forall i: nat :: i < n ==> |reply(i)| <= MAX_MESSAGE_SIZE
    ensures var r := Parse(Responses(reply, n));
      && |r.payloads| == n && (forall i :: 0 <= i < n ==> r.payloads[i] == reply(i))
      && r.rest == [] && r.stop == NeedMore
  {
    ResponsesAreEncoded(reply, n);
    RoundTrip(Replies(reply, n));
  }

  /**
   The two parsers agree: the blocking one under every segmentation the network may choose, the
   incremental one fed the same bytes in chunks of every shape.
   */
  method ParsersAgree(stream: seq<Byte>, chunks: seq<seq<Byte>>, reply: nat -> Payload)
    returns (blocking: seq<Payload>, incremental: seq<Payload>, ending: Ending, stop: Outcome)
    requires Concat(chunks) == stream
    ensures incremental == Parse(stream).payloads && stop == Parse(stream).stop
    ensures blocking <= incremental
    ensures !ending.SendFailed? ==> blocking == incremental
    ensures !ending.SendFailed? ==> (ending.Oversized? <==> stop == TooLarge)
    ensures !ending.SendFailed? ==> (ending.Disconnected? <==> stop == NeedMore)
  {
    var sock := new Socket(stream);
    blocking, ending := HandleClient(sock, reply);
    incremental, stop := FeedChunks(chunks);
  }
}
