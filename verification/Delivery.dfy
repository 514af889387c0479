// Messages end to end: encoded, framed, encrypted, read back in pieces,
// decrypted, deframed and decoded.

module Delivery {
  import opened Results
  import opened Messages
  import opened Wire
  import opened Noise

  /** A canonical message whose frame fits one encrypted packet. */
  predicate Deliverable(m: Message)
  {
    Canonical(m) && Framed(m).Ok? && Fitting(Framed(m).value)
  }

  predicate AllDeliverable(ms: seq<Message>)
  {
    forall i :: 0 <= i < |ms| ==> Deliverable(ms[i])
  }

  function Frames(ms: seq<Message>): (fs: seq<Bytes>)
    requires AllDeliverable(ms)
    ensures |fs| == |ms| && forall i :: 0 <= i < |ms| ==> fs[i] == Framed(ms[i]).value
  {
    seq(|ms|, i requires 0 <= i < |ms| => Framed(ms[i]).value)
  }

  /** The messages of a plaintext stream, or the first error. */
  function ReadAll(b: Bytes): Result<seq<Message>, WireError>
    decreases |b|
  {
    if |b| == 0 then Ok([]) else
    var r := ReadMessage(b);
    if r.Err? then Err(r.error) else
    Shorter(b);
    var others := ReadAll(r.value.1);
    if others.Err? then others else Ok([r.value.0] + others.value)
  }

  lemma Shorter(b: Bytes)
    requires ReadMessage(b).Ok?
    ensures |ReadMessage(b).value.1| < |b|
  {
    hide Dispatch, DecodeHeader;
  }

  lemma FrameNotEmpty(m: Message)
    requires Framed(m).Ok?
    ensures |Framed(m).value| >= HEADER
  {
    hide Payload, HeaderBytes;
  }

  lemma {:induction false} StreamRoundTrip(ms: seq<Message>)
    requires AllDeliverable(ms)
    ensures ReadAll(Concat(Frames(ms))) == Ok(ms)
    decreases |ms|
  {
    hide ReadMessage, Framed, Canonical;
    if |ms| > 0 {
      assert Deliverable(ms[0]);
      var rest := Concat(Frames(ms[1..]));
      assert Frames(ms)[1..] == Frames(ms[1..]);
      assert Concat(Frames(ms)) == Framed(ms[0]).value + rest;
      FrameNotEmpty(ms[0]);
      ReadFramed(ms[0], rest);
      StreamRoundTrip(ms[1..]);
      assert ms == [ms[0]] + ms[1..];
    }
  }

  /** Whatever is sent arrives: the same messages, in order, with both nonce counters in lockstep. */
  lemma EndToEnd(c: Cipher, n: U64, ms: seq<Message>)
    requires Proper(c) && AllDeliverable(ms)
    ensures var wire := Written(c, n, Frames(ms));
            && Clean(c, n, wire)
            && ReadAll(Plain(c, n, wire)) == Ok(ms)
            && Drained(c, n, wire) == Advanced(n, |ms|)
  {
    hide Framed, Canonical, ReadAll, Written, Plain;
    assert AllFit(Frames(ms)) by {
      forall i | 0 <= i < |ms| ensures Fitting(Frames(ms)[i]) {
        assert Deliverable(ms[i]);
      }
    }
    WrittenIsRead(c, n, Frames(ms));
    StreamRoundTrip(ms);
  }

  // ---------------------------------------------------------------- over the connection objects

  /** Decoder.ReadFrame and DispatchFrame over an encrypted connection. */
  method Receive(conn: EncryptedConn, ghost end: U64) returns (r: Result<Message, WireError>)
    requires conn.Flowing(end)
    modifies conn`recvN, conn`inbox, conn`readbuf
    ensures ReadMessage(old(conn.Pending())).Ok? ==>
              && r == Ok(ReadMessage(old(conn.Pending())).value.0)
              && conn.Pending() == ReadMessage(old(conn.Pending())).value.1
              && conn.Flowing(end)
    ensures ReadMessage(old(conn.Pending())).Err? ==> r.Err?
  {
    hide Dispatch, DecodeHeader, EncryptedConn.Flowing, EncryptedConn.Pending;
    ghost var stream := conn.Pending();
    var head := conn.ReadFull(HEADER, end);
    if head.Err? {
      return Err(TooShort);
    }
    assert stream[..HEADER] == head.value && stream[HEADER..] == conn.Pending();
    var h := DecodeHeader(head.value);
    if !ValidLength(h.ext, h.length) {
      return Err(if h.length > MAX_LENGTH then FrameTooLarge else ChannelPayloadTooShort);
    }
    if HEADER + h.length > MAX_FRAME {
      return Err(FrameTooLarge);
    }
    ghost var after := conn.Pending();
    var payload := conn.ReadFull(h.length, end);
    if payload.Err? {
      return Err(TooShort);
    }
    assert after[..h.length] == payload.value && after[h.length..] == conn.Pending();
    assert stream[HEADER..HEADER + h.length] == payload.value && stream[HEADER + h.length..] == conn.Pending();
    r := Dispatch(h.msgType, payload.value);
  }

  lemma {:induction false} WrittenSnoc(c: Cipher, n: U64, ps: seq<Bytes>, p: Bytes)
    ensures Written(c, n, ps + [p]) == Written(c, n, ps) + Written(c, Advanced(n, |ps|), [p])
    ensures Advanced(n, |ps| + 1) == Bump(Advanced(n, |ps|))
    decreases |ps|
  {
    hide Packet, Fitting, Bump;
    if |ps| == 0 {
      assert ps + [p] == [p];
      assert Advanced(n, 1) == Advanced(Bump(n), 0) == Bump(n);
    } else {
      assert (ps + [p])[1..] == ps[1..] + [p];
      WrittenSnoc(c, Bump(n), ps[1..], p);
    }
  }

  lemma {:induction false} WrittenFilled(c: Cipher, n: U64, ps: seq<Bytes>)
    requires Proper(c) && AllFit(ps) && forall i :: 0 <= i < |ps| ==> |ps[i]| > 0
    ensures Filled(c, n, Written(c, n, ps))
    decreases |ps|
  {
    hide Bump, Packet, Split;
    if |ps| == 0 {
      NoPacket([]);
    } else {
      SplitPacket(c, n, ps[0], Written(c, Bump(n), ps[1..]));
      WrittenFilled(c, Bump(n), ps[1..]);
      assert c.open(n, c.seal(n, ps[0])) == Some(ps[0]);
    }
  }

  /** With nothing left to hand out, nothing is left on the wire and the counter has arrived. */
  lemma DrainedAtEnd(conn: EncryptedConn, end: U64)
    requires conn.Flowing(end) && conn.Pending() == []
    ensures conn.inbox == [] && conn.recvN == end
  {
    if |conn.inbox| == 0 {
      NoPacket(conn.inbox);
    }
  }

  lemma FramesFit(ms: seq<Message>)
    requires AllDeliverable(ms)
    ensures AllFit(Frames(ms)) && forall i :: 0 <= i < |ms| ==> |Frames(ms)[i]| > 0
  {
    hide Framed, Canonical;
    forall i | 0 <= i < |ms| ensures Fitting(Frames(ms)[i]) && |Frames(ms)[i]| > 0 {
      assert Deliverable(ms[i]);
      FrameNotEmpty(ms[i]);
    }
  }

  method SendAll(conn: EncryptedConn, ms: seq<Message>)
    requires Proper(conn.sending) && AllDeliverable(ms)
    modifies conn`sendN, conn`outbox
    ensures conn.outbox == old(conn.outbox) + Written(conn.sending, old(conn.sendN), Frames(ms))
    ensures conn.sendN == Advanced(old(conn.sendN), |ms|)
  {
    hide Framed, Written, Advanced, Bump, Fitting;
    NothingWritten(conn.sending, conn.sendN);
    ghost var fs, n := Frames(ms), conn.sendN;
    for i := 0 to |ms|
      invariant conn.outbox == old(conn.outbox) + Written(conn.sending, n, fs[..i])
      invariant conn.sendN == Advanced(n, i)
    {
      assert fs[..i + 1] == fs[..i] + [fs[i]];
      WrittenSnoc(conn.sending, n, fs[..i], fs[i]);
      assert Deliverable(ms[i]);
      var _ := conn.Write(Framed(ms[i]).value);
    }
    assert fs[..|ms|] == fs;
  }

  lemma NothingWritten(c: Cipher, n: U64)
    ensures Written(c, n, []) == [] && Advanced(n, 0) == n
  {
  }

  lemma ConcatStep(fs: seq<Bytes>, i: nat)
    requires i < |fs|
    ensures Concat(fs[i..]) == fs[i] + Concat(fs[i + 1..])
  {
    assert fs[i..][1..] == fs[i + 1..];
  }

  lemma NextMessage(ms: seq<Message>, i: nat)
    requires AllDeliverable(ms) && i < |ms|
    ensures ReadMessage(Concat(Frames(ms)[i..])) == Ok((ms[i], Concat(Frames(ms)[i + 1..])))
  {
    hide Framed, ReadMessage, Canonical;
    ConcatStep(Frames(ms), i);
    assert Deliverable(ms[i]);
    ReadFramed(ms[i], Concat(Frames(ms)[i + 1..]));
  }

  /** Receive the messages waiting on a connection, one after the other. */
  method ReceiveAll(conn: EncryptedConn, k: nat, ghost ms: seq<Message>, ghost end: U64)
    returns (received: seq<Message>)
    requires AllDeliverable(ms) && k == |ms|
    requires conn.Flowing(end) && conn.Pending() == Concat(Frames(ms))
    modifies conn`recvN, conn`inbox, conn`readbuf
    ensures received == ms && conn.recvN == end && conn.inbox == [] && conn.Pending() == []
  {
    hide EncryptedConn.Flowing, EncryptedConn.Pending, ReadMessage, Deliverable, Frames, Concat;
    ghost var fs := Frames(ms);
    received := [];
    assert fs[0..] == fs;
    for i := 0 to k
      invariant received == ms[..i] && conn.Flowing(end) && conn.Pending() == Concat(fs[i..])
    {
      NextMessage(ms, i);
      var r := Receive(conn, end);
      received := received + [r.value];
    }
    assert fs[k..] == [];
    NothingToRead();
    DrainedAtEnd(conn, end);
  }

  lemma NothingToRead()
    ensures Concat([]) == []
  {
  }

  lemma Arrives(conn: EncryptedConn, n: U64, ms: seq<Message>)
    requires Proper(conn.receiving) && AllDeliverable(ms) && conn.recvN == n && conn.readbuf == []
    requires conn.inbox == Written(conn.receiving, n, Frames(ms))
    ensures conn.Flowing(Advanced(n, |ms|)) && conn.Pending() == Concat(Frames(ms))
  {
    hide Framed, Canonical, Written;
    FramesFit(ms);
    WrittenIsRead(conn.receiving, n, Frames(ms));
    WrittenFilled(conn.receiving, n, Frames(ms));
  }

  /** One end sends, the other receives: same messages, same order, equal counters, nothing left over. */
  method Deliver(c: Cipher, n: U64, ms: seq<Message>) returns (received: seq<Message>, sendN: U64, recvN: U64)
    requires Proper(c) && AllDeliverable(ms)
    ensures received == ms && sendN == recvN
  {
    hide Deliverable, Written, Frames, Advanced, EncryptedConn.Flowing, EncryptedConn.Pending;
    var sender := new EncryptedConn(c, c, n, n, []);
    SendAll(sender, ms);
    assert sender.outbox == Written(c, n, Frames(ms));
    sendN := sender.sendN;
    var receiver := new EncryptedConn(c, c, n, n, sender.outbox);
    Arrives(receiver, n, ms);
    received := ReceiveAll(receiver, |ms|, ms, sendN);
    recvN := receiver.recvN;
  }
}
