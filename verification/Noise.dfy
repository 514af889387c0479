// The encrypted transport under Stratum V2: length-prefixed AEAD packets with
// implicit nonce counters, read back through a plaintext buffer.

module Noise {
  import opened LittleEndian
  import opened Results
  import opened Messages

  const TAG := 16
  const MAX_PACKET := 65535

  /** Authenticated encryption under one key: by nonce counter, with no additional data. */
  datatype Cipher = Cipher(seal: (U64, Bytes) -> Bytes, open: (U64, Bytes) -> Option<Bytes>)

  /** What the cipher library promises. */
  ghost predicate Proper(c: Cipher)
  {
    forall n: U64, p: Bytes :: |c.seal(n, p)| == |p| + TAG && c.open(n, c.seal(n, p)) == Some(p)
  }

  /** uint64 increment. */
  function Bump(n: U64): U64
  {
    (n + 1) % 0x1_0000_0000_0000_0000
  }

  predicate Fitting(p: Bytes)
  {
    |p| + TAG <= MAX_PACKET
  }

  function Packet(c: Cipher, n: U64, p: Bytes): Bytes
  {
    LeBytes(|c.seal(n, p)|, 2) + c.seal(n, p)
  }

  /** Bytes on the wire for successive writes. A write that is too large puts nothing there but uses up a nonce. */
  function Written(c: Cipher, n: U64, ps: seq<Bytes>): Bytes
    decreases |ps|
  {
    if |ps| == 0 then []
    else (if Fitting(ps[0]) then Packet(c, n, ps[0]) else []) + Written(c, Bump(n), ps[1..])
  }

  function Advanced(n: U64, k: nat): U64
    decreases k
  {
    if k == 0 then n else Advanced(Bump(n), k - 1)
  }

  /** The first packet of the wire, if it has arrived whole: its ciphertext and what follows. */
  function Split(wire: Bytes): (r: Option<(Bytes, Bytes)>)
    ensures r.Some? ==> |r.value.1| < |wire|
  {
    if |wire| < 2 then None else
    var len := LeValue(wire[..2]);
    if |wire| < 2 + len then None else Some((wire[2..2 + len], wire[2 + len..]))
  }

  /** Everything the receiver can decrypt from here, in order. */
  function Plain(c: Cipher, n: U64, wire: Bytes): Bytes
    decreases |wire|
  {
    var s := Split(wire);
    if s.None? then [] else
    var p := c.open(n, s.value.0);
    if p.None? then [] else p.value + Plain(c, Bump(n), s.value.1)
  }

  /** The wire holds whole packets only, each opening under its counter. */
  predicate Clean(c: Cipher, n: U64, wire: Bytes)
    decreases |wire|
  {
    |wire| == 0 ||
    var s := Split(wire);
    s.Some? && c.open(n, s.value.0).Some? && Clean(c, Bump(n), s.value.1)
  }

  /** No packet on the wire is empty. */
  predicate Filled(c: Cipher, n: U64, wire: Bytes)
    decreases |wire|
  {
    var s := Split(wire);
    s.Some? ==>
      var p := c.open(n, s.value.0);
      p.Some? ==> |p.value| > 0 && Filled(c, Bump(n), s.value.1)
  }

  /** The receive counter once the wire is drained. */
  function Drained(c: Cipher, n: U64, wire: Bytes): U64
    decreases |wire|
  {
    var s := Split(wire);
    if s.None? then n else Drained(c, Bump(n), s.value.1)
  }

  lemma SplitPacket(c: Cipher, n: U64, p: Bytes, rest: Bytes)
    requires Proper(c) && Fitting(p)
    ensures Split(Packet(c, n, p) + rest) == Some((c.seal(n, p), rest))
  {
    var ct := c.seal(n, p);
    assert |ct| == |p| + TAG;
    var b := Packet(c, n, p) + rest;
    Widths();
    LeRoundTrip(|ct|, 2);
    assert b[..2] == LeBytes(|ct|, 2);
    assert b[2..2 + |ct|] == ct && b[2 + |ct|..] == rest;
  }

  function Concat(ps: seq<Bytes>): Bytes
  {
    if |ps| == 0 then [] else ps[0] + Concat(ps[1..])
  }

  predicate AllFit(ps: seq<Bytes>)
  {
    forall i :: 0 <= i < |ps| ==> Fitting(ps[i])
  }

  /** What was written comes out as written, and both counters have moved by one per write. */
  lemma {:induction false} WrittenIsRead(c: Cipher, n: U64, ps: seq<Bytes>)
    requires Proper(c) && AllFit(ps)
    ensures Clean(c, n, Written(c, n, ps)) && Plain(c, n, Written(c, n, ps)) == Concat(ps)
    ensures Drained(c, n, Written(c, n, ps)) == Advanced(n, |ps|)
    decreases |ps|
  {
    hide Bump, Packet, Split;
    if |ps| == 0 {
      NoPacket([]);
    } else {
      var rest := Written(c, Bump(n), ps[1..]);
      SplitPacket(c, n, ps[0], rest);
      WrittenIsRead(c, Bump(n), ps[1..]);
      assert c.open(n, c.seal(n, ps[0])) == Some(ps[0]);
    }
  }

  lemma NoPacket(wire: Bytes)
    requires |wire| == 0
    ensures Split(wire) == None
  {
  }

  // ---------------------------------------------------------------- oversize writes

  function FitCount(ps: seq<Bytes>): nat
  {
    if |ps| == 0 then 0 else (if Fitting(ps[0]) then 1 else 0) + FitCount(ps[1..])
  }

  lemma {:induction false} PacketsCounted(c: Cipher, n: U64, m: U64, ps: seq<Bytes>)
    requires Proper(c)
    ensures Drained(c, m, Written(c, n, ps)) == Advanced(m, FitCount(ps))
    decreases |ps|
  {
    hide Bump, Packet, Split, Fitting;
    if |ps| == 0 {
      NoPacket([]);
    } else if Fitting(ps[0]) {
      var rest := Written(c, Bump(n), ps[1..]);
      SplitPacket(c, n, ps[0], rest);
      PacketsCounted(c, Bump(n), Bump(m), ps[1..]);
    } else {
      PacketsCounted(c, Bump(n), m, ps[1..]);
      assert [] + Written(c, Bump(n), ps[1..]) == Written(c, Bump(n), ps[1..]);
    }
  }

  lemma BumpCases(n: U64)
    ensures Bump(n) == if n + 1 < 0x1_0000_0000_0000_0000 then n + 1 else 0
  {
  }

  lemma {:induction false} AdvancedIs(n: U64, k: nat)
    requires k < 0x1_0000_0000_0000_0000
    ensures Advanced(n, k) == if n + k < 0x1_0000_0000_0000_0000 then n + k else n + k - 0x1_0000_0000_0000_0000
    decreases k
  {
    hide Bump;
    if k > 0 {
      BumpCases(n);
      AdvancedIs(Bump(n), k - 1);
    }
  }

  lemma {:induction false} FitCountBound(ps: seq<Bytes>)
    ensures FitCount(ps) <= |ps| && (FitCount(ps) == |ps| <==> AllFit(ps))
  {
    hide Fitting;
    if |ps| > 0 {
      FitCountBound(ps[1..]);
      assert AllFit(ps) <==> Fitting(ps[0]) && AllFit(ps[1..]);
    }
  }

  /** The two counters end up equal exactly when no write was too large. */
  lemma LockstepIffAllFit(c: Cipher, n: U64, ps: seq<Bytes>)
    requires Proper(c) && |ps| < 0x1_0000_0000_0000_0000
    ensures Drained(c, n, Written(c, n, ps)) == Advanced(n, |ps|) <==> AllFit(ps)
  {
    PacketsCounted(c, n, n, ps);
    FitCountBound(ps);
    AdvancedIs(n, |ps|);
    AdvancedIs(n, FitCount(ps));
  }

  /** A packet opens under no other counter. */
  ghost predicate Authentic(c: Cipher)
  {
    forall m: U64, n: U64, p: Bytes :: m != n ==> c.open(m, c.seal(n, p)) == None
  }

  /** One write that is too large, and the next message is lost: its packet no longer opens. */
  lemma OversizeLosesNext(c: Cipher, n: U64, big: Bytes, p: Bytes)
    requires Proper(c) && Authentic(c) && !Fitting(big) && Fitting(p)
    ensures Plain(c, n, Written(c, n, [big, p])) == []
  {
    hide Packet, Split, Fitting;
    BumpCases(n);
    assert [big, p][1..] == [p] && [p][1..] == [];
    assert Written(c, Bump(n), [p]) == Packet(c, Bump(n), p) + [];
    assert Written(c, n, [big, p]) == [] + Written(c, Bump(n), [p]) == Packet(c, Bump(n), p) + [];
    SplitPacket(c, Bump(n), p, []);
  }

  // ---------------------------------------------------------------- the connection

  datatype ReadError = EndOfStream | DecryptFailed

  class EncryptedConn {
    const sending: Cipher
    const receiving: Cipher
    var sendN: U64
    var recvN: U64
    var inbox: Bytes
    var outbox: Bytes
    var readbuf: Bytes

    /** The plaintext this end has still to hand out. */
    ghost function Pending(): Bytes
      reads this
    {
      readbuf + Plain(receiving, recvN, inbox)
    }

    /** Whole, non-empty, openable packets wait in the inbox, and draining them ends at this counter. */
    ghost predicate Flowing(end: U64)
      reads this
    {
      Clean(receiving, recvN, inbox) && Filled(receiving, recvN, inbox) && Drained(receiving, recvN, inbox) == end
    }

    constructor (sending: Cipher, receiving: Cipher, sendN: U64, recvN: U64, inbox: Bytes)
      ensures this.sending == sending && this.receiving == receiving
      ensures this.sendN == sendN && this.recvN == recvN
      ensures this.inbox == inbox && outbox == [] && readbuf == []
    {
      this.sending, this.receiving := sending, receiving;
      this.sendN, this.recvN := sendN, recvN;
      this.inbox, outbox, readbuf := inbox, [], [];
    }

    /** Encrypt first, then look at the size: a rejected write has already used its nonce. */
    method Write(p: Bytes) returns (ok: bool)
      requires Proper(sending)
      modifies this`sendN, this`outbox
      ensures ok == Fitting(p) && sendN == Bump(old(sendN))
      ensures outbox == old(outbox) + Written(sending, old(sendN), [p])
    {
      var n, ct := sendN, sending.seal(sendN, p);
      sendN := Bump(sendN);
      assert |ct| == |p| + TAG;
      assert Written(sending, n, [p]) == (if Fitting(p) then Packet(sending, n, p) else []) + [];
      if |ct| > MAX_PACKET {
        return false;
      }
      outbox := outbox + LeBytes(|ct|, 2) + ct;
      return true;
    }

    /** Drain the buffer, fetching and decrypting one packet when it is empty. */
    method Read(k: nat, ghost end: U64) returns (r: Result<Bytes, ReadError>)
      modifies this`recvN, this`inbox, this`readbuf
      ensures r.Ok? ==> old(Pending()) == r.value + Pending() && |r.value| <= k
      ensures r.Ok? && k > 0 && |r.value| == 0 ==> |inbox| < |old(inbox)|
      ensures |inbox| <= |old(inbox)|
      ensures old(Flowing(end)) ==> if r.Ok? then Flowing(end) else old(Pending()) == []
    {
      if |readbuf| == 0 {
        var s := Split(inbox);
        if s.None? {
          inbox := [];
          return Err(EndOfStream);
        }
        var pt := receiving.open(recvN, s.value.0);
        recvN, inbox := Bump(recvN), s.value.1;
        if pt.None? {
          return Err(DecryptFailed);
        }
        readbuf := pt.value;
      }
      var n := if k < |readbuf| then k else |readbuf|;
      r := Ok(readbuf[..n]);
      readbuf := readbuf[n..];
    }

    /** io.ReadFull: keep reading until n bytes have come, in whatever pieces. */
    method ReadFull(n: nat, ghost end: U64) returns (r: Result<Bytes, ReadError>)
      requires Flowing(end)
      modifies this`recvN, this`inbox, this`readbuf
      ensures r.Ok? <==> |old(Pending())| >= n
      ensures r.Ok? ==> Flowing(end) && |r.value| == n && old(Pending()) == r.value + Pending()
    {
      hide EncryptedConn.Flowing, EncryptedConn.Pending;
      var got: Bytes := [];
      while |got| < n
        invariant |got| <= n && Flowing(end) && old(Pending()) == got + Pending()
        decreases n - |got|, |inbox|
      {
        var piece := Read(n - |got|, end);
        if piece.Err? {
          return Err(piece.error);
        }
        got := got + piece.value;
      }
      return Ok(got);
    }
  }
}
