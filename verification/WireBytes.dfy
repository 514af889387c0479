// What is on the wire, byte by byte: frame headers, message payloads and
// encrypted packets.

module WireBytes {
  import opened Numerals
  import opened LittleEndian
  import opened Results
  import opened Messages
  import opened Wire
  import opened Noise

  function Le2(n: U16): Bytes { [n % 256, n / 256] }
  function Le4(n: U32): Bytes { [n % 256, n / 256 % 256, n / 0x1_0000 % 256, n / 0x100_0000] }
  function Le8(n: U64): Bytes { Le4(n % 0x1_0000_0000) + Le4(n / 0x1_0000_0000) }
  function Counted(b: Bytes): Bytes requires |b| <= 255 { [|b|] + b }

  lemma Two(n: U16)
    ensures LeBytes(n, 2) == Le2(n)
  {
    assert LeBytes(n / 256, 1) == [n / 256 % 256] + LeBytes(n / 256 / 256, 0);
  }

  lemma Four(n: U32)
    ensures LeBytes(n, 4) == Le4(n)
  {
    Shifts(n);
    assert LeBytes(n / 256 / 256 / 256, 1) == [n / 256 / 256 / 256 % 256] + LeBytes(n / 256 / 256 / 256 / 256, 0);
    assert LeBytes(n / 256 / 256, 2) == [n / 256 / 256 % 256] + LeBytes(n / 256 / 256 / 256, 1);
    assert LeBytes(n / 256, 3) == [n / 256 % 256] + LeBytes(n / 256 / 256, 2);
  }

  lemma Shifts(n: nat)
    ensures n / 256 / 256 == n / 0x1_0000 && n / 256 / 256 / 256 == n / 0x100_0000
    ensures n / 256 / 256 / 256 / 256 == n / 0x1_0000_0000
  {
  }

  lemma {:induction false} Split(n: nat, j: nat, k: nat)
    ensures LeBytes(n, j + k) == LeBytes(n, j) + LeBytes(n / Pow(256, j), k)
    decreases j
  {
    if j == 0 {
      assert Pow(256, 0) == 1;
      assert LeBytes(n, 0) + LeBytes(n, k) == LeBytes(n, k);
    } else {
      assert LeBytes(n, j + k) == [n % 256] + LeBytes(n / 256, j - 1 + k);
      assert LeBytes(n, j) == [n % 256] + LeBytes(n / 256, j - 1);
      hide LeBytes;
      Split(n / 256, j - 1, k);
      DivDiv(n, 256, Pow(256, j - 1));
      assert Pow(256, j) == 256 * Pow(256, j - 1);
    }
  }

  lemma DivDiv(n: nat, a: nat, b: nat)
    requires a >= 1 && b >= 1
    ensures a * b >= 1 && n / a / b == n / (a * b)
  {
    DivMod(n, a);
    DivMod(n / a, b);
    MulMonotone(a, 1, b);
    Nested(n, n / a / b, b, n / a % b, a, n % a);
  }

  lemma Nested(n: nat, q: nat, b: nat, r: nat, a: nat, s: nat)
    requires n == (q * b + r) * a + s && r < b && s < a && a * b >= 1
    ensures n / (a * b) == q
  {
    Nest(q, b, r, a, s);
    MulMonotone(a, r + 1, b);
    DivModUnique(q, r * a + s, a * b);
  }

  lemma Nest(q: nat, b: nat, r: nat, a: nat, s: nat)
    ensures (q * b + r) * a + s == q * (a * b) + (r * a + s)
    ensures (r + 1) * a == r * a + a
  {
    calc {
      (q * b + r) * a + s;
      q * b * a + r * a + s;
      q * (a * b) + (r * a + s);
    }
  }

  lemma Eight(n: U64)
    ensures LeBytes(n, 8) == Le8(n)
  {
    Widths();
    Split(n, 4, 4);
    LowFour(n);
    Four(n % 0x1_0000_0000);
    Four(n / 0x1_0000_0000);
    hide LeBytes, Pow;
  }

  lemma LowFour(n: nat)
    ensures LeBytes(n, 4) == LeBytes(n % 0x1_0000_0000, 4)
  {
    var m := n % 0x1_0000_0000;
    Widths();
    DivMod(n, 0x1_0000_0000);
    LeLow(n / 0x1_0000_0000, m, 4);
  }

  /** The low k bytes do not see what lies above them. */
  lemma {:induction false} LeLow(q: nat, m: nat, k: nat)
    ensures LeBytes(q * Pow(256, k) + m, k) == LeBytes(m, k)
    decreases k
  {
    if k > 0 {
      var n := q * Pow(256, k) + m;
      LowDigit(q, Pow(256, k - 1), m);
      LeLow(q, m / 256, k - 1);
    }
  }

  lemma LowDigit(q: nat, p: nat, m: nat)
    ensures (q * (256 * p) + m) % 256 == m % 256 && (q * (256 * p) + m) / 256 == q * p + m / 256
  {
    DivMod(m, 256);
    Factor(q, p, m / 256, m % 256);
    DivModUnique(q * p + m / 256, m % 256, 256);
  }

  lemma Factor(q: nat, p: nat, a: nat, b: nat)
    ensures q * (256 * p) + (a * 256 + b) == (q * p + a) * 256 + b
  {
    calc {
      q * (256 * p);
      q * 256 * p;
      256 * (q * p);
    }
  }

  // ---------------------------------------------------------------- frames

  /** Two bytes of extension, the type, three bytes of length, low bytes first. */
  lemma HeaderExact(ext: U16, msgType: Byte, length: nat)
    requires length <= 0xFF_FFFF
    ensures HeaderBytes(ext, msgType, length)
         == [ext % 256, ext / 256, msgType, length % 256, length / 256 % 256, length / 0x1_0000]
  {
    Two(ext);
    Shifts(length);
    assert LeBytes(length / 256 / 256, 1) == [length / 256 / 256 % 256] + LeBytes(length / 256 / 256 / 256, 0);
    assert LeBytes(length / 256, 2) == [length / 256 % 256] + LeBytes(length / 256 / 256, 1);
    assert LeBytes(length, 3) == [length % 256] + LeBytes(length / 256, 2);
  }

  /** The second header byte, which has the channel bit, and the third, which is the type. */
  predicate Marked(m: Message, flag: Byte, msgType: Byte)
  {
    match m
    case SetupConnection(_, _, _, _, _, _, _, _, _) => flag == 0x00 && msgType == 0x00
    case SetupConnectionSuccess(_, _) => flag == 0x00 && msgType == 0x01
    case SetupConnectionError(_, _) => flag == 0x00 && msgType == 0x02
    case OpenMiningChannel(_, _, _, _) => flag == 0x00 && msgType == 0x10
    case OpenMiningChannelSuccess(_, _, _, _, _) => flag == 0x00 && msgType == 0x11
    case OpenMiningChannelError(_, _) => flag == 0x00 && msgType == 0x12
    case JobMessage(_) => flag == 0x80 && msgType == 0x15
    case CloseChannel(_, _) => flag == 0x80 && msgType == 0x18
    case SubmitSharesStandard(_, _, _, _, _, _) => flag == 0x80 && msgType == 0x1a
    case SubmitSharesSuccess(_, _, _, _) => flag == 0x80 && msgType == 0x1c
    case SubmitSharesError(_, _, _) => flag == 0x80 && msgType == 0x1d
    case TipMessage(_) => flag == 0x80 && msgType == 0x20
    case SetTarget(_, _) => flag == 0x80 && msgType == 0x21
    case Unknown(t, _) => flag == 0x00 && msgType == t
  }

  lemma FrameExact(m: Message)
    requires Framed(m).Ok?
    ensures var b := Framed(m).value;
            && Payload(m).Ok? && |b| == 6 + |Payload(m).value| && b[6..] == Payload(m).value
            && b[0] == 0 && Marked(m, b[1], b[2])
            && b[3] as int + 0x100 * (b[4] as int) + 0x1_0000 * (b[5] as int) == |Payload(m).value|
  {
    hide Payload, HeaderBytes;
    var p := Payload(m).value;
    HeaderExact(if ChannelScoped(m) then CHANNEL_BIT else 0, TypeOf(m), |p|);
    ThreeBytes(|p|);
    hide Marked, TypeOf, ChannelScoped;
    MarkedAs(m);
    var b, h := Framed(m).value, HeaderBytes(if ChannelScoped(m) then CHANNEL_BIT else 0, TypeOf(m), |p|);
    assert b == h + p && b[6..] == p;
    assert forall i :: 0 <= i < 6 ==> b[i] == h[i];
  }

  lemma MarkedAs(m: Message)
    ensures Marked(m, if ChannelScoped(m) then 0x80 else 0x00, TypeOf(m))
  {
  }

  lemma ThreeBytes(n: nat)
    requires n <= 0xFF_FFFF
    ensures n % 256 + 0x100 * (n / 256 % 256) + 0x1_0000 * (n / 0x1_0000) == n
  {
  }

  /** A frame is written if its payload is at most 2^24 - 1 bytes, and at least four with the channel bit set. */
  lemma FrameLimits(f: Frame)
    ensures EncodeFrame(f).Ok? <==> |f.payload| <= 0xFF_FFFF && (f.ext >= 0x8000 ==> |f.payload| >= 4)
    ensures |f.payload| > 0xFF_FFFF ==> EncodeFrame(f) == Err(FrameTooLarge)
    ensures Readable(f) <==> |f.payload| <= 0xFF_FFFA
  {
  }

  // ---------------------------------------------------------------- payloads

  /** The length-prefixed texts of a message, and its extranonce. */
  function Texts(m: Message): seq<Bytes>
  {
    match m
    case SetupConnection(_, _, _, _, e, v, h, f, d) => [e, v, h, f, d]
    case SetupConnectionError(_, e) => [e]
    case OpenMiningChannel(_, u, _, _) => [u]
    case OpenMiningChannelError(_, e) => [e]
    case CloseChannel(_, r) => [r]
    case SubmitSharesError(_, _, e) => [e]
    case _ => []
  }

  /** The encoders refuse exactly a text over 255 bytes and an extranonce over 32. */
  lemma EncodableIff(m: Message)
    ensures Encodable(m) <==> (forall i :: 0 <= i < |Texts(m)| ==> |Texts(m)[i]| <= 255)
                              && (m.OpenMiningChannelSuccess? ==> |m.extranonce| <= 32)
  {
    var t := Texts(m);
    if m.SetupConnection? {
      assert t[0] == m.endpoint && t[1] == m.vendor && t[2] == m.hardware && t[3] == m.firmware && t[4] == m.deviceId;
    } else if |t| == 1 {
      assert Encodable(m) <==> |t[0]| <= 255;
    }
  }

  /** The fields of a message, in order, each as its bytes. */
  function Fields(m: Message): seq<Bytes>
    requires Encodable(m)
  {
    match m
    case SetupConnection(p, lo, hi, flags, e, v, h, f, d) =>
      [[p], Le2(lo), Le2(hi), Le4(flags), Counted(e), Counted(v), Counted(h), Counted(f), Counted(d)]
    case SetupConnectionSuccess(v, flags) => [Le2(v), Le4(flags)]
    case SetupConnectionError(flags, e) => [Le4(flags), Counted(e)]
    case OpenMiningChannel(r, u, h, t) => [Le4(r), Counted(u), Le4(h), t]
    case OpenMiningChannelSuccess(r, c, t, x, g) => [Le4(r), Le4(c), t, Counted(x), Le4(g)]
    case OpenMiningChannelError(r, e) => [Le4(r), Counted(e)]
    case JobMessage(j) =>
      if j.hasNtimeStart
      then [Le4(j.channelId), Le4(j.jobId), [1], Le4(j.ntimeStart), Le4(j.version), j.merkleRoot]
      else [Le4(j.channelId), Le4(j.jobId), [0], Le4(j.version), j.merkleRoot]
    case CloseChannel(c, r) => [Le4(c), Counted(r)]
    case SubmitSharesStandard(c, s, j, n, t, v) => [Le4(c), Le4(s), Le4(j), Le4(n), Le4(t), Le4(v)]
    case SubmitSharesSuccess(c, l, a, s) => [Le4(c), Le4(l), Le4(a), Le8(s)]
    case SubmitSharesError(c, s, e) => [Le4(c), Le4(s), Counted(e)]
    case TipMessage(p) => [Le4(p.channelId), Le4(p.jobId), p.prevHash, Le4(p.ntimeStart), Le4(p.nBits)]
    case SetTarget(c, t) => [Le4(c), t]
    case Unknown(_, p) => [p]
  }

  /** A record is its fields, one after the other. */
  lemma {:induction false} PutAllConcat(ks: seq<Kind>, vs: seq<Value>, parts: seq<Bytes>)
    requires FitAll(ks, vs) && |parts| == |ks| && forall i :: 0 <= i < |ks| ==> parts[i] == Put(ks[i], vs[i])
    ensures PutAll(ks, vs) == Concat(parts)
  {
    hide Put, Fits;
    if |ks| > 0 {
      PutAllConcat(ks[1..], vs[1..], parts[1..]);
    }
  }

  lemma Put4(n: U32)
    ensures Fits(U32F, N(n)) && Put(U32F, N(n)) == Le4(n)
  {
    Widths();
    Four(n);
    hide LeBytes, Pow;
  }

  lemma Put2(n: U16)
    ensures Fits(U16F, N(n)) && Put(U16F, N(n)) == Le2(n)
  {
    Widths();
    Two(n);
    hide LeBytes, Pow;
  }

  lemma Put8(n: U64)
    ensures Fits(U64F, N(n)) && Put(U64F, N(n)) == Le8(n)
  {
    Widths();
    Eight(n);
    hide LeBytes, Pow;
  }

  lemma Put1(n: Byte)
    ensures Fits(U8, N(n)) && Put(U8, N(n)) == [n]
  {
    Widths();
    assert LeBytes(n / 256, 0) == [];
    hide Pow;
  }

  lemma SetupExact(m: Message)
    requires Encodable(m) && (m.SetupConnection? || m.SetupConnectionSuccess? || m.SetupConnectionError?)
    ensures Payload(m) == Ok(Concat(Fields(m)))
  {
    ContentsFit(m);
    hide LeBytes, Pow, PutAll, Concat, Le2, Le4;
    match m
    case SetupConnection(p, lo, hi, flags, e, v, h, f, d) =>
      Put1(p);
      Put2(lo);
      Put2(hi);
      Put4(flags);
      PutAllConcat(Layout(m), Contents(m), Fields(m));
    case SetupConnectionSuccess(v, flags) =>
      Put2(v);
      Put4(flags);
      PutAllConcat(Layout(m), Contents(m), Fields(m));
    case SetupConnectionError(flags, e) =>
      Put4(flags);
      PutAllConcat(Layout(m), Contents(m), Fields(m));
    case _ =>
  }

  lemma OpenExact(m: Message)
    requires Encodable(m) && (m.OpenMiningChannel? || m.OpenMiningChannelSuccess? || m.OpenMiningChannelError?)
    ensures Payload(m) == Ok(Concat(Fields(m)))
  {
    ContentsFit(m);
    hide LeBytes, Pow, PutAll, Concat, Le4;
    match m
    case OpenMiningChannel(r, u, h, t) =>
      Put4(r);
      Put4(h);
      PutAllConcat(Layout(m), Contents(m), Fields(m));
    case OpenMiningChannelSuccess(r, c, t, x, g) =>
      Put4(r);
      Put4(c);
      Put4(g);
      PutAllConcat(Layout(m), Contents(m), Fields(m));
    case OpenMiningChannelError(r, e) =>
      Put4(r);
      PutAllConcat(Layout(m), Contents(m), Fields(m));
    case _ =>
  }

  lemma JobExact(j: NewMiningJob)
    ensures Payload(JobMessage(j)) == Ok(Concat(Fields(JobMessage(j))))
  {
    var m := JobMessage(j);
    ContentsFit(m);
    hide LeBytes, Pow, PutAll, Concat, Le4;
    Put4(j.channelId);
    Put4(j.jobId);
    Put4(j.version);
    if j.hasNtimeStart {
      Put1(1);
      Put4(j.ntimeStart);
      PutAllConcat(Layout(m), Contents(m), Fields(m));
    } else {
      Put1(0);
      PutAllConcat(Layout(m), Contents(m), Fields(m));
    }
  }

  lemma SubmitExact(m: Message)
    requires m.SubmitSharesStandard?
    ensures Payload(m) == Ok(Concat(Fields(m)))
  {
    ContentsFit(m);
    hide LeBytes, Pow, PutAll, Concat, Le4;
    Put4(m.channelId);
    Put4(m.sequence);
    Put4(m.jobId);
    Put4(m.nonce);
    Put4(m.ntime);
    Put4(m.version);
    PutAllConcat(Layout(m), Contents(m), Fields(m));
  }

  lemma VerdictExact(m: Message)
    requires Encodable(m) && (m.SubmitSharesSuccess? || m.SubmitSharesError?)
    ensures Payload(m) == Ok(Concat(Fields(m)))
  {
    ContentsFit(m);
    hide LeBytes, Pow, PutAll, Concat, Le4, Le8;
    match m
    case SubmitSharesSuccess(c, l, a, s) =>
      Put4(c);
      Put4(l);
      Put4(a);
      Put8(s);
      PutAllConcat(Layout(m), Contents(m), Fields(m));
    case SubmitSharesError(c, s, e) =>
      Put4(c);
      Put4(s);
      PutAllConcat(Layout(m), Contents(m), Fields(m));
    case _ =>
  }

  lemma ChannelExact(m: Message)
    requires Encodable(m) && (m.CloseChannel? || m.TipMessage? || m.SetTarget?)
    ensures Payload(m) == Ok(Concat(Fields(m)))
  {
    ContentsFit(m);
    hide LeBytes, Pow, PutAll, Concat, Le4;
    match m
    case CloseChannel(c, r) =>
      Put4(c);
      PutAllConcat(Layout(m), Contents(m), Fields(m));
    case TipMessage(p) =>
      Put4(p.channelId);
      Put4(p.jobId);
      Put4(p.ntimeStart);
      Put4(p.nBits);
      PutAllConcat(Layout(m), Contents(m), Fields(m));
    case SetTarget(c, t) =>
      Put4(c);
      PutAllConcat(Layout(m), Contents(m), Fields(m));
    case _ =>
  }

  /** Every message the encoders accept is exactly these bytes; every other is refused. */
  lemma PayloadExact(m: Message)
    ensures Payload(m) == if Encodable(m) then Ok(Concat(Fields(m))) else Err(FieldTooLong)
  {
    if Encodable(m) {
      hide Payload, Fields;
      match m
      case SetupConnection(_, _, _, _, _, _, _, _, _) => SetupExact(m);
      case SetupConnectionSuccess(_, _) => SetupExact(m);
      case SetupConnectionError(_, _) => SetupExact(m);
      case OpenMiningChannel(_, _, _, _) => OpenExact(m);
      case OpenMiningChannelSuccess(_, _, _, _, _) => OpenExact(m);
      case OpenMiningChannelError(_, _) => OpenExact(m);
      case JobMessage(j) => JobExact(j);
      case SubmitSharesStandard(_, _, _, _, _, _) => SubmitExact(m);
      case SubmitSharesSuccess(_, _, _, _) => VerdictExact(m);
      case SubmitSharesError(_, _, _) => VerdictExact(m);
      case CloseChannel(_, _) => ChannelExact(m);
      case TipMessage(_) => ChannelExact(m);
      case SetTarget(_, _) => ChannelExact(m);
      case Unknown(_, p) => UnknownRoundTrip(m); UnknownFields(m);
    }
  }

  lemma UnknownFields(m: Message)
    requires m.Unknown?
    ensures Concat(Fields(m)) == m.payload
  {
    assert Fields(m)[1..] == [] && m.payload + [] == m.payload;
  }

  // ---------------------------------------------------------------- packets

  /** The transport takes at most 65519 bytes at a time: a packet with its tag fits two bytes of length. */
  lemma FittingIff(p: Bytes)
    ensures Fitting(p) <==> |p| <= 65519
  {
  }

  /** An encrypted packet: the length of the ciphertext in two bytes, low first, then the ciphertext. */
  lemma PacketExact(c: Cipher, n: U64, p: Bytes)
    requires Proper(c) && |p| + 16 <= 65535
    ensures Packet(c, n, p) == [(|p| + 16) % 256, (|p| + 16) / 256] + c.seal(n, p)
  {
    assert |c.seal(n, p)| == |p| + 16;
    Two(|p| + 16);
  }
}
