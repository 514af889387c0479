// Stratum V2 wire format: integers, fixed and length-prefixed byte fields, the
// thirteen messages built from them, and the frame around each message.

module Wire {
  import opened Numerals
  import opened LittleEndian
  import opened Results
  import opened Messages

  // ---------------------------------------------------------------- fields

  /** A little-endian integer, raw bytes of known length, or bytes behind a one-byte length. */
  datatype Kind = Uint(width: nat) | Fixed(len: nat) | Text

  datatype Value = N(n: nat) | B(b: Bytes)

  predicate Fits(k: Kind, v: Value)
  {
    match k
    case Uint(w) => v.N? && v.n < Pow(256, w)
    case Fixed(len) => v.B? && |v.b| == len
    case Text => v.B? && |v.b| <= 255
  }

  function Put(k: Kind, v: Value): Bytes
    requires Fits(k, v)
  {
    match k
    case Uint(w) => LeBytes(v.n, w)
    case Fixed(_) => v.b
    case Text => [|v.b|] + v.b
  }

  datatype Reading<T> = Got(value: T, rest: Bytes) | Short

  /** Read one field off the front; Short when the bytes run out. */
  function Get(k: Kind, b: Bytes): (r: Reading<Value>)
    ensures r.Got? ==> Fits(k, r.value) && |r.rest| <= |b|
  {
    match k
    case Uint(w) =>
      if |b| < w then Short else
      LeBytesOfValue(b[..w]);
      Got(N(LeValue(b[..w])), b[w..])
    case Fixed(len) => if |b| < len then Short else Got(B(b[..len]), b[len..])
    case Text =>
      if |b| == 0 then Short else
      var n: nat := b[0];
      if |b| < 1 + n then Short else Got(B(b[1..1 + n]), b[1 + n..])
  }

  lemma GetPut(k: Kind, v: Value, rest: Bytes)
    requires Fits(k, v)
    ensures Get(k, Put(k, v) + rest) == Got(v, rest)
  {
    var b := Put(k, v) + rest;
    match k
    case Uint(w) =>
      assert b[..w] == LeBytes(v.n, w) && b[w..] == rest;
      LeRoundTrip(v.n, w);
    case Fixed(len) => assert b[..len] == v.b && b[len..] == rest;
    case Text => assert b[1..1 + |v.b|] == v.b && b[1 + |v.b|..] == rest;
  }

  predicate FitAll(ks: seq<Kind>, vs: seq<Value>)
  {
    |ks| == |vs| && forall i :: 0 <= i < |ks| ==> Fits(ks[i], vs[i])
  }

  function PutAll(ks: seq<Kind>, vs: seq<Value>): Bytes
    requires FitAll(ks, vs)
  {
    if |ks| == 0 then [] else Put(ks[0], vs[0]) + PutAll(ks[1..], vs[1..])
  }

  function GetAll(ks: seq<Kind>, b: Bytes): (r: Reading<seq<Value>>)
    ensures r.Got? ==> FitAll(ks, r.value)
  {
    if |ks| == 0 then Got([], b) else
    var first := Get(ks[0], b);
    if first.Short? then Short else
    var others := GetAll(ks[1..], first.rest);
    if others.Short? then Short else Got([first.value] + others.value, others.rest)
  }

  /** A record reads back as written, whatever follows it. */
  lemma {:induction false} GetAllPutAll(ks: seq<Kind>, vs: seq<Value>, rest: Bytes)
    requires FitAll(ks, vs)
    ensures GetAll(ks, PutAll(ks, vs) + rest) == Got(vs, rest)
    decreases |ks|
  {
    hide Get, Put, Fits;
    if |ks| == 0 {
      assert PutAll(ks, vs) + rest == rest;
    } else {
      var others := PutAll(ks[1..], vs[1..]);
      assert PutAll(ks, vs) + rest == Put(ks[0], vs[0]) + (others + rest);
      GetPut(ks[0], vs[0], others + rest);
      GetAllPutAll(ks[1..], vs[1..], rest);
      assert vs == [vs[0]] + vs[1..];
    }
  }

  // ---------------------------------------------------------------- messages

  const U8 := Uint(1)
  const U16F := Uint(2)
  const U32F := Uint(4)
  const U64F := Uint(8)
  const B32 := Fixed(32)

  function TypeOf(m: Message): Byte
  {
    match m
    case SetupConnection(_, _, _, _, _, _, _, _, _) => 0x00
    case SetupConnectionSuccess(_, _) => 0x01
    case SetupConnectionError(_, _) => 0x02
    case OpenMiningChannel(_, _, _, _) => 0x10
    case OpenMiningChannelSuccess(_, _, _, _, _) => 0x11
    case OpenMiningChannelError(_, _) => 0x12
    case JobMessage(_) => 0x15
    case CloseChannel(_, _) => 0x18
    case SubmitSharesStandard(_, _, _, _, _, _) => 0x1a
    case SubmitSharesSuccess(_, _, _, _) => 0x1c
    case SubmitSharesError(_, _, _) => 0x1d
    case TipMessage(_) => 0x20
    case SetTarget(_, _) => 0x21
    case Unknown(t, _) => t
  }

  predicate Registered(t: Byte)
  {
    t in {0x00, 0x01, 0x02, 0x10, 0x11, 0x12, 0x15, 0x18, 0x1a, 0x1c, 0x1d, 0x20, 0x21}
  }

  /** Messages addressed to a channel start with its id and say so in the frame header. */
  predicate ChannelScoped(m: Message)
  {
    || m.JobMessage? || m.CloseChannel? || m.SubmitSharesStandard? || m.SubmitSharesSuccess?
    || m.SubmitSharesError? || m.TipMessage? || m.SetTarget?
  }

  /** What the encoders accept: strings up to 255 bytes, an extranonce up to 32. */
  predicate Encodable(m: Message)
  {
    match m
    case SetupConnection(_, _, _, _, e, v, h, f, d) =>
      |e| <= 255 && |v| <= 255 && |h| <= 255 && |f| <= 255 && |d| <= 255
    case SetupConnectionError(_, e) => |e| <= 255
    case OpenMiningChannel(_, u, _, _) => |u| <= 255
    case OpenMiningChannelSuccess(_, _, _, x, _) => |x| <= 32
    case OpenMiningChannelError(_, e) => |e| <= 255
    case CloseChannel(_, r) => |r| <= 255
    case SubmitSharesError(_, _, e) => |e| <= 255
    case _ => true
  }

  function Layout(m: Message): seq<Kind>
  {
    match m
    case SetupConnection(_, _, _, _, _, _, _, _, _) => [U8, U16F, U16F, U32F, Text, Text, Text, Text, Text]
    case SetupConnectionSuccess(_, _) => [U16F, U32F]
    case SetupConnectionError(_, _) => [U32F, Text]
    case OpenMiningChannel(_, _, _, _) => [U32F, Text, U32F, B32]
    case OpenMiningChannelSuccess(_, _, _, _, _) => [U32F, U32F, B32, Text, U32F]
    case OpenMiningChannelError(_, _) => [U32F, Text]
    case JobMessage(j) => if j.hasNtimeStart then [U32F, U32F, U8, U32F, U32F, B32] else [U32F, U32F, U8, U32F, B32]
    case CloseChannel(_, _) => [U32F, Text]
    case SubmitSharesStandard(_, _, _, _, _, _) => [U32F, U32F, U32F, U32F, U32F, U32F]
    case SubmitSharesSuccess(_, _, _, _) => [U32F, U32F, U32F, U64F]
    case SubmitSharesError(_, _, _) => [U32F, U32F, Text]
    case TipMessage(_) => [U32F, U32F, B32, U32F, U32F]
    case SetTarget(_, _) => [U32F, B32]
    case Unknown(_, p) => [Fixed(|p|)]
  }

  function Contents(m: Message): seq<Value>
  {
    match m
    case SetupConnection(p, lo, hi, fl, e, v, h, f, d) => [N(p), N(lo), N(hi), N(fl), B(e), B(v), B(h), B(f), B(d)]
    case SetupConnectionSuccess(v, fl) => [N(v), N(fl)]
    case SetupConnectionError(fl, e) => [N(fl), B(e)]
    case OpenMiningChannel(r, u, h, t) => [N(r), B(u), N(h), B(t)]
    case OpenMiningChannelSuccess(r, c, t, x, g) => [N(r), N(c), B(t), B(x), N(g)]
    case OpenMiningChannelError(r, e) => [N(r), B(e)]
    case JobMessage(j) =>
      if j.hasNtimeStart
      then [N(j.channelId), N(j.jobId), N(1), N(j.ntimeStart), N(j.version), B(j.merkleRoot)]
      else [N(j.channelId), N(j.jobId), N(0), N(j.version), B(j.merkleRoot)]
    case CloseChannel(c, r) => [N(c), B(r)]
    case SubmitSharesStandard(c, s, j, n, t, v) => [N(c), N(s), N(j), N(n), N(t), N(v)]
    case SubmitSharesSuccess(c, l, a, s) => [N(c), N(l), N(a), N(s)]
    case SubmitSharesError(c, s, e) => [N(c), N(s), B(e)]
    case TipMessage(p) => [N(p.channelId), N(p.jobId), B(p.prevHash), N(p.ntimeStart), N(p.nBits)]
    case SetTarget(c, t) => [N(c), B(t)]
    case Unknown(_, p) => [B(p)]
  }

  lemma ContentsFit(m: Message)
    requires Encodable(m)
    ensures FitAll(Layout(m), Contents(m))
  {
    Widths();
    hide Pow;
  }

  datatype WireError = FieldTooLong | TooShort | BadOptionCount | FrameTooLarge | ChannelPayloadTooShort

  /** The encoders: the fields in wire order. */
  function Payload(m: Message): Result<Bytes, WireError>
  {
    if !Encodable(m) then Err(FieldTooLong) else
    ContentsFit(m);
    Ok(PutAll(Layout(m), Contents(m)))
  }

  function DecodeSetupConnection(p: Bytes): Result<Message, WireError>
  {
    var r := GetAll([U8, U16F, U16F, U32F, Text, Text, Text, Text, Text], p);
    if r.Short? then Err(TooShort) else
    Widths();
    var v := r.value;
    Ok(SetupConnection(v[0].n, v[1].n, v[2].n, v[3].n, v[4].b, v[5].b, v[6].b, v[7].b, v[8].b))
  }

  function DecodeSetupConnectionSuccess(p: Bytes): Result<Message, WireError>
  {
    var r := GetAll([U16F, U32F], p);
    if r.Short? then Err(TooShort) else
    Widths();
    Ok(SetupConnectionSuccess(r.value[0].n, r.value[1].n))
  }

  function DecodeSetupConnectionError(p: Bytes): Result<Message, WireError>
  {
    var r := GetAll([U32F, Text], p);
    if r.Short? then Err(TooShort) else
    Widths();
    Ok(SetupConnectionError(r.value[0].n, r.value[1].b))
  }

  function DecodeOpenMiningChannel(p: Bytes): Result<Message, WireError>
  {
    var r := GetAll([U32F, Text, U32F, B32], p);
    if r.Short? then Err(TooShort) else
    Widths();
    var v := r.value;
    Ok(OpenMiningChannel(v[0].n, v[1].b, v[2].n, v[3].b))
  }

  /** The extranonce is read leniently, up to 255 bytes. */
  function DecodeOpenMiningChannelSuccess(p: Bytes): Result<Message, WireError>
  {
    var r := GetAll([U32F, U32F, B32, Text, U32F], p);
    if r.Short? then Err(TooShort) else
    Widths();
    var v := r.value;
    Ok(OpenMiningChannelSuccess(v[0].n, v[1].n, v[2].b, v[3].b, v[4].n))
  }

  /** A payload that ends before the text has an empty one. */
  function TrailingText(b: Bytes): Result<Bytes, WireError>
  {
    if |b| == 0 then Ok([]) else
    var r := Get(Text, b);
    if r.Short? then Err(TooShort) else Ok(r.value.b)
  }

  function DecodeOpenMiningChannelError(p: Bytes): Result<Message, WireError>
  {
    var r := GetAll([U32F], p);
    if r.Short? then Err(TooShort) else
    Widths();
    var e := TrailingText(r.rest);
    if e.Err? then Err(e.error) else Ok(OpenMiningChannelError(r.value[0].n, e.value))
  }

  /** A minimum length first, then the option count of ntime, then whichever layout it announces. */
  function DecodeNewMiningJob(p: Bytes): Result<Message, WireError>
  {
    if |p| < 45 then Err(TooShort) else
    var r := GetAll([U32F, U32F, U8], p);
    if r.Short? then Err(TooShort) else
    Widths();
    var v := r.value;
    if v[2].n == 0 then
      var s := GetAll([U32F, B32], r.rest);
      if s.Short? then Err(TooShort)
      else Ok(JobMessage(NewMiningJob(v[0].n, v[1].n, false, 0, s.value[0].n, s.value[1].b)))
    else if v[2].n == 1 then
      var s := GetAll([U32F, U32F, B32], r.rest);
      if s.Short? then Err(TooShort)
      else Ok(JobMessage(NewMiningJob(v[0].n, v[1].n, true, s.value[0].n, s.value[1].n, s.value[2].b)))
    else Err(BadOptionCount)
  }

  function DecodeCloseChannel(p: Bytes): Result<Message, WireError>
  {
    var r := GetAll([U32F, Text], p);
    if r.Short? then Err(TooShort) else
    Widths();
    Ok(CloseChannel(r.value[0].n, r.value[1].b))
  }

  function DecodeSubmitSharesStandard(p: Bytes): Result<Message, WireError>
  {
    var ks := [U32F, U32F, U32F, U32F, U32F, U32F];
    var r := GetAll(ks, p);
    if r.Short? then Err(TooShort) else
    Widths();
    var v := r.value;
    assert Fits(ks[5], v[5]);
    Ok(SubmitSharesStandard(v[0].n, v[1].n, v[2].n, v[3].n, v[4].n, v[5].n))
  }

  function DecodeSubmitSharesSuccess(p: Bytes): Result<Message, WireError>
  {
    var r := GetAll([U32F, U32F, U32F, U64F], p);
    if r.Short? then Err(TooShort) else
    Widths();
    var v := r.value;
    Ok(SubmitSharesSuccess(v[0].n, v[1].n, v[2].n, v[3].n))
  }

  function DecodeSubmitSharesError(p: Bytes): Result<Message, WireError>
  {
    var r := GetAll([U32F, U32F], p);
    if r.Short? then Err(TooShort) else
    Widths();
    var e := TrailingText(r.rest);
    if e.Err? then Err(e.error) else Ok(SubmitSharesError(r.value[0].n, r.value[1].n, e.value))
  }

  function DecodeSetNewPrevHash(p: Bytes): Result<Message, WireError>
  {
    var r := GetAll([U32F, U32F, B32, U32F, U32F], p);
    if r.Short? then Err(TooShort) else
    Widths();
    var v := r.value;
    Ok(TipMessage(SetNewPrevHash(v[0].n, v[1].n, v[2].b, v[3].n, v[4].n)))
  }

  function DecodeSetTarget(p: Bytes): Result<Message, WireError>
  {
    var r := GetAll([U32F, B32], p);
    if r.Short? then Err(TooShort) else
    Widths();
    Ok(SetTarget(r.value[0].n, r.value[1].b))
  }

  /** DispatchFrame: decode by message type; an unregistered type passes through. */
  function Dispatch(t: Byte, p: Bytes): Result<Message, WireError>
  {
    match t
    case 0x00 => DecodeSetupConnection(p)
    case 0x01 => DecodeSetupConnectionSuccess(p)
    case 0x02 => DecodeSetupConnectionError(p)
    case 0x10 => DecodeOpenMiningChannel(p)
    case 0x11 => DecodeOpenMiningChannelSuccess(p)
    case 0x12 => DecodeOpenMiningChannelError(p)
    case 0x15 => DecodeNewMiningJob(p)
    case 0x18 => DecodeCloseChannel(p)
    case 0x1a => DecodeSubmitSharesStandard(p)
    case 0x1c => DecodeSubmitSharesSuccess(p)
    case 0x1d => DecodeSubmitSharesError(p)
    case 0x20 => DecodeSetNewPrevHash(p)
    case 0x21 => DecodeSetTarget(p)
    case _ => Ok(Unknown(t, p))
  }

  // ---------------------------------------------------------------- message round trips

  /** An absent ntime carries no value, and an unknown message does not borrow a known type. */
  predicate Canonical(m: Message)
  {
    && (m.JobMessage? && !m.job.hasNtimeStart ==> m.job.ntimeStart == 0)
    && (m.Unknown? ==> !Registered(m.msgType))
  }

  lemma WholeRecord(ks: seq<Kind>, vs: seq<Value>)
    requires FitAll(ks, vs)
    ensures GetAll(ks, PutAll(ks, vs)) == Got(vs, [])
  {
    hide GetAll;
    GetAllPutAll(ks, vs, []);
    assert PutAll(ks, vs) + [] == PutAll(ks, vs);
  }

  lemma {:induction false} SplitRecord(ks: seq<Kind>, vs: seq<Value>, ls: seq<Kind>, ws: seq<Value>)
    requires FitAll(ks, vs) && FitAll(ls, ws)
    ensures FitAll(ks + ls, vs + ws) && PutAll(ks + ls, vs + ws) == PutAll(ks, vs) + PutAll(ls, ws)
    decreases |ks|
  {
    hide Put, Fits;
    if |ks| == 0 {
      assert ks + ls == ls && vs + ws == ws;
    } else {
      assert (ks + ls)[1..] == ks[1..] + ls && (vs + ws)[1..] == vs[1..] + ws;
      SplitRecord(ks[1..], vs[1..], ls, ws);
    }
  }

  /** Head and tail of a record are read one after the other. */
  lemma ReadParts(ks: seq<Kind>, vs: seq<Value>, ls: seq<Kind>, ws: seq<Value>)
    requires FitAll(ks, vs) && FitAll(ls, ws)
    ensures FitAll(ks + ls, vs + ws)
    ensures GetAll(ks, PutAll(ks + ls, vs + ws)) == Got(vs, PutAll(ls, ws))
    ensures GetAll(ls, PutAll(ls, ws)) == Got(ws, [])
  {
    hide GetAll, PutAll, Fits;
    SplitRecord(ks, vs, ls, ws);
    GetAllPutAll(ks, vs, PutAll(ls, ws));
    WholeRecord(ls, ws);
  }

  /** A job reads back, except that an absent ntime loses whatever value was parked in it. */
  lemma JobRoundTrip(j: NewMiningJob)
    ensures DecodeNewMiningJob(Payload(JobMessage(j)).value)
         == Ok(JobMessage(if j.hasNtimeStart then j else j.(ntimeStart := 0)))
  {
    var m := JobMessage(j);
    ContentsFit(m);
    JobLength(j);
    hide Pow, Fits, Get, Put, PutAll, GetAll;
    var ks, vs := [U32F, U32F, U8], [N(j.channelId), N(j.jobId), N(if j.hasNtimeStart then 1 else 0)];
    if j.hasNtimeStart {
      var ls, ws := [U32F, U32F, B32], [N(j.ntimeStart), N(j.version), B(j.merkleRoot)];
      assert Layout(m) == ks + ls && Contents(m) == vs + ws;
      FitParts(ks, vs, ls, ws);
      ReadParts(ks, vs, ls, ws);
    } else {
      var ls, ws := [U32F, B32], [N(j.version), B(j.merkleRoot)];
      assert Layout(m) == ks + ls && Contents(m) == vs + ws;
      FitParts(ks, vs, ls, ws);
      ReadParts(ks, vs, ls, ws);
    }
  }

  lemma FitParts(ks: seq<Kind>, vs: seq<Value>, ls: seq<Kind>, ws: seq<Value>)
    requires |ks| == |vs| && FitAll(ks + ls, vs + ws)
    ensures FitAll(ks, vs) && FitAll(ls, ws)
  {
    hide Fits;
    forall i | 0 <= i < |ks| ensures Fits(ks[i], vs[i]) {
      assert Fits((ks + ls)[i], (vs + ws)[i]);
    }
    forall i | 0 <= i < |ls| ensures Fits(ls[i], ws[i]) {
      assert Fits((ks + ls)[|ks| + i], (vs + ws)[|ks| + i]);
    }
  }

  lemma JobLength(j: NewMiningJob)
    requires FitAll(Layout(JobMessage(j)), Contents(JobMessage(j)))
    ensures |PutAll(Layout(JobMessage(j)), Contents(JobMessage(j)))| >= 45
  {
    var k0, v0 := Layout(JobMessage(j)), Contents(JobMessage(j));
    PayloadLength(k0, v0);
    hide Pow;
    var k1, v1 := k0[1..], v0[1..];
    var k2, v2 := k1[1..], v1[1..];
    var k3, v3 := k2[1..], v2[1..];
    assert TotalSize(k0, v0) == 4 + TotalSize(k1, v1);
    assert TotalSize(k1, v1) == 4 + TotalSize(k2, v2);
    assert TotalSize(k2, v2) == 1 + TotalSize(k3, v3);
    var k4, v4 := k3[1..], v3[1..];
    var k5, v5 := k4[1..], v4[1..];
    assert TotalSize(k3, v3) == 4 + TotalSize(k4, v4);
    if j.hasNtimeStart {
      assert TotalSize(k4, v4) == 4 + TotalSize(k5, v5) && TotalSize(k5, v5) == 32;
    } else {
      assert TotalSize(k4, v4) == 32;
    }
  }

  function Size(k: Kind, v: Value): nat
    requires Fits(k, v)
  {
    match k
    case Uint(w) => w
    case Fixed(len) => len
    case Text => 1 + |v.b|
  }

  function TotalSize(ks: seq<Kind>, vs: seq<Value>): nat
    requires FitAll(ks, vs)
  {
    if |ks| == 0 then 0 else Size(ks[0], vs[0]) + TotalSize(ks[1..], vs[1..])
  }

  lemma {:induction false} PayloadLength(ks: seq<Kind>, vs: seq<Value>)
    requires FitAll(ks, vs)
    ensures |PutAll(ks, vs)| == TotalSize(ks, vs)
  {
    if |ks| > 0 {
      PayloadLength(ks[1..], vs[1..]);
    }
  }

  lemma TextRoundTrip(ks: seq<Kind>, vs: seq<Value>, text: Bytes)
    requires FitAll(ks, vs) && |text| <= 255
    ensures FitAll(ks + [Text], vs + [B(text)])
    ensures var r := GetAll(ks, PutAll(ks + [Text], vs + [B(text)]));
            r.Got? && r.value == vs && TrailingText(r.rest) == Ok(text)
  {
    ReadParts(ks, vs, [Text], [B(text)]);
    GetPut(Text, B(text), []);
    assert PutAll([Text], [B(text)]) == Put(Text, B(text)) + [];
  }

  lemma ErrorTextRoundTrip(m: Message)
    requires Encodable(m) && (m.OpenMiningChannelError? || m.SubmitSharesError?)
    ensures Dispatch(TypeOf(m), Payload(m).value) == Ok(m)
  {
    ContentsFit(m);
    hide Pow, Fits, Get, Put, PutAll, GetAll, TrailingText;
    if m.OpenMiningChannelError? {
      var ks, vs := [U32F], [N(m.reqId)];
      assert Layout(m) == ks + [Text] && Contents(m) == vs + [B(m.error)];
      FitParts(ks, vs, [Text], [B(m.error)]);
      TextRoundTrip(ks, vs, m.error);
    } else {
      var ks, vs := [U32F, U32F], [N(m.channelId), N(m.sequence)];
      assert Layout(m) == ks + [Text] && Contents(m) == vs + [B(m.error)];
      FitParts(ks, vs, [Text], [B(m.error)]);
      TextRoundTrip(ks, vs, m.error);
    }
  }

  predicate HandshakeRecord(m: Message)
  {
    || m.SetupConnection? || m.SetupConnectionSuccess? || m.SetupConnectionError?
    || m.OpenMiningChannel? || m.OpenMiningChannelSuccess?
  }

  predicate MiningRecord(m: Message)
  {
    || m.CloseChannel? || m.SubmitSharesStandard? || m.SubmitSharesSuccess? || m.TipMessage? || m.SetTarget?
  }

  lemma HandshakeRoundTrip(m: Message)
    requires Encodable(m) && HandshakeRecord(m)
    ensures Dispatch(TypeOf(m), Payload(m).value) == Ok(m)
  {
    ContentsFit(m);
    hide Pow, Fits, Get, Put, PutAll, GetAll;
    WholeRecord(Layout(m), Contents(m));
  }

  lemma ShareRoundTrip(m: Message)
    requires Encodable(m) && (m.SubmitSharesStandard? || m.SubmitSharesSuccess?)
    ensures Dispatch(TypeOf(m), Payload(m).value) == Ok(m)
  {
    ContentsFit(m);
    hide Pow, Fits, Get, Put, PutAll, GetAll;
    WholeRecord(Layout(m), Contents(m));
  }

  lemma ChannelRoundTrip(m: Message)
    requires Encodable(m) && (m.CloseChannel? || m.TipMessage? || m.SetTarget?)
    ensures Dispatch(TypeOf(m), Payload(m).value) == Ok(m)
  {
    ContentsFit(m);
    hide Pow, Fits, Get, Put, PutAll, GetAll;
    WholeRecord(Layout(m), Contents(m));
  }

  lemma RecordRoundTrip(m: Message)
    requires Encodable(m) && MiningRecord(m)
    ensures Dispatch(TypeOf(m), Payload(m).value) == Ok(m)
  {
    hide Dispatch, Payload;
    if m.SubmitSharesStandard? || m.SubmitSharesSuccess? {
      ShareRoundTrip(m);
    } else {
      ChannelRoundTrip(m);
    }
  }

  lemma UnknownRoundTrip(m: Message)
    requires m.Unknown?
    ensures Payload(m) == Ok(m.payload)
    ensures Dispatch(m.msgType, m.payload) == Ok(m) <==> !Registered(m.msgType)
  {
    ContentsFit(m);
    assert PutAll(Layout(m), Contents(m)) == m.payload + [] == m.payload;
    hide GetAll, Get;
  }

  /** Every message the encoders accept decodes to itself, exactly when it is in canonical form. */
  lemma MessageRoundTrip(m: Message)
    requires Encodable(m)
    ensures Payload(m).Ok?
    ensures Dispatch(TypeOf(m), Payload(m).value) == Ok(m) <==> Canonical(m)
  {
    hide DecodeNewMiningJob, Payload;
    PayloadOk(m);
    if m.JobMessage? {
      JobRoundTrip(m.job);
    } else if m.Unknown? {
      UnknownRoundTrip(m);
    } else if m.OpenMiningChannelError? || m.SubmitSharesError? {
      ErrorTextRoundTrip(m);
    } else if HandshakeRecord(m) {
      HandshakeRoundTrip(m);
    } else {
      RecordRoundTrip(m);
    }
  }

  lemma PayloadOk(m: Message)
    ensures Payload(m).Ok? <==> Encodable(m)
  {
  }

  function ChannelIdOf(m: Message): U32
    requires ChannelScoped(m)
  {
    match m
    case JobMessage(j) => j.channelId
    case TipMessage(p) => p.channelId
    case _ => m.channelId
  }

  /** A channel-scoped payload starts with its channel id, so the frame can be routed undecoded. */
  lemma ChannelIdLeads(m: Message)
    requires Encodable(m) && ChannelScoped(m)
    ensures var p := Payload(m).value; |p| >= 4 && LeValue(p[..4]) == ChannelIdOf(m)
  {
    ContentsFit(m);
    Widths();
    hide Pow;
    var ks, vs, p := Layout(m), Contents(m), Payload(m).value;
    LeRoundTrip(ChannelIdOf(m), 4);
    assert p == Put(ks[0], vs[0]) + PutAll(ks[1..], vs[1..]);
    assert Put(ks[0], vs[0]) == LeBytes(ChannelIdOf(m), 4);
    hide LeBytes, LeValue;
    assert p[..4] == LeBytes(ChannelIdOf(m), 4);
  }

  // ---------------------------------------------------------------- frames

  const HEADER := 6
  const MAX_LENGTH := 0xFF_FFFF
  const MAX_FRAME := 0x100_0000
  const CHANNEL_BIT := 0x8000

  datatype Frame = Frame(ext: U16, msgType: Byte, payload: Bytes)

  predicate ChannelFlag(ext: U16)
  {
    ext >= CHANNEL_BIT
  }

  /** A payload fits the 24-bit length, and a channel frame has room for the channel id. */
  predicate ValidLength(ext: U16, length: nat)
  {
    length <= MAX_LENGTH && (ChannelFlag(ext) ==> length >= 4)
  }

  function HeaderBytes(ext: U16, msgType: Byte, length: nat): (b: Bytes)
    ensures |b| == HEADER
  {
    LeBytes(ext, 2) + [msgType] + LeBytes(length, 3)
  }

  function EncodeFrame(f: Frame): Result<Bytes, WireError>
  {
    if |f.payload| > MAX_LENGTH then Err(FrameTooLarge)
    else if !ValidLength(f.ext, |f.payload|) then Err(ChannelPayloadTooShort)
    else Ok(HeaderBytes(f.ext, f.msgType, |f.payload|) + f.payload)
  }

  datatype Header = Header(ext: U16, msgType: Byte, length: nat)

  function DecodeHeader(b: Bytes): (h: Header)
    requires |b| == HEADER
  {
    LeBytesOfValue(b[..2]);
    Widths();
    Header(LeValue(b[..2]), b[2], LeValue(b[3..]))
  }

  lemma HeaderRoundTrip(ext: U16, msgType: Byte, length: nat)
    requires length <= MAX_LENGTH
    ensures DecodeHeader(HeaderBytes(ext, msgType, length)) == Header(ext, msgType, length)
  {
    Widths();
    var b := HeaderBytes(ext, msgType, length);
    assert b[..2] == LeBytes(ext, 2) && b[3..] == LeBytes(length, 3);
    LeRoundTrip(ext, 2);
    LeRoundTrip(length, 3);
  }

  /** ReadFrame on a byte stream: header, checks, then exactly the announced payload. */
  function ParseFrame(b: Bytes): Result<(Frame, Bytes), WireError>
  {
    if |b| < HEADER then Err(TooShort) else
    var h := DecodeHeader(b[..HEADER]);
    if h.length > MAX_LENGTH then Err(FrameTooLarge)
    else if !ValidLength(h.ext, h.length) then Err(ChannelPayloadTooShort)
    else if HEADER + h.length > MAX_FRAME then Err(FrameTooLarge)
    else if |b| < HEADER + h.length then Err(TooShort)
    else Ok((Frame(h.ext, h.msgType, b[HEADER..HEADER + h.length]), b[HEADER + h.length..]))
  }

  /** The largest payload that still fits the decoder's frame limit. */
  predicate Readable(f: Frame)
  {
    HEADER + |f.payload| <= MAX_FRAME
  }

  /** An encoded frame is read back, with the rest of the stream, if and only if it is within that limit. */
  lemma FrameRoundTrip(f: Frame, rest: Bytes)
    requires EncodeFrame(f).Ok?
    ensures ParseFrame(EncodeFrame(f).value + rest) == if Readable(f) then Ok((f, rest)) else Err(FrameTooLarge)
  {
    var b := EncodeFrame(f).value + rest;
    HeaderRoundTrip(f.ext, f.msgType, |f.payload|);
    hide DecodeHeader, HeaderBytes;
    assert b[..HEADER] == HeaderBytes(f.ext, f.msgType, |f.payload|);
    assert b[HEADER..HEADER + |f.payload|] == f.payload && b[HEADER + |f.payload|..] == rest;
  }

  /** What sendMsg writes for a message: encode, wrap, frame. */
  function Framed(m: Message): Result<Bytes, WireError>
  {
    var p := Payload(m);
    if p.Err? then Err(p.error)
    else EncodeFrame(Frame(if ChannelScoped(m) then CHANNEL_BIT else 0, TypeOf(m), p.value))
  }

  /** What the reader makes of a stream: frame, then message. */
  function ReadMessage(b: Bytes): Result<(Message, Bytes), WireError>
  {
    var f := ParseFrame(b);
    if f.Err? then Err(f.error) else
    var m := Dispatch(f.value.0.msgType, f.value.0.payload);
    if m.Err? then Err(m.error) else Ok((m.value, f.value.1))
  }

  lemma ReadFramed(m: Message, rest: Bytes)
    requires Canonical(m) && Framed(m).Ok? && |Framed(m).value| <= MAX_FRAME
    ensures ReadMessage(Framed(m).value + rest) == Ok((m, rest))
  {
    PayloadOk(m);
    MessageRoundTrip(m);
    hide Payload, Dispatch, ParseFrame, HeaderBytes;
    FrameRoundTrip(Frame(if ChannelScoped(m) then CHANNEL_BIT else 0, TypeOf(m), Payload(m).value), rest);
  }
}
