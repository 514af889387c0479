// The wire code in its own form: a reader that advances a position, an encoder
// that appends field after field, and the header written into a buffer.

module WireReader {
  import opened Numerals
  import opened LittleEndian
  import opened Results
  import opened Messages
  import opened Wire

  class ByteReader {
    const b: Bytes
    var pos: nat

    ghost predicate Valid()
      reads this
    {
      pos <= |b|
    }

    ghost function Rest(): Bytes
      requires Valid()
      reads this
    {
      b[pos..]
    }

    constructor (b: Bytes)
      ensures Valid() && Rest() == b
    {
      this.b, pos := b, 0;
    }

    /** io.ReadFull on the slice: n bytes, or an error with the remainder used up. */
    method ReadFull(n: nat) returns (r: Option<Bytes>)
      requires Valid()
      modifies this
      ensures Valid()
      ensures r.Some? <==> |old(Rest())| >= n
      ensures r.Some? ==> r.value == old(Rest())[..n] && Rest() == old(Rest())[n..]
    {
      if |b| - pos < n {
        pos := |b|;
        return None;
      }
      r := Some(b[pos..pos + n]);
      pos := pos + n;
    }

    method GetUint(w: nat) returns (r: Option<Value>)
      requires Valid()
      modifies this
      ensures Valid()
      ensures r.Some? <==> Get(Uint(w), old(Rest())).Got?
      ensures r.Some? ==> Get(Uint(w), old(Rest())) == Got(r.value, Rest())
    {
      var f := ReadFull(w);
      if f.None? {
        return None;
      }
      return Some(N(LeValue(f.value)));
    }

    /** A length byte, then that many bytes. */
    method GetText() returns (r: Option<Value>)
      requires Valid()
      modifies this
      ensures Valid()
      ensures r.Some? <==> Get(Text, old(Rest())).Got?
      ensures r.Some? ==> Get(Text, old(Rest())) == Got(r.value, Rest())
    {
      ghost var was := Rest();
      var len := ReadFull(1);
      if len.None? {
        return None;
      }
      var n: nat := len.value[0];
      assert was[1..] == Rest();
      var f := ReadFull(n);
      if f.None? {
        return None;
      }
      assert was[1..1 + n] == was[1..][..n] && was[1 + n..] == was[1..][n..];
      return Some(B(f.value));
    }

    method GetField(k: Kind) returns (r: Option<Value>)
      requires Valid()
      modifies this
      ensures Valid()
      ensures r.Some? <==> Get(k, old(Rest())).Got?
      ensures r.Some? ==> Get(k, old(Rest())) == Got(r.value, Rest())
    {
      match k
      case Uint(w) => r := GetUint(w);
      case Fixed(len) =>
        var f := ReadFull(len);
        r := if f.Some? then Some(B(f.value)) else None;
      case Text => r := GetText();
    }

    /** Field after field, stopping at the first that runs short. */
    method GetFields(ks: seq<Kind>) returns (r: Option<seq<Value>>)
      requires Valid()
      modifies this
      ensures Valid()
      ensures r.Some? <==> GetAll(ks, old(Rest())).Got?
      ensures r.Some? ==> GetAll(ks, old(Rest())) == Got(r.value, Rest())
    {
      hide Get;
      ghost var was := Rest();
      var vs: seq<Value> := [];
      assert ks[0..] == ks;
      PrependNone(GetAll(ks, was));
      for i := 0 to |ks|
        invariant Valid() && GetAll(ks, was) == Prepend(vs, GetAll(ks[i..], Rest()))
      {
        NextField(vs, ks, i, Rest());
        var v := GetField(ks[i]);
        if v.None? {
          return None;
        }
        vs := vs + [v.value];
      }
      assert ks[|ks|..] == [] && vs + [] == vs;
      return Some(vs);
    }
  }

  function Prepend(vs: seq<Value>, r: Reading<seq<Value>>): Reading<seq<Value>>
  {
    if r.Short? then Short else Got(vs + r.value, r.rest)
  }

  lemma PrependNone(r: Reading<seq<Value>>)
    ensures Prepend([], r) == r
  {
    if r.Got? {
      assert [] + r.value == r.value;
    }
  }

  lemma NextField(vs: seq<Value>, ks: seq<Kind>, i: nat, b: Bytes)
    requires i < |ks|
    ensures Prepend(vs, GetAll(ks[i..], b))
         == match Get(ks[i], b) {
              case Short => Short
              case Got(v, rest) => Prepend(vs + [v], GetAll(ks[i + 1..], rest))
            }
  {
    hide Get;
    assert ks[i..][1..] == ks[i + 1..];
    var first := Get(ks[i], b);
    if first.Got? {
      var others := GetAll(ks[i + 1..], first.rest);
      if others.Got? {
        assert vs + ([first.value] + others.value) == vs + [first.value] + others.value;
      }
    }
  }

  /** Append the fields of a record one by one. */
  method AppendFields(ks: seq<Kind>, vs: seq<Value>) returns (b: Bytes)
    requires FitAll(ks, vs)
    ensures b == PutAll(ks, vs)
  {
    hide Put, Fits;
    b := [];
    assert ks[0..] == ks && vs[0..] == vs;
    for i := 0 to |ks|
      invariant FitAll(ks[i..], vs[i..]) && PutAll(ks, vs) == b + PutAll(ks[i..], vs[i..])
    {
      assert ks[i..][1..] == ks[i + 1..] && vs[i..][1..] == vs[i + 1..];
      b := b + Put(ks[i], vs[i]);
    }
  }

  /** The encoder of any message, refusing an oversize field. */
  method Encode(m: Message) returns (r: Result<Bytes, WireError>)
    ensures r == Payload(m)
  {
    if !Encodable(m) {
      return Err(FieldTooLong);
    }
    ContentsFit(m);
    var b := AppendFields(Layout(m), Contents(m));
    return Ok(b);
  }

  /** SetupConnection, read field by field. */
  method ReadSetupConnection(payload: Bytes) returns (r: Result<Message, WireError>)
    ensures r == DecodeSetupConnection(payload)
  {
    var reader := new ByteReader(payload);
    var v := reader.GetFields([U8, U16F, U16F, U32F, Text, Text, Text, Text, Text]);
    if v.None? {
      return Err(TooShort);
    }
    Widths();
    hide Pow;
    var f := v.value;
    return Ok(SetupConnection(f[0].n, f[1].n, f[2].n, f[3].n, f[4].b, f[5].b, f[6].b, f[7].b, f[8].b));
  }

  method ReadSetupConnectionError(payload: Bytes) returns (r: Result<Message, WireError>)
    ensures r == DecodeSetupConnectionError(payload)
  {
    var reader := new ByteReader(payload);
    var v := reader.GetFields([U32F, Text]);
    if v.None? {
      return Err(TooShort);
    }
    Widths();
    hide Pow;
    return Ok(SetupConnectionError(v.value[0].n, v.value[1].b));
  }

  method ReadOpenMiningChannel(payload: Bytes) returns (r: Result<Message, WireError>)
    ensures r == DecodeOpenMiningChannel(payload)
  {
    var reader := new ByteReader(payload);
    var v := reader.GetFields([U32F, Text, U32F, B32]);
    if v.None? {
      return Err(TooShort);
    }
    Widths();
    hide Pow;
    var f := v.value;
    return Ok(OpenMiningChannel(f[0].n, f[1].b, f[2].n, f[3].b));
  }

  method ReadOpenMiningChannelSuccess(payload: Bytes) returns (r: Result<Message, WireError>)
    ensures r == DecodeOpenMiningChannelSuccess(payload)
  {
    var reader := new ByteReader(payload);
    var v := reader.GetFields([U32F, U32F, B32, Text, U32F]);
    if v.None? {
      return Err(TooShort);
    }
    Widths();
    hide Pow;
    var f := v.value;
    return Ok(OpenMiningChannelSuccess(f[0].n, f[1].n, f[2].b, f[3].b, f[4].n));
  }

  /** The text is read only when bytes are left for it. */
  method ReadTrailingText(reader: ByteReader) returns (r: Result<Bytes, WireError>)
    requires reader.Valid()
    modifies reader
    ensures r == TrailingText(old(reader.Rest()))
  {
    if reader.pos == |reader.b| {
      return Ok([]);
    }
    var v := reader.GetText();
    if v.None? {
      return Err(TooShort);
    }
    return Ok(v.value.b);
  }

  method ReadOpenMiningChannelError(payload: Bytes) returns (r: Result<Message, WireError>)
    ensures r == DecodeOpenMiningChannelError(payload)
  {
    var reader := new ByteReader(payload);
    var v := reader.GetFields([U32F]);
    if v.None? {
      return Err(TooShort);
    }
    Widths();
    hide Pow;
    var e := ReadTrailingText(reader);
    if e.Err? {
      return Err(e.error);
    }
    return Ok(OpenMiningChannelError(v.value[0].n, e.value));
  }

  method ReadSubmitSharesError(payload: Bytes) returns (r: Result<Message, WireError>)
    ensures r == DecodeSubmitSharesError(payload)
  {
    var reader := new ByteReader(payload);
    var v := reader.GetFields([U32F, U32F]);
    if v.None? {
      return Err(TooShort);
    }
    Widths();
    hide Pow;
    var e := ReadTrailingText(reader);
    if e.Err? {
      return Err(e.error);
    }
    return Ok(SubmitSharesError(v.value[0].n, v.value[1].n, e.value));
  }

  method ReadCloseChannel(payload: Bytes) returns (r: Result<Message, WireError>)
    ensures r == DecodeCloseChannel(payload)
  {
    var reader := new ByteReader(payload);
    var v := reader.GetFields([U32F, Text]);
    if v.None? {
      return Err(TooShort);
    }
    Widths();
    hide Pow;
    return Ok(CloseChannel(v.value[0].n, v.value[1].b));
  }

  /** The offset moves over the option count, and over the ntime when it is there. */
  method ReadNewMiningJob(payload: Bytes) returns (r: Result<Message, WireError>)
    ensures r == DecodeNewMiningJob(payload)
  {
    if |payload| < 45 {
      return Err(TooShort);
    }
    var reader := new ByteReader(payload);
    var v := reader.GetFields([U32F, U32F, U8]);
    if v.None? {
      return Err(TooShort);
    }
    Widths();
    hide Pow, GetAll;
    var f := v.value;
    if f[2].n == 0 {
      var g := reader.GetFields([U32F, B32]);
      if g.None? {
        return Err(TooShort);
      }
      return Ok(JobMessage(NewMiningJob(f[0].n, f[1].n, false, 0, g.value[0].n, g.value[1].b)));
    } else if f[2].n == 1 {
      var g := reader.GetFields([U32F, U32F, B32]);
      if g.None? {
        return Err(TooShort);
      }
      return Ok(JobMessage(NewMiningJob(f[0].n, f[1].n, true, g.value[0].n, g.value[1].n, g.value[2].b)));
    }
    return Err(BadOptionCount);
  }

  /** EncodeHeader: two bytes of extension, the type, three bytes of length, into the caller's buffer. */
  method EncodeHeader(dst: array<Byte>, ext: U16, msgType: Byte, length: nat) returns (ok: bool)
    modifies dst
    ensures ok == (ValidLength(ext, length) && dst.Length >= HEADER)
    ensures ok ==> dst[..HEADER] == HeaderBytes(ext, msgType, length) && dst[HEADER..] == old(dst[HEADER..])
    ensures !ok ==> dst[..] == old(dst[..])
  {
    if !ValidLength(ext, length) || dst.Length < HEADER {
      return false;
    }
    dst[0], dst[1] := ext % 256, ext / 256 % 256;
    dst[2] := msgType;
    dst[3], dst[4], dst[5] := length % 256, length / 256 % 256, length / 256 / 256 % 256;
    assert LeBytes(ext, 2) == [dst[0], dst[1]] by { TwoBytes(ext); }
    assert LeBytes(length, 3) == [dst[3], dst[4], dst[5]] by { ThreeBytes(length); }
    return true;
  }

  lemma TwoBytes(n: nat)
    ensures LeBytes(n, 2) == [n % 256, n / 256 % 256]
  {
    assert LeBytes(n / 256, 1) == [n / 256 % 256];
  }

  lemma ThreeBytes(n: nat)
    ensures LeBytes(n, 3) == [n % 256, n / 256 % 256, n / 256 / 256 % 256]
  {
    TwoBytes(n / 256);
  }
}
