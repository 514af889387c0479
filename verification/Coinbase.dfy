// CoinbasePaysScript: a positional parse of a serialized transaction's outputs.

module Coinbase {
  import opened Numerals
  import opened Results
  import opened LittleEndian

  const U64_LIMIT: nat := 0x1_0000_0000_0000_0000

  datatype ParseError =
    | TooShort | BadInputCount | BadScriptSigLength | TruncatedInputs | BadOutputCount | BadOutputScript

  datatype Read = Read(value: nat, next: nat)

  // ----- CompactSize -----

  /** Bytes that follow the first byte of a CompactSize. */
  function ExtraBytes(first: Byte): nat
  {
    if first == 0xfd then 2 else if first == 0xfe then 4 else if first == 0xff then 8 else 0
  }

  /** readCompactSize: the value at off and the offset past it. */
  function ReadCompactSize(b: seq<Byte>, off: nat): (r: Option<Read>)
    ensures r.Some? ==> off < r.value.next <= |b|
  {
    if off >= |b| then None
    else
      var k := ExtraBytes(b[off]);
      if k == 0 then Some(Read(b[off], off + 1))
      else if off + 1 + k > |b| then None
      else Some(Read(LeValue(b[off + 1..off + 1 + k]), off + 1 + k))
  }

  method ComputeReadCompactSize(b: seq<Byte>, off: nat) returns (r: Option<Read>)
    ensures r == ReadCompactSize(b, off)
  {
    if off >= |b| {
      return None;
    }
    var first := b[off];
    if first == 0xfd {
      if off + 3 > |b| {
        return None;
      }
      assert b[off + 1..off + 3][1..] == [b[off + 2]];
      assert LeValue([b[off + 2]]) == b[off + 2];
      return Some(Read(b[off + 1] + 0x100 * (b[off + 2] as int), off + 3));
    } else if first == 0xfe || first == 0xff {
      var k := if first == 0xfe then 4 else 8;
      if off + 1 + k > |b| {
        return None;
      }
      // The shifted bytes are or-ed in from the least significant upwards.
      var v, scale, i := 0, 1, 0;
      while i < k
        invariant 0 <= i <= k && scale == Pow(256, i)
        invariant v == LeValue(b[off + 1..off + 1 + i])
      {
        LeSnoc(b[off + 1..off + 1 + i], b[off + 1 + i]);
        assert b[off + 1..off + 1 + (i + 1)] == b[off + 1..off + 1 + i] + [b[off + 1 + i]];
        v := v + (b[off + 1 + i] as int) * scale;
        scale := 256 * scale;
        i := i + 1;
      }
      return Some(Read(v, off + 1 + k));
    }
    return Some(Read(first, off + 1));
  }

  lemma {:induction false} LeSnoc(b: seq<Byte>, d: Byte)
    ensures LeValue(b + [d]) == LeValue(b) + d * Pow(256, |b|)
  {
    if |b| > 0 {
      LeSnoc(b[1..], d);
      assert (b + [d])[1..] == b[1..] + [d];
      Shift256(d, Pow(256, |b| - 1));
    }
  }

  lemma Shift256(d: nat, p: nat)
    ensures 256 * (d * p) == d * (256 * p)
  {
  }

  // ----- the parser -----

  /** Offset past n inputs: outpoint, scriptSig, sequence. */
  function SkipInputs(tx: seq<Byte>, off: nat, n: nat): Result<nat, ParseError>
    decreases n
  {
    if n == 0 then Ok(off)
    else match ReadCompactSize(tx, off + 36)
      case None => Err(BadScriptSigLength)
      case Some(r) => if r.value > |tx| - r.next then Err(BadScriptSigLength)
                      else SkipInputs(tx, r.next + r.value + 4, n - 1)
  }

  /** Whether one of n outputs at off carries the script. */
  function ScanOutputs(tx: seq<Byte>, off: nat, n: nat, script: seq<Byte>): Result<bool, ParseError>
    decreases n
  {
    if n == 0 then Ok(false)
    else match ReadCompactSize(tx, off + 8)
      case None => Err(BadOutputScript)
      case Some(r) => if r.value > |tx| - r.next then Err(BadOutputScript)
                      else if tx[r.next..r.next + r.value] == script then Ok(true)
                      else ScanOutputs(tx, r.next + r.value, n - 1, script)
  }

  function InputsOffset(tx: seq<Byte>): nat
    requires |tx| >= 10
  {
    if tx[4] == 0 && tx[5] == 1 then 6 else 4
  }

  function CoinbasePays(tx: seq<Byte>, script: seq<Byte>): Result<bool, ParseError>
  {
    if |tx| < 10 then Err(TooShort)
    else match ReadCompactSize(tx, InputsOffset(tx))
      case None => Err(BadInputCount)
      case Some(vin) =>
        if vin.value == 0 then Err(BadInputCount)
        else match SkipInputs(tx, vin.next, vin.value)
          case Err(e) => Err(e)
          case Ok(off) =>
            if off >= |tx| then Err(TruncatedInputs)
            else match ReadCompactSize(tx, off)
              case None => Err(BadOutputCount)
              case Some(vout) => ScanOutputs(tx, vout.next, vout.value, script)
  }

  /**
   * CoinbasePaysScript as written. Every index below is in range on arbitrary
   * bytes, and the two loops together turn at most |tx| times although the
   * counts they run to are 64-bit numbers taken from the wire.
   */
  method CoinbasePaysScript(tx: seq<Byte>, script: seq<Byte>) returns (r: Result<bool, ParseError>, ghost turns: nat)
    ensures r == CoinbasePays(tx, script)
    ensures turns <= |tx|
  {
    hide ReadCompactSize, SkipInputs, ScanOutputs;
    turns := 0;
    if |tx| < 10 {
      return Err(TooShort), 0;
    }
    var off := 4;
    if tx[off] == 0x00 && tx[off + 1] == 0x01 {
      off := off + 2;
    }
    var vin := ComputeReadCompactSize(tx, off);
    if vin.None? || vin.value.value == 0 {
      return Err(BadInputCount), 0;
    }
    var ins, inTurns := InputLoop(tx, vin.value.next, vin.value.value);
    turns := inTurns;
    if ins.Err? {
      return Err(ins.error), turns;
    }
    if ins.value >= |tx| {
      return Err(TruncatedInputs), turns;
    }
    var vout := ComputeReadCompactSize(tx, ins.value);
    if vout.None? {
      return Err(BadOutputCount), turns;
    }
    ghost var outTurns;
    r, outTurns := OutputLoop(tx, vout.value.next, vout.value.value, script);
    turns := turns + outTurns;
  }

  method InputLoop(tx: seq<Byte>, start: nat, vin: nat) returns (r: Result<nat, ParseError>, ghost turns: nat)
    requires start <= |tx|
    ensures r == SkipInputs(tx, start, vin)
    ensures 41 * turns <= |tx| - start + 45
  {
    hide ReadCompactSize;
    turns := 0;
    var off, i := start, 0;
    while i < vin
      invariant 0 <= i <= vin && start + 41 * turns <= off <= |tx| + 4
      invariant SkipInputs(tx, start, vin) == SkipInputs(tx, off, vin - i)
    {
      turns := turns + 1;
      off := off + 36;
      var sl := ComputeReadCompactSize(tx, off);
      if sl.None? || sl.value.value > |tx| - sl.value.next {
        return Err(BadScriptSigLength), turns;
      }
      off := sl.value.next + sl.value.value + 4;
      i := i + 1;
    }
    return Ok(off), turns;
  }

  method OutputLoop(tx: seq<Byte>, start: nat, vout: nat, script: seq<Byte>)
    returns (r: Result<bool, ParseError>, ghost turns: nat)
    requires start <= |tx|
    ensures r == ScanOutputs(tx, start, vout, script)
    ensures 9 * turns <= |tx| - start + 9
  {
    hide ReadCompactSize;
    turns := 0;
    var off, i := start, 0;
    while i < vout
      invariant 0 <= i <= vout && start + 9 * turns <= off <= |tx|
      invariant ScanOutputs(tx, start, vout, script) == ScanOutputs(tx, off, vout - i, script)
    {
      turns := turns + 1;
      off := off + 8;
      var pk := ComputeReadCompactSize(tx, off);
      if pk.None? || pk.value.value > |tx| - pk.value.next {
        return Err(BadOutputScript), turns;
      }
      off := pk.value.next;
      if tx[off..off + pk.value.value] == script {
        return Ok(true), turns;
      }
      off := off + pk.value.value;
      i := i + 1;
    }
    return Ok(false), turns;
  }

  // ----- serialization -----

  datatype Input = Input(outpoint: seq<Byte>, scriptSig: seq<Byte>, sequence: seq<Byte>)
  datatype Output = Output(value: seq<Byte>, script: seq<Byte>)
  datatype Tx = Tx(version: seq<Byte>, inputs: seq<Input>, outputs: seq<Output>, witnessData: seq<Byte>,
                   lockTime: seq<Byte>)

  predicate WellFormedInput(i: Input)
  {
    |i.outpoint| == 36 && |i.sequence| == 4 && |i.scriptSig| < U64_LIMIT
  }

  predicate WellFormedOutput(o: Output)
  {
    |o.value| == 8 && |o.script| < U64_LIMIT
  }

  predicate WellFormed(t: Tx)
  {
    && |t.version| == 4 && |t.lockTime| == 4
    && |t.inputs| < U64_LIMIT && |t.outputs| < U64_LIMIT
    && (forall i :: 0 <= i < |t.inputs| ==> WellFormedInput(t.inputs[i]))
    && (forall i :: 0 <= i < |t.outputs| ==> WellFormedOutput(t.outputs[i]))
  }

  function CompactSize(n: nat): (b: seq<Byte>)
    requires n < U64_LIMIT
    ensures |b| >= 1
  {
    if n < 0xfd then [n]
    else if n < 0x1_0000 then [0xfd] + LeBytes(n, 2)
    else if n < 0x1_0000_0000 then [0xfe] + LeBytes(n, 4)
    else [0xff] + LeBytes(n, 8)
  }

  function SerializeInput(i: Input): seq<Byte>
    requires WellFormedInput(i)
  {
    i.outpoint + (CompactSize(|i.scriptSig|) + (i.scriptSig + i.sequence))
  }

  function SerializeOutput(o: Output): seq<Byte>
    requires WellFormedOutput(o)
  {
    o.value + (CompactSize(|o.script|) + o.script)
  }

  function SerializeInputs(ins: seq<Input>): seq<Byte>
    requires forall i :: 0 <= i < |ins| ==> WellFormedInput(ins[i])
  {
    if |ins| == 0 then [] else SerializeInput(ins[0]) + SerializeInputs(ins[1..])
  }

  function SerializeOutputs(outs: seq<Output>): seq<Byte>
    requires forall i :: 0 <= i < |outs| ==> WellFormedOutput(outs[i])
  {
    if |outs| == 0 then [] else SerializeOutput(outs[0]) + SerializeOutputs(outs[1..])
  }

  /** Legacy form, or the BIP-144 form with marker, flag and witness data. */
  function Serialize(t: Tx, segwit: bool): seq<Byte>
    requires WellFormed(t)
  {
    t.version + (if segwit then [0, 1] else [])
    + (CompactSize(|t.inputs|) + (SerializeInputs(t.inputs)
    + (CompactSize(|t.outputs|) + (SerializeOutputs(t.outputs)
    + ((if segwit then t.witnessData else []) + t.lockTime)))))
  }

  predicate PaysTo(outs: seq<Output>, script: seq<Byte>)
  {
    exists i :: 0 <= i < |outs| && outs[i].script == script
  }

  // ----- exactness -----

  lemma ReadBack(b: seq<Byte>, pre: seq<Byte>, n: nat, post: seq<Byte>)
    requires n < U64_LIMIT && b == pre + (CompactSize(n) + post)
    ensures ReadCompactSize(b, |pre|) == Some(Read(n, |pre| + |CompactSize(n)|))
  {
    var c := CompactSize(n);
    assert b[|pre|] == c[0];
    assert b[|pre| + 1..|pre| + |c|] == c[1..];
    Widths();
    if n >= 0xfd {
      assert c[1..] == LeBytes(n, |c| - 1);
      LeRoundTrip(n, |c| - 1);
    }
  }

  lemma {:induction false} InputsSkipped(b: seq<Byte>, pre: seq<Byte>, ins: seq<Input>, post: seq<Byte>)
    requires forall i :: 0 <= i < |ins| ==> WellFormedInput(ins[i])
    requires b == pre + (SerializeInputs(ins) + post)
    ensures SkipInputs(b, |pre|, |ins|) == Ok(|pre| + |SerializeInputs(ins)|)
    decreases |ins|
  {
    hide ReadCompactSize, CompactSize;
    if |ins| > 0 {
      var i, rest := ins[0], SerializeInputs(ins[1..]);
      var c := CompactSize(|i.scriptSig|);
      assert b == (pre + i.outpoint) + (c + ((i.scriptSig + i.sequence) + rest + post));
      ReadBack(b, pre + i.outpoint, |i.scriptSig|, (i.scriptSig + i.sequence) + rest + post);
      assert b == (pre + SerializeInput(i)) + (rest + post);
      InputsSkipped(b, pre + SerializeInput(i), ins[1..], post);
    }
  }

  lemma {:induction false} OutputsScanned(b: seq<Byte>, pre: seq<Byte>, outs: seq<Output>, post: seq<Byte>,
                                          script: seq<Byte>)
    requires forall i :: 0 <= i < |outs| ==> WellFormedOutput(outs[i])
    requires b == pre + (SerializeOutputs(outs) + post)
    ensures ScanOutputs(b, |pre|, |outs|, script) == Ok(PaysTo(outs, script))
    decreases |outs|
  {
    hide ReadCompactSize, SerializeOutput, ScanOutputs, PaysTo;
    if |outs| > 0 {
      var o, rest := SerializeOutput(outs[0]), SerializeOutputs(outs[1..]);
      assert b == pre + (o + (rest + post));
      FirstOutput(b, pre, outs[0], rest + post, |outs|, script);
      assert b == (pre + o) + (rest + post);
      OutputsScanned(b, pre + o, outs[1..], post, script);
      PaysToStep(outs, script);
    } else {
      NoOutputs(b, |pre|, script);
    }
  }

  lemma FirstOutput(b: seq<Byte>, pre: seq<Byte>, o: Output, tail: seq<Byte>, n: nat, script: seq<Byte>)
    requires WellFormedOutput(o) && n >= 1 && b == pre + (SerializeOutput(o) + tail)
    ensures ScanOutputs(b, |pre|, n, script)
         == if o.script == script then Ok(true) else ScanOutputs(b, |pre| + |SerializeOutput(o)|, n - 1, script)
  {
    hide ReadCompactSize, CompactSize;
    var c := CompactSize(|o.script|);
    assert b == (pre + o.value) + (c + (o.script + tail));
    ReadBack(b, pre + o.value, |o.script|, o.script + tail);
    assert b == (pre + o.value + c) + (o.script + tail);
    SliceAt(b, pre + o.value + c, o.script, tail);
  }

  lemma NoOutputs(b: seq<Byte>, off: nat, script: seq<Byte>)
    ensures ScanOutputs(b, off, 0, script) == Ok(PaysTo([], script))
  {
  }

  lemma SliceAt(b: seq<Byte>, pre: seq<Byte>, mid: seq<Byte>, post: seq<Byte>)
    requires b == pre + (mid + post)
    ensures b[|pre|..|pre| + |mid|] == mid
  {
  }

  lemma PaysToStep(outs: seq<Output>, script: seq<Byte>)
    requires |outs| > 0
    ensures PaysTo(outs, script) <==> outs[0].script == script || PaysTo(outs[1..], script)
  {
    if PaysTo(outs[1..], script) {
      var i :| 0 <= i < |outs[1..]| && outs[1..][i].script == script;
      assert outs[i + 1].script == script;
    }
    if PaysTo(outs, script) && outs[0].script != script {
      var i :| 0 <= i < |outs| && outs[i].script == script;
      assert outs[1..][i - 1].script == script;
    }
  }

  /** Main result: exact on every transaction with an input, in either form. */
  lemma ExactOnTransactions(t: Tx, segwit: bool, script: seq<Byte>)
    requires WellFormed(t) && |t.inputs| >= 1
    ensures CoinbasePays(Serialize(t, segwit), script) == Ok(PaysTo(t.outputs, script))
  {
    hide ScanOutputs, SkipInputs, ReadCompactSize, CompactSize, PaysTo;
    var b := Serialize(t, segwit);
    var head := t.version + if segwit then [0, 1] else [];
    var tail := (if segwit then t.witnessData else []) + t.lockTime;
    var ci, co := CompactSize(|t.inputs|), CompactSize(|t.outputs|);
    var ins, outs := SerializeInputs(t.inputs), SerializeOutputs(t.outputs);
    HeadIsRecognised(t, segwit);
    ReadBack(b, head, |t.inputs|, ins + (co + (outs + tail)));
    assert b == (head + ci) + (ins + (co + (outs + tail)));
    InputsSkipped(b, head + ci, t.inputs, co + (outs + tail));
    assert b == (head + ci + ins) + (co + (outs + tail));
    ReadBack(b, head + ci + ins, |t.outputs|, outs + tail);
    assert b == (head + ci + ins + co) + (outs + tail);
    OutputsScanned(b, head + ci + ins + co, t.outputs, tail, script);
  }

  /** The segwit marker cannot be confused with an input count of at least one. */
  lemma HeadIsRecognised(t: Tx, segwit: bool)
    requires WellFormed(t) && |t.inputs| >= 1
    ensures |Serialize(t, segwit)| >= 10
    ensures InputsOffset(Serialize(t, segwit)) == if segwit then 6 else 4
  {
    var b, c := Serialize(t, segwit), CompactSize(|t.inputs|);
    assert |SerializeInputs(t.inputs)| >= |SerializeInput(t.inputs[0])| >= 41;
    assert c[0] != 0;
    if segwit {
      assert b[4] == 0 && b[5] == 1;
    } else {
      assert b[4] == c[0];
    }
  }
}
