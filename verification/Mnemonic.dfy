// BIP-39 mnemonics: entropy and checksum spread into bits, read as word
// indices, and back.

module Mnemonic {
  import opened Numerals
  import opened Results
  import opened BitStream

  const LIST_SIZE := 2048

  type Word = string

  datatype ListError = WrongCount | EmptyWord(at: nat) | NotUtf8(at: nat) | DuplicateWord(at: nat)
  datatype Error = BadEntropyLength | BadWordCount | UnknownWord(at: nat) | ChecksumMismatch

  /** What NewWordList accepts. */
  ghost predicate WordList(words: seq<Word>)
  {
    && |words| == LIST_SIZE
    && (forall i :: 0 <= i < |words| ==> words[i] != "")
    && (forall i, j :: 0 <= i < j < |words| ==> words[i] != words[j])
  }

  /** NewWordList: the index map, or the first objection. utf8 stands for the library's validity test. */
  method NewWordList(words: seq<Word>, utf8: Word -> bool) returns (r: Result<map<Word, nat>, ListError>)
    ensures r.Ok? <==> WordList(words) && forall i :: 0 <= i < |words| ==> utf8(words[i])
    ensures r.Ok? ==> forall w :: w in r.value <==> w in words
    ensures r.Ok? ==> forall i :: 0 <= i < |words| ==> words[i] in r.value && r.value[words[i]] == i
  {
    if |words| != LIST_SIZE {
      return Err(WrongCount);
    }
    var idx: map<Word, nat> := map[];
    for i := 0 to |words|
      invariant forall k :: 0 <= k < i ==> words[k] != "" && utf8(words[k])
      invariant forall k :: 0 <= k < i ==> words[k] in idx && idx[words[k]] == k
      invariant forall w :: w in idx ==> idx[w] < i && words[idx[w]] == w
    {
      var w := words[i];
      if w == "" {
        return Err(EmptyWord(i));
      }
      if !utf8(w) {
        return Err(NotUtf8(i));
      }
      if w in idx {
        return Err(DuplicateWord(i));
      }
      idx := idx[w := i];
    }
    forall i, j | 0 <= i < j < |words| ensures words[i] != words[j] {
      assert idx[words[i]] == i && idx[words[j]] == j;
    }
    return Ok(idx);
  }

  predicate EntropyLength(n: nat)
  {
    n in {16, 20, 24, 28, 32}
  }

  predicate WordCount(n: nat)
  {
    n in {12, 15, 18, 21, 24}
  }

  /** The checksum bits of entropy e: the high bits of the digest's first byte. */
  function Checksum(e: seq<Byte>, digest: seq<Byte> -> Byte): (c: seq<nat>)
    requires EntropyLength(|e|)
    ensures |c| == |e| / 4 && Digits(2, c)
  {
    Bits(digest(e), 8)[..|e| / 4]
  }

  function Stream(e: seq<Byte>, digest: seq<Byte> -> Byte): (b: seq<nat>)
    requires EntropyLength(|e|)
    ensures Digits(2, b) && |b| == |e| / 4 * 33
  {
    SpreadLength(e, 8);
    Spread(e, 8) + Checksum(e, digest)
  }

  /** The indices a valid entropy encodes to, all within the list. */
  function Indices(e: seq<Byte>, digest: seq<Byte> -> Byte): (xs: seq<nat>)
    requires EntropyLength(|e|)
    ensures |xs| == |e| / 4 * 3 && Digits(LIST_SIZE, xs)
  {
    var b := Stream(e, digest);
    SpreadOfGather(b, |e| / 4 * 3, 11);
    EleventhPower();
    Gather(b, |e| / 4 * 3, 11)
  }

  lemma EleventhPower()
    ensures Pow(2, 11) == LIST_SIZE && Pow(2, 8) == 256
  {
    PowAdd(2, 8, 3);
    assert Pow(2, 8) == 256;
    assert Pow(2, 3) == 8;
  }

  function Pick(words: seq<Word>, xs: seq<nat>): (m: seq<Word>)
    requires Digits(|words|, xs)
    ensures |m| == |xs| && forall i :: 0 <= i < |xs| ==> m[i] == words[xs[i]]
  {
    seq(|xs|, i requires 0 <= i < |xs| => words[xs[i]])
  }

  function Encoded(e: seq<Byte>, words: seq<Word>, digest: seq<Byte> -> Byte): Result<seq<Word>, Error>
    requires |words| == LIST_SIZE
  {
    if !EntropyLength(|e|) then Err(BadEntropyLength) else Ok(Pick(words, Indices(e, digest)))
  }

  function IndexOf(words: seq<Word>, w: Word): (r: Option<nat>)
    ensures r.None? <==> w !in words
    ensures r.Some? ==> r.value < |words| && words[r.value] == w
  {
    if |words| == 0 then None
    else if words[|words| - 1] == w then Some(|words| - 1)
    else IndexOf(words[..|words| - 1], w)
  }

  function FirstUnknown(words: seq<Word>, m: seq<Word>): Option<nat>
  {
    if |m| == 0 then None
    else
      var r := FirstUnknown(words, m[..|m| - 1]);
      if r.Some? then r else if m[|m| - 1] !in words then Some(|m| - 1) else None
  }

  lemma {:induction false} AllKnown(words: seq<Word>, m: seq<Word>)
    ensures FirstUnknown(words, m).None? <==> forall i :: 0 <= i < |m| ==> m[i] in words
    ensures FirstUnknown(words, m).Some? ==>
              FirstUnknown(words, m).value < |m| && m[FirstUnknown(words, m).value] !in words
  {
    if |m| > 0 {
      AllKnown(words, m[..|m| - 1]);
    }
  }

  function Lookup(words: seq<Word>, m: seq<Word>): (xs: seq<nat>)
    requires forall i :: 0 <= i < |m| ==> m[i] in words
    ensures |xs| == |m| && Digits(|words|, xs) && Pick(words, xs) == m
  {
    seq(|m|, i requires 0 <= i < |m| => IndexOf(words, m[i]).value)
  }

  /** The bits behind a whole mnemonic. */
  function Unpacked(xs: seq<nat>): (b: seq<nat>)
    requires WordCount(|xs|)
    ensures Digits(2, b) && |b| == |xs| / 3 * 33
  {
    SpreadLength(xs, 11);
    Spread(xs, 11)
  }

  /** The entropy the indices carry, checksum not yet looked at. */
  function Recovered(xs: seq<nat>): (e: seq<Byte>)
    requires WordCount(|xs|)
    ensures |e| == |xs| / 3 * 4
  {
    var b := Unpacked(xs);
    GatheredBytes(b, |xs| / 3 * 4);
    Bytes(Gather(b, |xs| / 3 * 4, 8))
  }

  function Tail(xs: seq<nat>): (c: seq<nat>)
    requires WordCount(|xs|)
  {
    Unpacked(xs)[|xs| / 3 * 32..]
  }

  function Bytes(g: seq<nat>): (e: seq<Byte>)
    requires Digits(256, g)
    ensures e == g
  {
    seq(|g|, i requires 0 <= i < |g| => g[i])
  }

  lemma GatheredBytes(b: seq<nat>, n: nat)
    requires Digits(2, b) && |b| >= n * 8
    ensures Digits(256, Gather(b, n, 8))
  {
    EleventhPower();
    var head := b[..n * 8];
    assert b == head + b[n * 8..];
    GatherPrefix(head, b[n * 8..], n, 8);
    SpreadOfGather(head, n, 8);
  }

  function Checked(xs: seq<nat>, digest: seq<Byte> -> Byte): Result<seq<Byte>, Error>
    requires WordCount(|xs|)
  {
    if Tail(xs) == Checksum(Recovered(xs), digest) then Ok(Recovered(xs)) else Err(ChecksumMismatch)
  }

  function Decoded(m: seq<Word>, words: seq<Word>, digest: seq<Byte> -> Byte): Result<seq<Byte>, Error>
  {
    AllKnown(words, m);
    if !WordCount(|m|) then Err(BadWordCount)
    else if FirstUnknown(words, m).Some? then Err(UnknownWord(FirstUnknown(words, m).value))
    else Checked(Lookup(words, m), digest)
  }

  // ---------------------------------------------------------------- mutual inverses

  lemma PickInjective(words: seq<Word>, xs: seq<nat>, ys: seq<nat>)
    requires WordList(words) && Digits(|words|, xs) && Digits(|words|, ys) && Pick(words, xs) == Pick(words, ys)
    ensures xs == ys
  {
    assert |xs| == |ys|;
    forall i | 0 <= i < |xs| ensures xs[i] == ys[i] {
      assert Pick(words, xs)[i] == words[xs[i]] == words[ys[i]];
    }
  }

  lemma CountsMatch(n: nat)
    requires EntropyLength(n)
    ensures WordCount(n / 4 * 3) && n / 4 * 3 / 3 == n / 4
  {
  }

  lemma UnpackedIndices(e: seq<Byte>, digest: seq<Byte> -> Byte)
    requires EntropyLength(|e|)
    ensures WordCount(|Indices(e, digest)|) && |Indices(e, digest)| / 3 == |e| / 4
    ensures Unpacked(Indices(e, digest)) == Stream(e, digest)
  {
    CountsMatch(|e|);
    hide Gather, Spread, Stream, Digits, EntropyLength, WordCount;
    SpreadOfGather(Stream(e, digest), |e| / 4 * 3, 11);
  }

  /**
   * What a mnemonic says: its word numbers, read as one number in base 2048, are the entropy read as one number,
   * followed by one bit of the digest for every four bytes.
   */
  lemma IndicesNumber(e: seq<Byte>, digest: seq<Byte> -> Byte)
    requires EntropyLength(|e|)
    ensures Pow(2, 8 - |e| / 4) >= 1
    ensures Value(2048, Indices(e, digest)) == Value(256, e) * Pow(2, |e| / 4) + digest(e) / Pow(2, 8 - |e| / 4)
  {
    UnpackedIndices(e, digest);
    EleventhPower();
    SpreadValue(Indices(e, digest), 11);
    SpreadValue(e, 8);
    TopBits(digest(e), 8, |e| / 4);
    ValueAppend(2, Spread(e, 8), Checksum(e, digest));
    hide Indices, Spread, Bits, Value, Pow, EntropyLength;
  }

  /** The indices of a valid entropy give it back, with its checksum behind it. */
  lemma IndicesCarry(e: seq<Byte>, digest: seq<Byte> -> Byte)
    requires EntropyLength(|e|)
    ensures WordCount(|Indices(e, digest)|) && Checked(Indices(e, digest), digest) == Ok(e)
  {
    UnpackedIndices(e, digest);
    EleventhPower();
    GatherOfSpread(e, 8);
    hide Gather, Spread, Indices, Checksum, Unpacked, Bits;
    assert |e| == |e| / 4 * 4;
    GatherPrefix(Spread(e, 8), Checksum(e, digest), |e|, 8);
  }

  lemma RepackedStream(xs: seq<nat>, digest: seq<Byte> -> Byte)
    requires WordCount(|xs|) && Tail(xs) == Checksum(Recovered(xs), digest)
    ensures Stream(Recovered(xs), digest) == Unpacked(xs)
  {
    var b, k := Unpacked(xs), |xs| / 3;
    var head, tail := b[..k * 32], b[k * 32..];
    assert b == head + tail;
    hide Gather, Spread, Unpacked, Bits, Checksum;
    GatherPrefix(head, tail, k * 4, 8);
    SpreadOfGather(head, k * 4, 8);
  }

  /** Indices whose tail is the checksum of what they carry are the indices of that entropy. */
  lemma CarriedIndices(xs: seq<nat>, digest: seq<Byte> -> Byte)
    requires WordCount(|xs|) && Digits(LIST_SIZE, xs) && Checked(xs, digest).Ok?
    ensures Indices(Recovered(xs), digest) == xs
  {
    EleventhPower();
    GatherOfSpread(xs, 11);
    RepackedStream(xs, digest);
    hide Gather, Spread, Checksum, Bits, Recovered, Pow;
    assert |xs| == |xs| / 3 * 3;
  }

  /** BIP-39 encoding and decoding are mutually inverse, for any word list and any digest. */
  lemma MutualInverse(e: seq<Byte>, m: seq<Word>, words: seq<Word>, digest: seq<Byte> -> Byte)
    requires WordList(words)
    ensures Decoded(m, words, digest) == Ok(e) <==> Encoded(e, words, digest) == Ok(m)
  {
    AllKnown(words, m);
    if Encoded(e, words, digest) == Ok(m) {
      EncodedDecodes(e, m, words, digest);
    }
    if Decoded(m, words, digest) == Ok(e) {
      DecodedEncodes(e, m, words, digest);
    }
  }

  lemma EncodedDecodes(e: seq<Byte>, m: seq<Word>, words: seq<Word>, digest: seq<Byte> -> Byte)
    requires WordList(words) && Encoded(e, words, digest) == Ok(m)
    ensures Decoded(m, words, digest) == Ok(e)
  {
    hide Gather, Spread, Bits, Indices, Checked;
    AllKnown(words, m);
    var xs := Indices(e, digest);
    IndicesCarry(e, digest);
    assert forall i :: 0 <= i < |m| ==> m[i] == words[xs[i]];
    PickInjective(words, xs, Lookup(words, m));
  }

  lemma DecodedEncodes(e: seq<Byte>, m: seq<Word>, words: seq<Word>, digest: seq<Byte> -> Byte)
    requires WordList(words) && Decoded(m, words, digest) == Ok(e)
    ensures Encoded(e, words, digest) == Ok(m)
  {
    hide Gather, Spread, Bits;
    AllKnown(words, m);
    CarriedIndices(Lookup(words, m), digest);
  }

  /** Every valid entropy survives the trip, and no two entropies share a mnemonic. */
  lemma RoundTrip(e: seq<Byte>, words: seq<Word>, digest: seq<Byte> -> Byte)
    requires WordList(words) && EntropyLength(|e|)
    ensures Encoded(e, words, digest).Ok? && Decoded(Encoded(e, words, digest).value, words, digest) == Ok(e)
    ensures forall f :: Encoded(f, words, digest) == Encoded(e, words, digest) ==> f == e
  {
    hide Indices;
    MutualInverse(e, Pick(words, Indices(e, digest)), words, digest);
    forall f | Encoded(f, words, digest) == Encoded(e, words, digest) ensures f == e {
      MutualInverse(f, Encoded(e, words, digest).value, words, digest);
    }
  }

  /** Five lengths of entropy are taken, and each gives three words for every four bytes. */
  lemma LengthsExact(e: seq<Byte>, words: seq<Word>, digest: seq<Byte> -> Byte)
    requires |words| == 2048
    ensures Encoded(e, words, digest).Ok? <==> |e| == 16 || |e| == 20 || |e| == 24 || |e| == 28 || |e| == 32
    ensures Encoded(e, words, digest).Ok? ==> 4 * |Encoded(e, words, digest).value| == 3 * |e|
  {
    hide Indices;
  }

  // ---------------------------------------------------------------- the loops

  /** Append the w bits of x, shifting the highest down first. */
  method AppendBits(bits: seq<nat>, x: nat, w: nat, count: nat) returns (r: seq<nat>)
    requires count <= w
    ensures r == bits + Bits(x, w)[..count]
  {
    r := bits;
    for j := 0 to count
      invariant r == bits + Bits(x, w)[..j]
    {
      BitAt(x, w, j);
      r := r + [x / Pow(2, w - 1 - j) % 2];
    }
  }

  /** Read w bits from position at as a number. */
  method ReadIndex(bits: seq<nat>, at: nat, w: nat) returns (idx: nat)
    requires at + w <= |bits|
    ensures idx == Value(2, bits[at..at + w])
  {
    idx := 0;
    assert bits[at..at] == [];
    for j := 0 to w
      invariant idx == Value(2, bits[at..at + j])
    {
      assert bits[at..at + j + 1] == bits[at..at + j] + [bits[at + j]];
      ValueSnoc(2, bits[at..at + j], bits[at + j]);
      idx := idx * 2 + bits[at + j];
    }
  }

  /** The bytes of the entropy, bit by bit. */
  method UnpackBytes(e: seq<Byte>) returns (bits: seq<nat>)
    ensures bits == Spread(e, 8)
  {
    hide Spread;
    bits := [];
    SpreadEmpty(8);
    for i := 0 to |e|
      invariant bits == Spread(e[..i], 8)
    {
      assert e[..i + 1] == e[..i] + [e[i]];
      SpreadSnoc(e[..i], e[i], 8);
      bits := AppendBits(bits, e[i], 8, 8);
    }
    assert e[..|e|] == e;
  }

  method PickWords(bits: seq<nat>, n: nat, words: seq<Word>) returns (m: seq<Word>)
    requires |bits| >= n * 11 && Digits(|words|, Gather(bits, n, 11))
    ensures m == Pick(words, Gather(bits, n, 11))
  {
    hide Gather, Value;
    ghost var xs := Gather(bits, n, 11);
    m := [];
    for i := 0 to n
      invariant m == Pick(words, xs)[..i]
    {
      GatherAt(bits, n, 11, i);
      var idx := ReadIndex(bits, i * 11, 11);
      assert idx == xs[i];
      m := m + [words[idx]];
    }
  }

  method EntropyToMnemonic(e: seq<Byte>, words: seq<Word>, digest: seq<Byte> -> Byte)
    returns (r: Result<seq<Word>, Error>)
    requires |words| == LIST_SIZE
    ensures r == Encoded(e, words, digest)
  {
    if !EntropyLength(|e|) {
      return Err(BadEntropyLength);
    }
    var cs := |e| / 4;
    var bits := UnpackBytes(e);
    bits := AppendBits(bits, digest(e), 8, cs);
    ghost var xs := Indices(e, digest);
    assert bits == Stream(e, digest);
    hide Gather, Spread, Stream, Bits, Checksum;
    var mnemonic := PickWords(bits, cs * 3, words);
    return Ok(mnemonic);
  }

  lemma SpreadEmpty(w: nat)
    ensures Spread([], w) == []
  {
  }

  /** Or eight bits into a zero byte, the first in the highest place. */
  method PackByte(group: seq<nat>) returns (b: Byte)
    requires |group| == 8 && Digits(2, group)
    ensures b == Value(2, group)
  {
    hide Value, Pow;
    b := 0;
    EmptyValue();
    for j := 0 to 8
      invariant b == Value(2, group[..j]) * Pow(2, 8 - j)
    {
      PackBit(group, j);
      b := b + group[j] * Pow(2, 7 - j);
    }
    assert group[..8] == group;
    UnitPower();
  }

  lemma UnitPower()
    ensures Pow(2, 0) == 1
  {
  }

  /** Pack a stream's whole bytes into a zeroed buffer. */
  method PackBytes(bits: seq<nat>, n: nat) returns (e: seq<Byte>)
    requires Digits(2, bits) && |bits| >= n * 8
    ensures e == Gather(bits, n, 8)
  {
    var buf := new Byte[n](_ => 0);
    hide Gather, Value;
    for i := 0 to n
      invariant forall k :: 0 <= k < i ==> buf[k] == Gather(bits, n, 8)[k]
    {
      GatherAt(bits, n, 8, i);
      buf[i] := PackByte(bits[i * 8..i * 8 + 8]);
    }
    return buf[..];
  }

  lemma EmptyValue()
    ensures Value(2, []) == 0
  {
  }

  /** One more bit of a byte, in its own place. */
  lemma PackBit(group: seq<nat>, j: nat)
    requires |group| == 8 && Digits(2, group) && j < 8
    ensures Value(2, group[..j]) * Pow(2, 8 - j) + group[j] * Pow(2, 7 - j)
         == Value(2, group[..j + 1]) * Pow(2, 7 - j) < 256
  {
    assert group[..j + 1] == group[..j] + [group[j]];
    ValueSnoc(2, group[..j], group[j]);
    var v, p := Value(2, group[..j]), Pow(2, 7 - j);
    assert Pow(2, 8 - j) == 2 * p;
    Shifted(v, group[j], p);
    ValueBound(2, group[..j + 1]);
    PowAdd(2, j + 1, 7 - j);
    EleventhPower();
    MulMonotone(p, Value(2, group[..j + 1]), Pow(2, j + 1) - 1);
  }

  lemma Shifted(v: nat, b: nat, p: nat)
    ensures v * (2 * p) + b * p == (v * 2 + b) * p
  {
  }

  method MnemonicToEntropy(m: seq<Word>, words: seq<Word>, digest: seq<Byte> -> Byte)
    returns (r: Result<seq<Byte>, Error>)
    ensures r == Decoded(m, words, digest)
  {
    AllKnown(words, m);
    if !WordCount(|m|) {
      return Err(BadWordCount);
    }
    var bits, known := LookupBits(m, words);
    if known < |m| {
      return Err(UnknownWord(known));
    }
    ghost var xs := Lookup(words, m);
    assert bits == Unpacked(xs);
    var cs := |m| * 11 / 33;
    assert cs == |m| / 3;
    var e := PackBytes(bits, cs * 4);
    hide Gather, Spread;
    assert e == Recovered(xs);
    var same := VerifyChecksum(bits[cs * 32..], digest(e), cs);
    if !same {
      return Err(ChecksumMismatch);
    }
    return Ok(e);
  }

  /** The words' bits, up to the first word that is not in the list. */
  method LookupBits(m: seq<Word>, words: seq<Word>) returns (bits: seq<nat>, known: nat)
    ensures known == match FirstUnknown(words, m) { case None => |m| case Some(k) => k }
    ensures known == |m| ==> (forall i :: 0 <= i < |m| ==> m[i] in words) && bits == Spread(Lookup(words, m), 11)
  {
    AllKnown(words, m);
    bits := [];
    SpreadEmpty(11);
    hide Spread, Bits, Lookup, IndexOf, FirstUnknown;
    for i := 0 to |m|
      invariant forall k :: 0 <= k < i ==> m[k] in words
      invariant bits == Spread(Lookup(words, m[..i]), 11)
    {
      var x := IndexOf(words, m[i]);
      if x.None? {
        FirstIs(words, m, i);
        return [], i;
      }
      LookupSpread(words, m, i);
      bits := AppendBits(bits, x.value, 11, 11);
    }
    assert m[..|m|] == m;
    known := |m|;
  }

  lemma LookupSpread(words: seq<Word>, m: seq<Word>, i: nat)
    requires i < |m| && forall k :: 0 <= k <= i ==> m[k] in words
    ensures Spread(Lookup(words, m[..i + 1]), 11)
         == Spread(Lookup(words, m[..i]), 11) + Bits(IndexOf(words, m[i]).value, 11)[..11]
  {
    hide Spread, Bits, Lookup, IndexOf;
    LookupNext(words, m, i);
    SpreadSnoc(Lookup(words, m[..i]), IndexOf(words, m[i]).value, 11);
    var b := Bits(IndexOf(words, m[i]).value, 11);
    assert b[..11] == b;
  }

  lemma LookupNext(words: seq<Word>, m: seq<Word>, i: nat)
    requires i < |m| && forall k :: 0 <= k <= i ==> m[k] in words
    ensures Lookup(words, m[..i + 1]) == Lookup(words, m[..i]) + [IndexOf(words, m[i]).value]
  {
    hide IndexOf;
  }

  lemma {:induction false} FirstIs(words: seq<Word>, m: seq<Word>, i: nat)
    requires i < |m| && m[i] !in words && forall k :: 0 <= k < i ==> m[k] in words
    ensures FirstUnknown(words, m) == Some(i)
  {
    AllKnown(words, m[..|m| - 1]);
    if i < |m| - 1 {
      FirstIs(words, m[..|m| - 1], i);
    }
  }

  method VerifyChecksum(tail: seq<nat>, sum: Byte, cs: nat) returns (same: bool)
    requires |tail| == cs && cs <= 8
    ensures same == (tail == Bits(sum, 8)[..cs])
  {
    for i := 0 to cs
      invariant forall k :: 0 <= k < i ==> tail[k] == Bits(sum, 8)[k]
    {
      BitAt(sum, 8, i);
      if tail[i] != sum / Pow(2, 7 - i) % 2 {
        assert tail[i] != Bits(sum, 8)[..cs][i];
        return false;
      }
    }
    return true;
  }
}
