// Base58 decoding, proved inverse to an encoder in both directions.

module Base58 {
  import opened Numerals
  import opened Results
  import opened Text

  const DIGITS := "123456789"
  const UPPER_N := "ABCDEFGHJKLMN"
  const UPPER_Z := "PQRSTUVWXYZ"
  const LOWER_K := "abcdefghijk"
  const LOWER_Z := "mnopqrstuvwxyz"
  const ALPHABET: string := DIGITS + UPPER_N + UPPER_Z + LOWER_K + LOWER_Z

  // ----- the alphabet -----

  predicate Within(s: string, lo: char, hi: char)
  {
    forall i :: 0 <= i < |s| ==> lo <= s[i] <= hi
  }

  lemma DigitsDistinct()
    ensures |DIGITS| == 9 && Distinct(DIGITS) && Within(DIGITS, '1', '9')
  {
  }

  lemma UpperDistinct()
    ensures |UPPER_N| == 13 && Distinct(UPPER_N) && Within(UPPER_N, 'A', 'N')
    ensures |UPPER_Z| == 11 && Distinct(UPPER_Z) && Within(UPPER_Z, 'P', 'Z')
  {
  }

  lemma LowerDistinct()
    ensures |LOWER_K| == 11 && Distinct(LOWER_K) && Within(LOWER_K, 'a', 'k')
    ensures |LOWER_Z| == 14 && Distinct(LOWER_Z) && Within(LOWER_Z, 'm', 'z')
  {
  }

  lemma AppendDistinct(a: string, b: string, hi: char, lo: char)
    requires Distinct(a) && Distinct(b) && Within(a, '0', hi) && Within(b, lo, 'z') && hi < lo
    ensures Distinct(a + b)
  {
  }

  lemma AlphabetDistinct()
    ensures |ALPHABET| == 58 && Distinct(ALPHABET) && ALPHABET[0] == '1'
  {
    DigitsDistinct();
    UpperDistinct();
    LowerDistinct();
    AppendDistinct(DIGITS, UPPER_N, '9', 'A');
    AppendDistinct(DIGITS + UPPER_N, UPPER_Z, 'N', 'P');
    AppendDistinct(DIGITS + UPPER_N + UPPER_Z, LOWER_K, 'Z', 'a');
    AppendDistinct(DIGITS + UPPER_N + UPPER_Z + LOWER_K, LOWER_Z, 'k', 'm');
  }

  // ----- decoding -----

  /** A base58 string: every character is in the alphabet. */
  predicate Base58String(s: string)
  {
    Over(ALPHABET, s)
  }

  function Indices(s: string): (ds: seq<nat>)
    requires Base58String(s)
    ensures |ds| == |s| && Digits(58, ds)
    ensures forall i :: 0 <= i < |s| ==> ds[i] < |ALPHABET| && ALPHABET[ds[i]] == s[i]
  {
    AlphabetDistinct();
    IndicesIn(ALPHABET, s)
  }

  /** Rewrites a numeral from one base to another, keeping its leading zeros. */
  function Recode(from: nat, to: nat, ds: seq<nat>): (r: seq<nat>)
    requires to >= 2
    ensures Digits(to, r)
  {
    Zeros(LeadingZeros(ds)) + ToDigits(to, Value(from, ds))
  }

  /** What base58Decode returns: the bytes, or the first character outside the alphabet. */
  function Decoded(s: string): Result<seq<Byte>, char>
  {
    if Base58String(s) then Ok(Recode(58, 256, Indices(s)))
    else Err(FirstForeign(ALPHABET, s))
  }

  /** The reference encoder. */
  function Encoded(b: seq<Byte>): string
  {
    AlphabetDistinct();
    var ds := Recode(256, 58, b);
    seq(|ds|, i requires 0 <= i < |ds| => ALPHABET[ds[i]])
  }

  /** base58Decode as written: one pass for the number, one for the leading '1's. */
  method Decode(s: string) returns (r: Result<seq<Byte>, char>)
    ensures r == Decoded(s)
  {
    var n := 0;
    ghost var seen: seq<nat> := [];
    assert n == Value(58, seen);
    hide Value, ToDigits, IndexRune, Decoded, Zeros, FirstForeign;
    var k := 0;
    while k < |s|
      invariant 0 <= k <= |s|
      invariant |seen| == k
      invariant forall i :: 0 <= i < k ==> IndexRune(ALPHABET, s[i]) == Some(seen[i])
      invariant n == Value(58, seen)
    {
      var idx := IndexRune(ALPHABET, s[k]);
      if idx.None? {
        DecodedForeign(s, k);
        return Err(s[k]);
      }
      ValueSnoc(58, seen, idx.value);
      seen := seen + [idx.value];
      n := n * 58 + idx.value;
      k := k + 1;
    }
    var decoded: seq<Byte> := ToDigits(256, n);
    var leading := 0;
    while leading < |s| && s[leading] == '1'
      invariant 0 <= leading <= |s|
      invariant forall i :: 0 <= i < leading ==> s[i] == '1'
    {
      leading := leading + 1;
    }
    DecodedNumeral(s, seen, leading);
    return Ok(Zeros(leading) + decoded);
  }

  lemma DecodedForeign(s: string, k: nat)
    requires k < |s| && IndexRune(ALPHABET, s[k]).None?
    requires forall i :: 0 <= i < k ==> IndexRune(ALPHABET, s[i]).Some?
    ensures Decoded(s) == Err(s[k])
  {
    hide IndexRune, Recode;
    assert !Base58String(s);
    FirstForeignAt(ALPHABET, s, k);
  }

  lemma DecodedNumeral(s: string, seen: seq<nat>, leading: nat)
    requires |seen| == |s| && leading <= |s|
    requires forall i :: 0 <= i < |s| ==> IndexRune(ALPHABET, s[i]) == Some(seen[i])
    requires forall i :: 0 <= i < leading ==> s[i] == '1'
    requires leading < |s| ==> s[leading] != '1'
    ensures Decoded(s) == Ok(Zeros(leading) + ToDigits(256, Value(58, seen)))
  {
    hide IndexRune, Value, ToDigits, Zeros;
    assert Base58String(s) && seen == Indices(s);
    LeadingOnes(s, leading);
  }

  lemma LeadingOnes(s: string, k: nat)
    requires Base58String(s) && k <= |s|
    requires forall i :: 0 <= i < k ==> s[i] == '1'
    requires k < |s| ==> s[k] != '1'
    ensures LeadingZeros(Indices(s)) == k
  {
    AlphabetDistinct();
    var ds := Indices(s);
    var z := LeadingZeros(ds);
    assert forall i :: 0 <= i < |s| ==> (ds[i] == 0 <==> s[i] == '1');
  }

  // ----- bijection -----

  lemma {:induction false} LeadingZerosOf(k: nat, ds: seq<nat>)
    requires |ds| > 0 ==> ds[0] != 0
    ensures LeadingZeros(Zeros(k) + ds) == k
  {
    var e := Zeros(k) + ds;
    assert k < |e| ==> e[k] == ds[0];
    assert forall i :: 0 <= i < k ==> e[i] == 0;
  }

  /** Re-coding to another base and back is the identity. */
  lemma RecodeInverse(from: nat, to: nat, ds: seq<nat>)
    requires from >= 2 && to >= 2 && Digits(from, ds)
    ensures Recode(to, from, Recode(from, to, ds)) == ds
  {
    var k := LeadingZeros(ds);
    var rest := ds[k..];
    assert ds == Zeros(k) + rest;
    ValueIgnoresLeadingZeros(from, k, rest);
    CanonicalDigits(from, rest);
    var v := Value(from, ds);
    LeadingZerosOf(k, ToDigits(to, v));
    ValueIgnoresLeadingZeros(to, k, ToDigits(to, v));
    ValueOfToDigits(to, v);
  }

  lemma DecodeOfEncode(b: seq<Byte>)
    ensures Decoded(Encoded(b)) == Ok(b)
  {
    AlphabetDistinct();
    var s, ds := Encoded(b), Recode(256, 58, b);
    forall i | 0 <= i < |s| ensures IndexRune(ALPHABET, s[i]) == Some(ds[i]) {
      IndexOfDistinct(ALPHABET, ds[i]);
    }
    assert Indices(s) == ds;
    RecodeInverse(256, 58, b);
  }

  lemma EncodeOfDecode(s: string)
    requires Decoded(s).Ok?
    ensures Encoded(Decoded(s).value) == s
  {
    RecodeInverse(58, 256, Indices(s));
  }

  /** base58Decode is injective on the strings it accepts. */
  lemma DecodeInjective(s: string, t: string)
    requires Decoded(s).Ok? && Decoded(s) == Decoded(t)
    ensures s == t
  {
    EncodeOfDecode(s);
    EncodeOfDecode(t);
  }
}
