// The bech32 / bech32m checksum: the BCH residue and what it detects.

module Bech32 {
  import opened Numerals

  const CHARSET: string := "qpzry9x8gf2tvdw0s3jn54khce6mua7l"
  const BECH32_CONST: bv30 := 1
  const BECH32M_CONST: bv30 := 0x2bc830a3

  // ----- the residue -----

  /** The generator coefficients selected by the five bits shifted out. */
  function Generator(top: bv5): bv30
  {
    (if top & 1 == 1 then 0x3b6a57b2 else 0) ^ (if top & 2 == 2 then 0x26508e6d else 0) ^
    (if top & 4 == 4 then 0x1ea119fa else 0) ^ (if top & 8 == 8 then 0x3d4233dd else 0) ^
    (if top & 16 == 16 then 0x2a1462b3 else 0)
  }

  function Top(c: bv30): bv5 { (c >> 25) as bv5 }
  function Low(c: bv30): bv5 { (c & 31) as bv5 }
  function Mix(c: bv30, v: bv5, g: bv30): bv30 { ((c << 5) ^ (v as bv30)) ^ g }

  /** One round of bech32Polymod. The state never leaves 30 bits. */
  function Step(c: bv30, v: bv5): bv30 { Mix(c, v, Generator(Top(c))) }

  predicate Symbols(vs: seq<nat>)
  {
    Digits(32, vs)
  }

  function Symbol(v: nat): bv5
    requires v < 32
  {
    v as bv5
  }

  function PolymodFrom(c: bv30, vs: seq<nat>): bv30
    requires Symbols(vs)
  {
    if |vs| == 0 then c else Step(PolymodFrom(c, vs[..|vs| - 1]), Symbol(vs[|vs| - 1]))
  }

  function Polymod(vs: seq<nat>): bv30
    requires Symbols(vs)
  {
    PolymodFrom(1, vs)
  }

  /** bech32Polymod as written, with its inner loop over the five generators. */
  method ComputePolymod(vs: seq<nat>) returns (chk: bv30)
    requires Symbols(vs)
    ensures chk == Polymod(vs)
  {
    chk := 1;
    for k := 0 to |vs|
      invariant chk == Polymod(vs[..k])
    {
      assert vs[..k + 1] == vs[..k] + [vs[k]];
      PolymodSnoc(1, vs[..k], vs[k]);
      chk := Round(chk, vs[k] as bv5);
    }
    assert vs[..|vs|] == vs;
  }

  /** The body of the outer loop: shift in a symbol, then fold the generators. */
  method Round(chk: bv30, v: bv5) returns (r: bv30)
    ensures r == Step(chk, v)
  {
    hide Step, GeneratorAt, Bit;
    var top := Top(chk);
    var shifted := ((chk & 0x1ffffff) << 5) ^ (v as bv30);
    r := shifted;
    for i := 0 to 5
      invariant r == Folded(shifted, top, i)
    {
      if top & Bit(i) == Bit(i) {
        r := r ^ GeneratorAt(i);
      }
    }
    FoldedIsStep(chk, v);
  }

  function Bit(i: nat): bv5
  {
    if i == 0 then 1 else if i == 1 then 2 else if i == 2 then 4 else if i == 3 then 8 else 16
  }

  function GeneratorAt(i: nat): bv30
  {
    if i == 0 then 0x3b6a57b2 else if i == 1 then 0x26508e6d else if i == 2 then 0x1ea119fa
    else if i == 3 then 0x3d4233dd else 0x2a1462b3
  }

  /** r after i turns of the inner loop. */
  function Folded(r: bv30, top: bv5, i: nat): bv30
  {
    if i == 0 then r
    else if top & Bit(i - 1) == Bit(i - 1) then Folded(r, top, i - 1) ^ GeneratorAt(i - 1)
    else Folded(r, top, i - 1)
  }

  lemma FoldedIsStep(c: bv30, v: bv5)
    ensures Folded(((c & 0x1ffffff) << 5) ^ (v as bv30), Top(c), 5) == Step(c, v)
  {
    hide GeneratorAt, Bit, Generator, Top;
    MaskedShift(c);
    FoldedShift((c << 5) ^ (v as bv30), Top(c), 5);
    FoldedIsGenerator(Top(c));
  }

  lemma {:induction false} FoldedShift(r: bv30, top: bv5, i: nat)
    ensures Folded(r, top, i) == r ^ Folded(0, top, i)
  {
    hide GeneratorAt, Bit;
    if i == 0 {
      XorIdentity(r);
    } else {
      FoldedShift(r, top, i - 1);
      XorAssociative(r, Folded(0, top, i - 1), GeneratorAt(i - 1));
    }
  }

  lemma FoldedIsGenerator(t: bv5)
    ensures Folded(0, t, 5) == Generator(t)
  {
    assert Folded(0, t, 1) == if t & 1 == 1 then 0x3b6a57b2 else 0;
    assert Folded(0, t, 2) == Folded(0, t, 1) ^ (if t & 2 == 2 then 0x26508e6d else 0);
    assert Folded(0, t, 3) == Folded(0, t, 2) ^ (if t & 4 == 4 then 0x1ea119fa else 0);
    assert Folded(0, t, 4) == Folded(0, t, 3) ^ (if t & 8 == 8 then 0x3d4233dd else 0);
    assert Folded(0, t, 5) == Folded(0, t, 4) ^ (if t & 16 == 16 then 0x2a1462b3 else 0);
  }

  lemma XorAssociative(a: bv30, b: bv30, c: bv30)
    ensures (a ^ b) ^ c == a ^ (b ^ c)
  {
  }

  lemma XorIdentity(c: bv30)
    ensures c ^ 0 == c
  {
  }

  lemma MaskedShift(c: bv30)
    ensures (c & 0x1ffffff) << 5 == c << 5
  {
  }

  // ----- one round -----

  lemma GeneratorLowInjective(t: bv5, u: bv5)
    requires Low(Generator(t)) == Low(Generator(u))
    ensures t == u
  {
  }

  lemma MixLow(c: bv30, d: bv30, v: bv5, g: bv30, h: bv30)
    requires Mix(c, v, g) == Mix(d, v, h)
    ensures Low(g) == Low(h)
  {
  }

  lemma MixRest(c: bv30, d: bv30, v: bv5, g: bv30)
    requires Mix(c, v, g) == Mix(d, v, g) && Top(c) == Top(d)
    ensures c == d
  {
  }

  /** A round is injective in the state: no two 30-bit states merge. */
  lemma StepInjective(c: bv30, d: bv30, v: bv5)
    requires Step(c, v) == Step(d, v)
    ensures c == d
  {
    MixLow(c, d, v, Generator(Top(c)), Generator(Top(d)));
    GeneratorLowInjective(Top(c), Top(d));
    MixRest(c, d, v, Generator(Top(c)));
  }

  lemma SameTop(c: bv30, d: bv30)
    requires (c ^ d) < 0x2000000
    ensures Top(c) == Top(d)
  {
  }

  lemma MixDifference(c: bv30, d: bv30, v: bv5, w: bv5, g: bv30)
    ensures Mix(c, v, g) ^ Mix(d, w, g) == ((c ^ d) << 5) ^ ((v ^ w) as bv30)
  {
  }

  /** States that agree in their top five bits stay apart by exactly the shifted difference. */
  lemma StepDifference(c: bv30, d: bv30, v: bv5, w: bv5)
    requires (c ^ d) < 0x2000000
    ensures Step(c, v) ^ Step(d, w) == ((c ^ d) << 5) ^ ((v ^ w) as bv30)
  {
    SameTop(c, d);
    MixDifference(c, d, v, w, Generator(Top(c)));
  }

  lemma StepUnique(c: bv30, d: bv30, v: bv5, w: bv5)
    requires (c ^ d) < 0x2000000 && Step(c, v) == Step(d, w)
    ensures c == d && v == w
  {
    StepDifference(c, d, v, w);
    SelfXor(Step(c, v));
    ShiftedZero(c, d, v, w);
  }

  lemma ShiftedZero(c: bv30, d: bv30, v: bv5, w: bv5)
    requires (c ^ d) < 0x2000000 && ((c ^ d) << 5) ^ ((v ^ w) as bv30) == 0
    ensures c == d && v == w
  {
  }

  lemma SelfXor(c: bv30)
    ensures c ^ c == 0
  {
  }

  lemma StepSwap(c: bv30, v: bv5, w: bv5)
    requires Step(Step(c, v), w) == Step(Step(c, w), v)
    ensures v == w
  {
    hide Step;
    SelfXor(c);
    StepDifference(c, c, v, w);
    SmallGrows(c ^ c, v ^ w, 0);
    StepUnique(Step(c, v), Step(c, w), w, v);
  }

  lemma SymbolRoundTrip(v: nat)
    requires v < 32
    ensures Symbol(v) as int == v
  {
  }

  lemma SymbolInjective(v: nat, w: nat)
    requires v < 32 && w < 32 && Symbol(v) == Symbol(w)
    ensures v == w
  {
    SymbolRoundTrip(v);
    SymbolRoundTrip(w);
  }

  // ----- whole words -----

  lemma {:induction false} PolymodAppend(c: bv30, a: seq<nat>, b: seq<nat>)
    requires Symbols(a) && Symbols(b)
    ensures PolymodFrom(c, a + b) == PolymodFrom(PolymodFrom(c, a), b)
  {
    if |b| == 0 {
      assert a + b == a;
    } else {
      assert (a + b)[..|a + b| - 1] == a + b[..|b| - 1];
      PolymodAppend(c, a, b[..|b| - 1]);
    }
  }

  /** Once two states differ, no common suffix brings them together. */
  lemma {:induction false} SuffixKeepsDifference(c: bv30, d: bv30, vs: seq<nat>)
    requires Symbols(vs) && c != d
    ensures PolymodFrom(c, vs) != PolymodFrom(d, vs)
  {
    if |vs| > 0 {
      var init := vs[..|vs| - 1];
      SuffixKeepsDifference(c, d, init);
      if PolymodFrom(c, vs) == PolymodFrom(d, vs) {
        StepInjective(PolymodFrom(c, init), PolymodFrom(d, init), Symbol(vs[|vs| - 1]));
        assert false;
      }
    }
  }

  lemma PolymodSnoc(c: bv30, vs: seq<nat>, v: nat)
    requires Symbols(vs) && v < 32
    ensures PolymodFrom(c, vs + [v]) == Step(PolymodFrom(c, vs), Symbol(v))
  {
    assert (vs + [v])[..|vs|] == vs;
  }

  /** Changing exactly one symbol always changes the residue. */
  lemma SubstitutionDetected(vs: seq<nat>, i: nat, w: nat)
    requires Symbols(vs) && i < |vs| && w < 32 && w != vs[i]
    ensures Polymod(vs[i := w]) != Polymod(vs)
  {
    var pre, post := vs[..i], vs[i + 1..];
    assert vs == (pre + [vs[i]]) + post && vs[i := w] == (pre + [w]) + post;
    var c := PolymodFrom(1, pre);
    PolymodSnoc(1, pre, vs[i]);
    PolymodSnoc(1, pre, w);
    if Step(c, Symbol(vs[i])) == Step(c, Symbol(w)) {
      SelfXor(c);
      StepUnique(c, c, Symbol(vs[i]), Symbol(w));
      SymbolInjective(vs[i], w);
      assert false;
    }
    PolymodAppend(1, pre + [vs[i]], post);
    PolymodAppend(1, pre + [w], post);
    SuffixKeepsDifference(Step(c, Symbol(vs[i])), Step(c, Symbol(w)), post);
  }

  /** Exchanging two adjacent unequal symbols always changes the residue. */
  lemma TranspositionDetected(vs: seq<nat>, i: nat)
    requires Symbols(vs) && i + 1 < |vs| && vs[i] != vs[i + 1]
    ensures Polymod(vs[i := vs[i + 1]][i + 1 := vs[i]]) != Polymod(vs)
  {
    var a, b := vs[i], vs[i + 1];
    var pre, post := vs[..i], vs[i + 2..];
    assert vs == ((pre + [a]) + [b]) + post;
    assert vs[i := b][i + 1 := a] == ((pre + [b]) + [a]) + post;
    var c := PolymodFrom(1, pre);
    PolymodSnoc(1, pre, a);
    PolymodSnoc(1, pre + [a], b);
    PolymodSnoc(1, pre, b);
    PolymodSnoc(1, pre + [b], a);
    if Step(Step(c, Symbol(a)), Symbol(b)) == Step(Step(c, Symbol(b)), Symbol(a)) {
      StepSwap(c, Symbol(a), Symbol(b));
      SymbolInjective(a, b);
      assert false;
    }
    PolymodAppend(1, (pre + [a]) + [b], post);
    PolymodAppend(1, (pre + [b]) + [a], post);
    SuffixKeepsDifference(Step(Step(c, Symbol(a)), Symbol(b)), Step(Step(c, Symbol(b)), Symbol(a)), post);
  }

  // ----- a data prefix has at most one checksum -----

  /** The residues of two words of length j from a common state differ in their low 5j bits only. */
  predicate Small(e: bv30, j: nat)
  {
    if j == 0 then e == 0 else if j == 1 then e < 0x20 else if j == 2 then e < 0x400
    else if j == 3 then e < 0x8000 else if j == 4 then e < 0x10_0000 else if j == 5 then e < 0x200_0000 else true
  }

  lemma SmallGrows(e: bv30, x: bv5, j: nat)
    requires Small(e, j) && j <= 5
    ensures e < 0x2000000
    ensures Small((e << 5) ^ (x as bv30), j + 1)
  {
  }

  predicate Apart(c: bv30, d: bv30, j: nat)
  {
    Small(c ^ d, j)
  }

  lemma ApartStep(c: bv30, d: bv30, v: bv5, w: bv5, j: nat)
    requires Apart(c, d, j) && j <= 5
    ensures Apart(Step(c, v), Step(d, w), j + 1)
  {
    SmallGrows(c ^ d, v ^ w, j);
    StepDifference(c, d, v, w);
  }

  lemma ApartUnique(c: bv30, d: bv30, v: bv5, w: bv5, j: nat)
    requires Apart(c, d, j) && j <= 5 && Step(c, v) == Step(d, w)
    ensures c == d && v == w
  {
    hide Step;
    SmallGrows(c ^ d, 0, j);
    StepUnique(c, d, v, w);
  }

  lemma {:induction false} DifferenceSmall(c: bv30, xs: seq<nat>, ys: seq<nat>)
    requires Symbols(xs) && Symbols(ys) && |xs| == |ys| <= 5
    ensures Apart(PolymodFrom(c, xs), PolymodFrom(c, ys), |xs|)
  {
    hide Step, Apart, Symbol;
    var n := |xs|;
    if n > 0 {
      DifferenceSmall(c, xs[..n - 1], ys[..n - 1]);
      ApartStep(PolymodFrom(c, xs[..n - 1]), PolymodFrom(c, ys[..n - 1]),
                Symbol(xs[n - 1]), Symbol(ys[n - 1]), n - 1);
    } else {
      ApartSelf(c);
    }
  }

  lemma ApartSelf(c: bv30)
    ensures Apart(c, c, 0)
  {
  }

  /** At most one word of up to six symbols leads from a state to a given residue. */
  lemma {:induction false} ChecksumUnique(c: bv30, xs: seq<nat>, ys: seq<nat>)
    requires Symbols(xs) && Symbols(ys) && |xs| == |ys| <= 6
    requires PolymodFrom(c, xs) == PolymodFrom(c, ys)
    ensures xs == ys
  {
    hide Step, Apart, Symbol;
    var n := |xs|;
    if n > 0 {
      var xi, yi := xs[..n - 1], ys[..n - 1];
      DifferenceSmall(c, xi, yi);
      ApartUnique(PolymodFrom(c, xi), PolymodFrom(c, yi), Symbol(xs[n - 1]), Symbol(ys[n - 1]), n - 1);
      SymbolInjective(xs[n - 1], ys[n - 1]);
      ChecksumUnique(c, xi, yi);
      assert xs == xi + [xs[n - 1]] && ys == yi + [ys[n - 1]];
    }
  }

  // ----- every data prefix has a checksum -----

  /** The leading k five-bit groups of a 30-bit word. */
  function Leading(d: bv30, k: nat): bv30
    decreases 6 - k
  {
    if k >= 6 then d else Leading(d, k + 1) >> 5
  }

  /** The k-th five-bit group of a 30-bit word, most significant first. */
  function Group(d: bv30, k: nat): bv5
  {
    Low(Leading(d, k + 1))
  }

  function Append(e: bv30, x: bv5): bv30 { (e << 5) ^ (x as bv30) }
  predicate NearZero(e: bv30) { e < 0x200_0000 }

  lemma SplitGroup(x: bv30)
    ensures x == Append(x >> 5, Low(x))
    ensures NearZero(x >> 5)
  {
  }

  lemma SmallShrinks(x: bv30, j: nat)
    requires Small(x, j + 1)
    ensures Small(x >> 5, j)
  {
  }

  lemma {:induction false} LeadingSmall(d: bv30, k: nat)
    ensures Small(Leading(d, k), k)
    decreases 6 - k
  {
    if k < 6 {
      LeadingSmall(d, k + 1);
      SmallShrinks(Leading(d, k + 1), k);
    }
  }

  lemma LeadingNext(d: bv30, k: nat)
    requires k < 6
    ensures Leading(d, k + 1) == Append(Leading(d, k), Group(d, k))
    ensures NearZero(Leading(d, k))
  {
    hide Low, Append, NearZero;
    SplitGroup(Leading(d, k + 1));
  }

  /** The six symbols that move a residue by d. */
  function Correction(d: bv30, k: nat): (xs: seq<nat>)
    ensures |xs| == k && Symbols(xs)
  {
    if k == 0 then [] else Correction(d, k - 1) + [Group(d, k - 1) as int]
  }

  lemma SymbolOfGroup(x: bv5)
    ensures Symbol(x as int) == x
  {
  }

  function Xor(a: bv30, b: bv30): bv30 { a ^ b }

  lemma {:induction false} CorrectionMoves(c: bv30, d: bv30, k: nat)
    requires k <= 6
    ensures Xor(PolymodFrom(c, Correction(d, k)), PolymodFrom(c, Zeros(k))) == Leading(d, k)
  {
    hide Step, Leading, Group, Symbol, Xor;
    if k == 0 {
      LeadingZero(c, d);
    } else {
      CorrectionMoves(c, d, k - 1);
      var x := Group(d, k - 1);
      SymbolOfGroup(x);
      SymbolOfGroup(0);
      PolymodSnoc(c, Correction(d, k - 1), x as int);
      assert Zeros(k) == Zeros(k - 1) + [0];
      PolymodSnoc(c, Zeros(k - 1), 0);
      LeadingStep(d, k - 1, PolymodFrom(c, Correction(d, k - 1)), PolymodFrom(c, Zeros(k - 1)));
    }
  }

  lemma LeadingStep(d: bv30, k: nat, p: bv30, z: bv30)
    requires k < 6 && Xor(p, z) == Leading(d, k)
    ensures Xor(Step(p, Group(d, k)), Step(z, 0)) == Leading(d, k + 1)
  {
    hide Step, Leading, Group, Xor, Append, NearZero;
    LeadingNext(d, k);
    StepOffset(p, z, Group(d, k), Leading(d, k));
  }

  lemma StepOffset(p: bv30, z: bv30, x: bv5, e: bv30)
    requires Xor(p, z) == e && NearZero(e)
    ensures Xor(Step(p, x), Step(z, 0)) == Append(e, x)
  {
    hide Step;
    StepDifference(p, z, x, 0);
    XorZeroSymbol(x);
  }

  lemma LeadingZero(c: bv30, d: bv30)
    ensures Xor(c, c) == Leading(d, 0)
  {
    LeadingSmall(d, 0);
    SelfXor(c);
  }

  lemma XorZeroSymbol(x: bv5)
    ensures x ^ 0 == x
  {
  }

  /** The checksum that leads from state c to residue t. */
  function Checksum(c: bv30, t: bv30): (xs: seq<nat>)
    ensures |xs| == 6 && Symbols(xs)
  {
    Correction(Xor(t, PolymodFrom(c, Zeros(6))), 6)
  }

  /** Every data prefix has a checksum; ChecksumUnique says it has no other. */
  lemma ChecksumReaches(c: bv30, t: bv30)
    ensures PolymodFrom(c, Checksum(c, t)) == t
  {
    hide Step, PolymodFrom, Correction, Xor;
    var z := PolymodFrom(c, Zeros(6));
    CorrectionMoves(c, Xor(t, z), 6);
    XorCancels(PolymodFrom(c, Checksum(c, t)), z, t);
  }

  lemma XorCancels(p: bv30, z: bv30, t: bv30)
    requires Xor(p, z) == Xor(t, z)
    ensures p == t
  {
  }
}
