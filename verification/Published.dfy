// Published addresses, from their characters to their locking scripts. They fix
// the charset, the generators, the residue constants and the opcodes.

module Published {
  import opened Numerals
  import opened Results
  import opened Text
  import opened Regroup
  import opened Bech32
  import opened Address
  import opened Script

  // ---------------------------------------------------------------- segwit, in groups of eight symbols and five bytes

  /** The characters are the charset's for these symbols. */
  predicate Spells(text: string, symbols: seq<nat>)
  {
    |text| == |symbols| && Symbols(symbols) && |CHARSET| == 32
    && forall i :: 0 <= i < |text| ==> text[i] == CHARSET[symbols[i]]
  }

  /** The charset, symbol by symbol. */
  function Letter(v: nat): char
  {
    match v
    case 0 => 'q' case 1 => 'p' case 2 => 'z' case 3 => 'r' case 4 => 'y' case 5 => '9' case 6 => 'x'
    case 7 => '8' case 8 => 'g' case 9 => 'f' case 10 => '2' case 11 => 't' case 12 => 'v' case 13 => 'd'
    case 14 => 'w' case 15 => '0' case 16 => 's' case 17 => '3' case 18 => 'j' case 19 => 'n' case 20 => '5'
    case 21 => '4' case 22 => 'k' case 23 => 'h' case 24 => 'c' case 25 => 'e' case 26 => '6' case 27 => 'm'
    case 28 => 'u' case 29 => 'a' case 30 => '7'
    case _ => 'l'
  }

  lemma Letters()
    ensures |CHARSET| == 32 && forall v :: 0 <= v < 32 ==> CHARSET[v] == Letter(v)
  {
  }

  lemma SpellsEight(text: string, v: seq<nat>)
    requires |v| == 8 && Symbols(v)
    requires text == [Letter(v[0]), Letter(v[1]), Letter(v[2]), Letter(v[3]), Letter(v[4]), Letter(v[5]), Letter(v[6]),
                      Letter(v[7])]
    ensures Spells(text, v)
  {
    Letters();
    hide Letter;
  }

  lemma SpellsSix(text: string, v: seq<nat>)
    requires |v| == 6 && Symbols(v)
    requires text == [Letter(v[0]), Letter(v[1]), Letter(v[2]), Letter(v[3]), Letter(v[4]), Letter(v[5])]
    ensures Spells(text, v)
  {
    Letters();
    hide Letter;
  }

  /** The symbols take the residue from one state to another. */
  predicate Runs(text: string, symbols: seq<nat>, before: bv30, after: bv30)
  {
    Spells(text, symbols) && PolymodFrom(before, symbols) == after
  }

  /** And they are these bytes, bit for bit. */
  predicate Part(text: string, symbols: seq<nat>, bytes: seq<nat>, before: bv30, after: bv30)
  {
    Runs(text, symbols, before, after) && 5 * |symbols| == 8 * |bytes| && |bytes| % 5 == 0
    && Digits(256, bytes) && Value(32, symbols) == Value(256, bytes)
  }

  function Fed(c: bv30, a: bv5, b: bv5, d: bv5, e: bv5): bv30
  {
    Step(Step(Step(Step(c, a), b), d), e)
  }

  lemma Two(c: bv30, a: nat, b: nat)
    requires a < 32 && b < 32
    ensures PolymodFrom(c, [a, b]) == Step(Step(c, Symbol(a)), Symbol(b))
  {
    assert PolymodFrom(c, []) == c;
    hide Step, Symbol, PolymodFrom;
    PolymodSnoc(c, [], a);
    assert [] + [a] == [a];
    PolymodSnoc(c, [a], b);
    assert [a] + [b] == [a, b];
  }

  lemma Four(c: bv30, a: nat, b: nat, d: nat, e: nat)
    requires a < 32 && b < 32 && d < 32 && e < 32
    ensures PolymodFrom(c, [a, b, d, e]) == Fed(c, Symbol(a), Symbol(b), Symbol(d), Symbol(e))
  {
    hide Step, Symbol, PolymodFrom;
    Two(c, a, b);
    PolymodSnoc(c, [a, b], d);
    PolymodSnoc(c, [a, b] + [d], e);
    assert [a, b] + [d] + [e] == [a, b, d, e];
  }

  lemma Six(c: bv30, v: seq<nat>)
    requires |v| == 6 && Symbols(v)
    ensures PolymodFrom(c, v)
         == Step(Step(Fed(c, Symbol(v[0]), Symbol(v[1]), Symbol(v[2]), Symbol(v[3])), Symbol(v[4])), Symbol(v[5]))
  {
    hide Step, Symbol, PolymodFrom;
    var x := [v[0], v[1], v[2], v[3]];
    Four(c, v[0], v[1], v[2], v[3]);
    Two(PolymodFrom(c, x), v[4], v[5]);
    PolymodAppend(c, x, [v[4], v[5]]);
    assert v == x + [v[4], v[5]];
  }

  lemma Eight(c: bv30, v: seq<nat>)
    requires |v| == 8 && Symbols(v)
    ensures PolymodFrom(c, v)
         == Fed(Fed(c, Symbol(v[0]), Symbol(v[1]), Symbol(v[2]), Symbol(v[3])),
                Symbol(v[4]), Symbol(v[5]), Symbol(v[6]), Symbol(v[7]))
  {
    hide Fed, Symbol, PolymodFrom;
    Four(c, v[0], v[1], v[2], v[3]);
    Halves(v);
    PolymodAppend(c, [v[0], v[1], v[2], v[3]], [v[4], v[5], v[6], v[7]]);
    Four(PolymodFrom(c, [v[0], v[1], v[2], v[3]]), v[4], v[5], v[6], v[7]);
  }

  lemma Halves(v: seq<nat>)
    requires |v| == 8
    ensures v == [v[0], v[1], v[2], v[3]] + [v[4], v[5], v[6], v[7]]
  {
  }

  lemma TwoValue(a: nat, b: nat)
    ensures Value(256, [a, b]) == a * 256 + b
  {
    ValueSnoc(256, [], a);
    ValueSnoc(256, [] + [a], b);
    assert [] + [a] + [b] == [a, b];
  }

  lemma FourValue(a: nat, b: nat, d: nat, e: nat)
    ensures Value(32, [a, b, d, e]) == a * 32768 + b * 1024 + d * 32 + e
  {
    ValueSnoc(32, [], a);
    ValueSnoc(32, [] + [a], b);
    ValueSnoc(32, [] + [a] + [b], d);
    ValueSnoc(32, [] + [a] + [b] + [d], e);
    assert [] + [a] + [b] + [d] + [e] == [a, b, d, e];
  }

  lemma FiveValue(b: seq<nat>)
    requires |b| == 5
    ensures Value(256, b) == Octets(b)
  {
    TwoValue(b[0], b[1]);
    ValueSnoc(256, [b[0], b[1]], b[2]);
    ValueSnoc(256, [b[0], b[1]] + [b[2]], b[3]);
    ValueSnoc(256, [b[0], b[1]] + [b[2]] + [b[3]], b[4]);
    assert [b[0], b[1]] + [b[2]] + [b[3]] + [b[4]] == b;
  }

  lemma EightValue(v: seq<nat>)
    requires |v| == 8
    ensures Value(32, v) == Bits(v)
  {
    FourValue(v[0], v[1], v[2], v[3]);
    FourValue(v[4], v[5], v[6], v[7]);
    var a, b := [v[0], v[1], v[2], v[3]], [v[4], v[5], v[6], v[7]];
    assert Pow(32, 4) == 32 * (32 * (32 * (32 * Pow(32, 0)))) == 0x10_0000;
    ValueAppend(32, a, b);
    assert v == a + b;
  }

  /** The number eight symbols stand for, and five bytes. */
  function Bits(v: seq<nat>): nat
    requires |v| == 8
  {
    (v[0] * 32768 + v[1] * 1024 + v[2] * 32 + v[3]) * 0x10_0000 + (v[4] * 32768 + v[5] * 1024 + v[6] * 32 + v[7])
  }

  function Octets(b: seq<nat>): nat
    requires |b| == 5
  {
    b[0] * 0x1_0000_0000 + b[1] * 0x100_0000 + b[2] * 0x1_0000 + b[3] * 0x100 + b[4]
  }

  lemma Whole(text: string, v: seq<nat>, b: seq<nat>, before: bv30, after: bv30)
    requires |v| == 8 && |b| == 5 && Symbols(v) && Digits(256, b) && Bits(v) == Octets(b)
    requires text == [Letter(v[0]), Letter(v[1]), Letter(v[2]), Letter(v[3]), Letter(v[4]), Letter(v[5]), Letter(v[6]),
                      Letter(v[7])]
    requires Fed(Fed(before, Symbol(v[0]), Symbol(v[1]), Symbol(v[2]), Symbol(v[3])),
                 Symbol(v[4]), Symbol(v[5]), Symbol(v[6]), Symbol(v[7])) == after
    ensures Part(text, v, b, before, after)
  {
    hide Fed, PolymodFrom, Value, Symbol, Letter;
    SpellsEight(text, v);
    hide Spells;
    EightValue(v);
    FiveValue(b);
    Eight(before, v);
  }

  lemma Sealed(text: string, v: seq<nat>, before: bv30, after: bv30)
    requires |v| == 6 && Symbols(v)
    requires text == [Letter(v[0]), Letter(v[1]), Letter(v[2]), Letter(v[3]), Letter(v[4]), Letter(v[5])]
    requires Step(Step(Fed(before, Symbol(v[0]), Symbol(v[1]), Symbol(v[2]), Symbol(v[3])), Symbol(v[4])), Symbol(v[5]))
          == after
    ensures Runs(text, v, before, after)
  {
    hide Fed, Step, PolymodFrom, Symbol, Letter;
    SpellsSix(text, v);
    Six(before, v);
  }

  lemma RunsOn(t: string, v: seq<nat>, a: bv30, b: bv30, u: string, w: seq<nat>, c: bv30)
    requires Runs(t, v, a, b) && Runs(u, w, b, c)
    ensures Runs(t + u, v + w, a, c)
  {
    hide PolymodFrom;
    PolymodAppend(a, v, w);
  }

  lemma JoinedValue(v: seq<nat>, x: seq<nat>, w: seq<nat>, y: seq<nat>)
    requires Value(32, v) == Value(256, x) && Value(32, w) == Value(256, y) && 5 * |w| == 8 * |y|
    ensures Value(32, v + w) == Value(256, x + y)
  {
    hide Value;
    ValueAppend(32, v, w);
    ValueAppend(256, x, y);
    SamePower(|w|, |y|);
  }

  lemma Joined(t: string, v: seq<nat>, x: seq<nat>, a: bv30, b: bv30, u: string, w: seq<nat>, y: seq<nat>, c: bv30)
    requires Part(t, v, x, a, b) && Part(u, w, y, b, c)
    ensures Part(t + u, v + w, x + y, a, c)
  {
    hide PolymodFrom, Value, Runs;
    RunsOn(t, v, a, b, u, w, c);
    JoinedValue(v, x, w, y);
  }

  lemma SamePower(m: nat, n: nat)
    requires 5 * m == 8 * n
    ensures Pow(32, m) == Pow(256, n)
  {
    FiveAndEight();
    PowPow(2, 5, m);
    PowPow(2, 8, n);
  }

  lemma FiveAndEight()
    ensures Pow(2, 5) == 32 && Pow(2, 8) == 256
  {
    assert Pow(2, 5) == 2 * (2 * (2 * (2 * (2 * Pow(2, 0)))));
    assert Pow(2, 8) == 2 * (2 * (2 * Pow(2, 5)));
  }

  // ---------------------------------------------------------------- from groups to an address

  /** The symbols hold the program, followed by pad zero bits. */
  predicate Holds(symbols: seq<nat>, program: seq<nat>, pad: nat)
  {
    Symbols(symbols) && Digits(256, program) && pad < 5 && 5 * |symbols| == 8 * |program| + pad
    && Value(32, symbols) == Value(256, program) * Pow(2, pad)
  }

  lemma Unpacked(symbols: seq<nat>, program: seq<nat>, pad: nat)
    requires Holds(symbols, program, pad)
    ensures Converted(symbols, 5, 8, false) == Ok(program)
  {
    FiveAndEight();
    hide Pow, Value, WholeGroups;
    assert |symbols| * 5 % 8 == pad && |symbols| * 5 / 8 == |program|;
    assert Pow(2, pad) > 0;
    DivModUnique(Value(256, program), 0, Pow(2, pad));
    FixedWidthUnique(256, WholeGroups(symbols, 5, 8), program);
  }

  /** Version, program and checksum as characters and as symbols, and the residue before, between and behind them. */
  datatype Pieces = Pieces(version: nat, text: string, symbols: seq<nat>, sumText: string, sum: seq<nat>,
                           start: bv30, mid: bv30, end: bv30)

  predicate Fits(p: Pieces)
  {
    && p.version < 32 && |p.sum| == 6 && 2 <= |p.symbols| <= 80
    && PolymodFrom(1, [3, 3, 0, 2, 3, p.version]) == p.start
    && Runs(p.text, p.symbols, p.start, p.mid) && Runs(p.sumText, p.sum, p.mid, p.end)
  }

  function Spelled(p: Pieces): string
  {
    "bc1" + [Letter(p.version)] + p.text + p.sumText
  }

  function Data(p: Pieces): seq<nat>
  {
    [p.version] + p.symbols + p.sum
  }

  lemma PiecesDecode(p: Pieces)
    requires Fits(p)
    ensures Symbols(Data(p)) && DecodeLower(Spelled(p)) == Ok(Data(p))
  {
    hide PolymodFrom, Letter, DecodeLower;
    Letters();
    assert Spelled(p)[..3] == "bc1";
    SpelledData(Spelled(p), Data(p));
  }

  lemma PiecesResidue(p: Pieces)
    requires Fits(p)
    ensures Symbols(Data(p)) && Residue(Data(p)) == p.end
  {
    hide PolymodFrom;
    var front := [3, 3, 0, 2, 3, p.version];
    assert HRP + Data(p) == (front + p.symbols) + p.sum;
    PolymodAppend(1, front + p.symbols, p.sum);
    PolymodAppend(1, front, p.symbols);
  }

  lemma PiecesLower(p: Pieces)
    requires Fits(p)
    ensures ToLower(Spelled(p)) == Spelled(p)
  {
    hide PolymodFrom, Letter;
    Letters();
    AsciiCharset();
    var s := Spelled(p);
    forall i | 0 <= i < |s| ensures Lower(s[i]) == s[i] {
      PieceLetter(p, i);
      hide Spelled, Fits;
    }
  }

  lemma PieceLetter(p: Pieces, i: nat)
    requires Fits(p) && i < |Spelled(p)|
    ensures if i < 3 then Spelled(p)[i] == "bc1"[i] else Data(p)[i - 3] < 32 && Spelled(p)[i] == CHARSET[Data(p)[i - 3]]
    ensures |CHARSET| == 32
  {
    hide PolymodFrom, Letter;
    Letters();
  }

  /** Such a string is an address of the program it holds, and locks to it. */
  lemma PiecesLock(sum4: Checksum4, p: Pieces, program: seq<nat>, pad: nat)
    requires Fits(p) && Holds(p.symbols, program, pad)
    requires (p.version == 0 && p.end == 1) || (p.version == 1 && p.end == 0x2bc830a3)
    requires |program| == 32 || (p.version == 0 && |program| == 20)
    ensures ValidateAddress(sum4, Spelled(p))
         == Ok(if p.version == 1 then P2TR else if |program| == 20 then P2WPKH else P2WSH)
    ensures ScriptForAddress(sum4, Spelled(p)) == Ok([if p.version == 1 then 0x51 else 0x00, |program|] + program)
  {
    PiecesDecode(p);
    PiecesResidue(p);
    PiecesLower(p);
    Unpacked(p.symbols, program, pad);
    var data := Data(p);
    assert data[1..|data| - 6] == p.symbols && "bc1" <= Spelled(p);
    hide Fits, Holds, Residue, DecodeLower, Converted, ToLower, Spelled;
    assert ValidateData(data).Ok?;
  }

  lemma PartFacts(text: string, v: seq<nat>, b: seq<nat>, before: bv30, after: bv30)
    requires Part(text, v, b, before, after)
    ensures Runs(text, v, before, after) && Symbols(v) && Digits(256, b)
    ensures 5 * |v| == 8 * |b| && Value(32, v) == Value(256, b)
  {
  }

  lemma WholeHolds(v: seq<nat>, b: seq<nat>)
    requires Symbols(v) && Digits(256, b) && 5 * |v| == 8 * |b| && Value(32, v) == Value(256, b)
    ensures Holds(v, b, 0)
  {
    hide Value;
    assert Pow(2, 0) == 1;
  }

  /** Four more symbols hold two more bytes and four zero bits. */
  lemma TailHolds(v: seq<nat>, b: seq<nat>, w: seq<nat>, c: seq<nat>)
    requires Symbols(v) && Digits(256, b) && 5 * |v| == 8 * |b| && Value(32, v) == Value(256, b)
    requires Symbols(w) && Digits(256, c) && |w| == 4 && |c| == 2 && Value(32, w) == 16 * Value(256, c)
    ensures Holds(v + w, b + c, 4)
  {
    hide Value, Pow;
    ValueAppend(32, v, w);
    ValueAppend(256, b, c);
    TailPowers();
    TailSum(Value(256, b), Value(256, c));
  }

  lemma TailPowers()
    ensures Pow(2, 4) == 16 && Pow(32, 4) == 0x10_0000 && Pow(256, 2) == 0x1_0000
  {
    assert Pow(2, 4) == 2 * (2 * (2 * (2 * Pow(2, 0))));
    assert Pow(32, 4) == 32 * (32 * (32 * (32 * Pow(32, 0))));
    assert Pow(256, 2) == 256 * (256 * Pow(256, 0));
  }

  lemma TailSum(b: nat, c: nat)
    ensures b * 0x10_0000 + 16 * c == (b * 0x1_0000 + c) * 16
  {
  }

  // ---------------------------------------------------------------- the example of BIP-173

  lemma Wpkh1()
    ensures Part("w508d6qe", [14, 20, 15, 7, 13, 26, 0, 25], [0x75, 0x1e, 0x76, 0xe8, 0x19], 0x3d5a5fd2, 0x2b1bcbce)
  {
    Wpkh1Bits();
    hide Fed, Step, PolymodFrom, Value;
    Whole("w508d6qe", [14, 20, 15, 7, 13, 26, 0, 25], [0x75, 0x1e, 0x76, 0xe8, 0x19], 0x3d5a5fd2, 0x2b1bcbce);
  }

  lemma Wpkh1Bits()
    ensures Fed(0x3d5a5fd2, 14, 20, 15, 7) == 0x116098dd && Fed(0x116098dd, 13, 26, 0, 25) == 0x2b1bcbce
  {
  }

  lemma Wpkh2()
    ensures Part("jxtdg4y5", [18, 6, 11, 13, 8, 21, 4, 20], [0x91, 0x96, 0xd4, 0x54, 0x94], 0x2b1bcbce, 0x23a1ff4b)
  {
    Wpkh2Bits();
    hide Fed, Step, PolymodFrom, Value;
    Whole("jxtdg4y5", [18, 6, 11, 13, 8, 21, 4, 20], [0x91, 0x96, 0xd4, 0x54, 0x94], 0x2b1bcbce, 0x23a1ff4b);
  }

  lemma Wpkh2Bits()
    ensures Fed(0x2b1bcbce, 18, 6, 11, 13) == 0x39f818aa && Fed(0x39f818aa, 8, 21, 4, 20) == 0x23a1ff4b
  {
  }

  lemma Wpkh3()
    ensures Part("r3zarvar", [3, 17, 2, 29, 3, 12, 29, 3], [0x1c, 0x45, 0xd1, 0xb3, 0xa3], 0x23a1ff4b, 0x2a387174)
  {
    Wpkh3Bits();
    hide Fed, Step, PolymodFrom, Value;
    Whole("r3zarvar", [3, 17, 2, 29, 3, 12, 29, 3], [0x1c, 0x45, 0xd1, 0xb3, 0xa3], 0x23a1ff4b, 0x2a387174);
  }

  lemma Wpkh3Bits()
    ensures Fed(0x23a1ff4b, 3, 17, 2, 29) == 0xe75f02f && Fed(0xe75f02f, 3, 12, 29, 3) == 0x2a387174
  {
  }

  lemma Wpkh4()
    ensures Part("y0c5xw7k", [4, 15, 24, 20, 6, 14, 30, 22], [0x23, 0xf1, 0x43, 0x3b, 0xd6], 0x2a387174, 0x979c4ed)
  {
    Wpkh4Bits();
    hide Fed, Step, PolymodFrom, Value;
    Whole("y0c5xw7k", [4, 15, 24, 20, 6, 14, 30, 22], [0x23, 0xf1, 0x43, 0x3b, 0xd6], 0x2a387174, 0x979c4ed);
  }

  lemma Wpkh4Bits()
    ensures Fed(0x2a387174, 4, 15, 24, 20) == 0x5251205 && Fed(0x5251205, 6, 14, 30, 22) == 0x979c4ed
  {
  }

  lemma WpkhSum()
    ensures Runs("v8f3t4", [12, 7, 9, 17, 11, 21], 0x979c4ed, 0x1)
  {
    WpkhSumBits();
    hide Fed, Step, PolymodFrom;
    Sealed("v8f3t4", [12, 7, 9, 17, 11, 21], 0x979c4ed, 0x1);
  }

  lemma WpkhSumBits()
    ensures Fed(0x979c4ed, 12, 7, 9, 17) == 0x13f33ef1 && Step(Step(0x13f33ef1, 11), 21) == 0x1
  {
  }

  lemma WpkhStart()
    ensures PolymodFrom(1, [3, 3, 0, 2, 3, 0]) == 0x3d5a5fd2
  {
    WpkhStartBits();
    hide Fed, Step, PolymodFrom;
    Six(1, [3, 3, 0, 2, 3, 0]);
  }

  lemma WpkhStartBits()
    ensures Fed(1, 3, 3, 0, 2) == 0x118c02 && Step(Step(0x118c02, 3), 0) == 0x3d5a5fd2
  {
  }

  function WpkhText(): string
  {
    "w508d6qe" + "jxtdg4y5" + "r3zarvar" + "y0c5xw7k"
  }

  function WpkhSymbols(): seq<nat>
  {
    [14, 20, 15, 7, 13, 26, 0, 25] + [18, 6, 11, 13, 8, 21, 4, 20] + [3, 17, 2, 29, 3, 12, 29, 3]
    + [4, 15, 24, 20, 6, 14, 30, 22]
  }

  function WpkhProgram(): seq<Byte>
  {
    [0x75, 0x1e, 0x76, 0xe8, 0x19] + [0x91, 0x96, 0xd4, 0x54, 0x94] + [0x1c, 0x45, 0xd1, 0xb3, 0xa3]
    + [0x23, 0xf1, 0x43, 0x3b, 0xd6]
  }

  function Wpkh(): Pieces
  {
    Pieces(0, WpkhText(), WpkhSymbols(), "v8f3t4", [12, 7, 9, 17, 11, 21], 0x3d5a5fd2, 0x979c4ed, 0x1)
  }

  lemma WpkhFits()
    ensures Fits(Wpkh()) && Holds(WpkhSymbols(), WpkhProgram(), 0)
  {
    WpkhStart();
    WpkhSum();

    Wpkh1();
    Wpkh2();
    Wpkh3();
    Wpkh4();
    hide Fed, Step, PolymodFrom, Value, Part, Runs;
    var t, v, b := "w508d6qe", [14, 20, 15, 7, 13, 26, 0, 25], [0x75, 0x1e, 0x76, 0xe8, 0x19];
    Joined(t, v, b, 0x3d5a5fd2, 0x2b1bcbce, "jxtdg4y5", [18, 6, 11, 13, 8, 21, 4, 20],
           [0x91, 0x96, 0xd4, 0x54, 0x94], 0x23a1ff4b);
    t, v, b := t + "jxtdg4y5", v + [18, 6, 11, 13, 8, 21, 4, 20], b + [0x91, 0x96, 0xd4, 0x54, 0x94];
    Joined(t, v, b, 0x3d5a5fd2, 0x23a1ff4b, "r3zarvar", [3, 17, 2, 29, 3, 12, 29, 3],
           [0x1c, 0x45, 0xd1, 0xb3, 0xa3], 0x2a387174);
    t, v, b := t + "r3zarvar", v + [3, 17, 2, 29, 3, 12, 29, 3], b + [0x1c, 0x45, 0xd1, 0xb3, 0xa3];
    Joined(t, v, b, 0x3d5a5fd2, 0x2a387174, "y0c5xw7k", [4, 15, 24, 20, 6, 14, 30, 22],
           [0x23, 0xf1, 0x43, 0x3b, 0xd6], 0x979c4ed);
    t, v, b := t + "y0c5xw7k", v + [4, 15, 24, 20, 6, 14, 30, 22], b + [0x23, 0xf1, 0x43, 0x3b, 0xd6];
    PartFacts(t, v, b, 0x3d5a5fd2, 0x979c4ed);
    WholeHolds(v, b);
  }

  /** The P2WPKH example of BIP-173: accepted as one, and locked to its published program. */
  lemma WitnessKeyHash(sum: Checksum4)
    ensures var s := "bc1" + ['q'] + WpkhText() + "v8f3t4";
            && ValidateAddress(sum, s) == Ok(P2WPKH)
            && ScriptForAddress(sum, s) == Ok([0x00, 0x14] + WpkhProgram())
  {
    WpkhFits();
    hide Fits, Holds, WpkhSymbols, WpkhText, ValidateAddress, ScriptForAddress;
    assert |WpkhProgram()| == 20;
    PiecesLock(sum, Wpkh(), WpkhProgram(), 0);
  }

  // ---------------------------------------------------------------- a taproot address

  lemma Tr1()
    ensures Part("5cyxnuxm", [20, 24, 4, 6, 19, 28, 6, 27], [0xa6, 0x08, 0x69, 0xf0, 0xdb], 0x3d5a5fd3, 0x2d4e971d)
  {
    Tr1Bits();
    hide Fed, Step, PolymodFrom, Value;
    Whole("5cyxnuxm", [20, 24, 4, 6, 19, 28, 6, 27], [0xa6, 0x08, 0x69, 0xf0, 0xdb], 0x3d5a5fd3, 0x2d4e971d);
  }

  lemma Tr1Bits()
    ensures Fed(0x3d5a5fd3, 20, 24, 4, 6) == 0x117da9bc && Fed(0x117da9bc, 19, 28, 6, 27) == 0x2d4e971d
  {
  }

  lemma Tr2()
    ensures Part("euwuvkwf", [25, 28, 14, 28, 12, 22, 14, 9], [0xcf, 0x1d, 0xc6, 0x59, 0xc9], 0x2d4e971d, 0x816eb87)
  {
    Tr2Bits();
    hide Fed, Step, PolymodFrom, Value;
    Whole("euwuvkwf", [25, 28, 14, 28, 12, 22, 14, 9], [0xcf, 0x1d, 0xc6, 0x59, 0xc9], 0x2d4e971d, 0x816eb87);
  }

  lemma Tr2Bits()
    ensures Fed(0x2d4e971d, 25, 28, 14, 28) == 0x677626c && Fed(0x677626c, 12, 22, 14, 9) == 0x816eb87
  {
  }

  lemma Tr3()
    ensures Part("em96lqzs", [25, 27, 5, 26, 31, 0, 2, 16], [0xce, 0xcb, 0xaf, 0x80, 0x50], 0x816eb87, 0x37597709)
  {
    Tr3Bits();
    hide Fed, Step, PolymodFrom, Value;
    Whole("em96lqzs", [25, 27, 5, 26, 31, 0, 2, 16], [0xce, 0xcb, 0xaf, 0x80, 0x50], 0x816eb87, 0x37597709);
  }

  lemma Tr3Bits()
    ensures Fed(0x816eb87, 25, 27, 5, 26) == 0x120738bb && Fed(0x120738bb, 31, 0, 2, 16) == 0x37597709
  {
  }

  lemma Tr4()
    ensures Part("zd02n6xd", [2, 13, 15, 10, 19, 26, 6, 13], [0x13, 0x5e, 0xa9, 0xe8, 0xcd], 0x37597709, 0x123c90e6)
  {
    Tr4Bits();
    hide Fed, Step, PolymodFrom, Value;
    Whole("zd02n6xd", [2, 13, 15, 10, 19, 26, 6, 13], [0x13, 0x5e, 0xa9, 0xe8, 0xcd], 0x37597709, 0x123c90e6);
  }

  lemma Tr4Bits()
    ensures Fed(0x37597709, 2, 13, 15, 10) == 0x1f5fdec4 && Fed(0x1f5fdec4, 19, 26, 6, 13) == 0x123c90e6
  {
  }

  lemma Tr5()
    ensures Part("cjrs20ca", [24, 18, 3, 16, 10, 15, 24, 29], [0xc4, 0x87, 0x05, 0x3f, 0x1d], 0x123c90e6, 0x24b5fc10)
  {
    Tr5Bits();
    hide Fed, Step, PolymodFrom, Value;
    Whole("cjrs20ca", [24, 18, 3, 16, 10, 15, 24, 29], [0xc4, 0x87, 0x05, 0x3f, 0x1d], 0x123c90e6, 0x24b5fc10);
  }

  lemma Tr5Bits()
    ensures Fed(0x123c90e6, 24, 18, 3, 16) == 0x20b4eb51 && Fed(0x20b4eb51, 10, 15, 24, 29) == 0x24b5fc10
  {
  }

  lemma Tr6()
    ensures Part("c6yqjjwu", [24, 26, 4, 0, 18, 18, 14, 28], [0xc6, 0x88, 0x09, 0x49, 0xdc], 0x24b5fc10, 0x22fbc5b1)
  {
    Tr6Bits();
    hide Fed, Step, PolymodFrom, Value;
    Whole("c6yqjjwu", [24, 26, 4, 0, 18, 18, 14, 28], [0xc6, 0x88, 0x09, 0x49, 0xdc], 0x24b5fc10, 0x22fbc5b1);
  }

  lemma Tr6Bits()
    ensures Fed(0x24b5fc10, 24, 26, 4, 0) == 0x1fda65d3 && Fed(0x1fda65d3, 18, 18, 14, 28) == 0x22fbc5b1
  {
  }

  lemma Tr7()
    ensures Runs("dpxq", [13, 1, 6, 0], 0x22fbc5b1, 0x5f402ef)
    ensures Value(32, [13, 1, 6, 0]) == 16 * Value(256, [0x68, 0x4c])
  {
    Tr7Bits();
    hide Fed, Step, PolymodFrom, Value;
    Four(0x22fbc5b1, 13, 1, 6, 0);
    FourValue(13, 1, 6, 0);
    TwoValue(0x68, 0x4c);
  }

  lemma Tr7Bits()
    ensures Fed(0x22fbc5b1, 13, 1, 6, 0) == 0x5f402ef
  {
  }

  lemma TrSum()
    ensures Runs("kedrcr", [22, 25, 13, 3, 24, 3], 0x5f402ef, 0x2bc830a3)
  {
    TrSumBits();
    hide Fed, Step, PolymodFrom;
    Sealed("kedrcr", [22, 25, 13, 3, 24, 3], 0x5f402ef, 0x2bc830a3);
  }

  lemma TrSumBits()
    ensures Fed(0x5f402ef, 22, 25, 13, 3) == 0x11e0e392 && Step(Step(0x11e0e392, 24), 3) == 0x2bc830a3
  {
  }

  lemma TrStart()
    ensures PolymodFrom(1, [3, 3, 0, 2, 3, 1]) == 0x3d5a5fd3
  {
    TrStartBits();
    hide Fed, Step, PolymodFrom;
    Six(1, [3, 3, 0, 2, 3, 1]);
  }

  lemma TrStartBits()
    ensures Fed(1, 3, 3, 0, 2) == 0x118c02 && Step(Step(0x118c02, 3), 1) == 0x3d5a5fd3
  {
  }

  function TrText(): string
  {
    "5cyxnuxm" + "euwuvkwf" + "em96lqzs" + "zd02n6xd" + "cjrs20ca" + "c6yqjjwu" + "dpxq"
  }

  function TrSymbols(): seq<nat>
  {
    [20, 24, 4, 6, 19, 28, 6, 27] + [25, 28, 14, 28, 12, 22, 14, 9] + [25, 27, 5, 26, 31, 0, 2, 16]
    + [2, 13, 15, 10, 19, 26, 6, 13] + [24, 18, 3, 16, 10, 15, 24, 29] + [24, 26, 4, 0, 18, 18, 14, 28]
    + [13, 1, 6, 0]
  }

  function TrProgram(): seq<Byte>
  {
    [0xa6, 0x08, 0x69, 0xf0, 0xdb] + [0xcf, 0x1d, 0xc6, 0x59, 0xc9] + [0xce, 0xcb, 0xaf, 0x80, 0x50]
    + [0x13, 0x5e, 0xa9, 0xe8, 0xcd] + [0xc4, 0x87, 0x05, 0x3f, 0x1d] + [0xc6, 0x88, 0x09, 0x49, 0xdc]
    + [0x68, 0x4c]
  }

  function Tr(): Pieces
  {
    Pieces(1, TrText(), TrSymbols(), "kedrcr", [22, 25, 13, 3, 24, 3], 0x3d5a5fd3, 0x5f402ef, 0x2bc830a3)
  }

  lemma TrFits()
    ensures Fits(Tr()) && Holds(TrSymbols(), TrProgram(), 4)
  {
    TrStart();
    TrSum();

    Tr1();
    Tr2();
    Tr3();
    Tr4();
    Tr5();
    Tr6();
    Tr7();
    hide Fed, Step, PolymodFrom, Value, Part, Runs;
    var t, v, b := "5cyxnuxm", [20, 24, 4, 6, 19, 28, 6, 27], [0xa6, 0x08, 0x69, 0xf0, 0xdb];
    Joined(t, v, b, 0x3d5a5fd3, 0x2d4e971d, "euwuvkwf", [25, 28, 14, 28, 12, 22, 14, 9],
           [0xcf, 0x1d, 0xc6, 0x59, 0xc9], 0x816eb87);
    t, v, b := t + "euwuvkwf", v + [25, 28, 14, 28, 12, 22, 14, 9], b + [0xcf, 0x1d, 0xc6, 0x59, 0xc9];
    Joined(t, v, b, 0x3d5a5fd3, 0x816eb87, "em96lqzs", [25, 27, 5, 26, 31, 0, 2, 16],
           [0xce, 0xcb, 0xaf, 0x80, 0x50], 0x37597709);
    t, v, b := t + "em96lqzs", v + [25, 27, 5, 26, 31, 0, 2, 16], b + [0xce, 0xcb, 0xaf, 0x80, 0x50];
    Joined(t, v, b, 0x3d5a5fd3, 0x37597709, "zd02n6xd", [2, 13, 15, 10, 19, 26, 6, 13],
           [0x13, 0x5e, 0xa9, 0xe8, 0xcd], 0x123c90e6);
    t, v, b := t + "zd02n6xd", v + [2, 13, 15, 10, 19, 26, 6, 13], b + [0x13, 0x5e, 0xa9, 0xe8, 0xcd];
    Joined(t, v, b, 0x3d5a5fd3, 0x123c90e6, "cjrs20ca", [24, 18, 3, 16, 10, 15, 24, 29],
           [0xc4, 0x87, 0x05, 0x3f, 0x1d], 0x24b5fc10);
    t, v, b := t + "cjrs20ca", v + [24, 18, 3, 16, 10, 15, 24, 29], b + [0xc4, 0x87, 0x05, 0x3f, 0x1d];
    Joined(t, v, b, 0x3d5a5fd3, 0x24b5fc10, "c6yqjjwu", [24, 26, 4, 0, 18, 18, 14, 28],
           [0xc6, 0x88, 0x09, 0x49, 0xdc], 0x22fbc5b1);
    t, v, b := t + "c6yqjjwu", v + [24, 26, 4, 0, 18, 18, 14, 28], b + [0xc6, 0x88, 0x09, 0x49, 0xdc];
    PartFacts(t, v, b, 0x3d5a5fd3, 0x22fbc5b1);
    RunsOn(t, v, 0x3d5a5fd3, 0x22fbc5b1, "dpxq", [13, 1, 6, 0], 0x5f402ef);
    TailHolds(v, b, [13, 1, 6, 0], [0x68, 0x4c]);
  }

  /** A published P2TR address: accepted as one under the bech32m constant, and locked to its program. */
  lemma Taproot(sum: Checksum4)
    ensures var s := "bc1" + ['p'] + TrText() + "kedrcr";
            && ValidateAddress(sum, s) == Ok(P2TR)
            && ScriptForAddress(sum, s) == Ok([0x51, 0x20] + TrProgram())
  {
    TrFits();
    hide Fits, Holds, TrSymbols, TrText, ValidateAddress, ScriptForAddress;
    assert |TrProgram()| == 32;
    PiecesLock(sum, Tr(), TrProgram(), 4);
  }
}
