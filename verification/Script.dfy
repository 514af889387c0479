// Locking scripts: ScriptForAddress, and why no two addresses share one.

module Script {
  import opened Numerals
  import opened Results
  import opened Text
  import opened Regroup
  import opened Bech32
  import opened Address
  import Base58

  /** OP_0 or OP_1..OP_16, the push length, and the witness program. */
  function WitnessScript(version: nat, program: seq<nat>): seq<Byte>
    requires version <= 16 && |program| <= 40 && Digits(256, program)
  {
    [if version > 0 then 0x50 + version else 0, |program|] + program
  }

  function P2pkhScript(h: seq<Byte>): seq<Byte> { [0x76, 0xa9, 0x14] + h + [0x88, 0xac] }
  function P2shScript(h: seq<Byte>): seq<Byte> { [0xa9, 0x14] + h + [0x87] }

  /** A segwit address that ValidateAddress accepts. */
  predicate Segwit(sum: Checksum4, addr: string)
  {
    SegwitPrefix(addr) && ValidateAddress(sum, addr).Ok?
  }

  /** A Base58Check address that ValidateAddress accepts. */
  predicate Legacy(sum: Checksum4, addr: string)
  {
    !SegwitPrefix(addr) && ValidateAddress(sum, addr).Ok?
  }

  lemma SegwitAccepted(sum: Checksum4, addr: string)
    requires Segwit(sum, addr)
    ensures ValidateAddress(sum, addr) == ValidateBech32(addr) == ValidateLower(ToLower(addr))
    ensures SingleCase(addr)
    ensures DecodeString(addr) == DecodeLower(ToLower(addr))
    ensures DecodeString(addr).Ok?
    ensures var data := DecodeString(addr).value;
            && data[0] <= 1 && Residue(data) == WantedResidue(data[0]) && ToLower(addr)[..3] == "bc1"
            && Over(CHARSET, ToLower(addr)[3..]) && data == IndicesIn(CHARSET, ToLower(addr)[3..])
            && Program(data).Ok? && Digits(256, Program(data).value) && |Program(data).value| in {20, 32}
  {
    hide ValidateLower, DecodeLower, Residue, Program, SingleCase;
    AcceptedLower(ToLower(addr));
    ProgramBytes(DecodeString(addr).value);
  }

  lemma ProgramBytes(data: seq<nat>)
    requires |data| >= 8 && Program(data).Ok?
    ensures Digits(256, Program(data).value)
  {
    PowerOfEight();
  }

  lemma LegacyAccepted(sum: Checksum4, addr: string)
    requires Legacy(sum, addr)
    ensures DecodeString(addr).Err?
    ensures Base58.Decoded(addr).Ok?
    ensures var raw := Base58.Decoded(addr).value;
            && |raw| == 25 && raw[21..] == sum(raw[..21])
            && ValidateAddress(sum, addr) == Ok(if raw[0] == 0 then P2PKH else P2SH)
            && (raw[0] == 0 || raw[0] == 5)
  {
  }

  function ScriptForAddress(sum: Checksum4, addr: string): Result<seq<Byte>, AddressError>
  {
    match ValidateAddress(sum, addr)
    case Err(e) => Err(e)
    case Ok(typ) =>
      if SegwitPrefix(addr) then
        SegwitAccepted(sum, addr);
        var data := DecodeString(addr).value;
        Ok(WitnessScript(data[0], Program(data).value))
      else
        LegacyAccepted(sum, addr);
        var h := Base58.Decoded(addr).value[1..21];
        Ok(if typ == P2PKH then P2pkhScript(h) else P2shScript(h))
  }

  /** ScriptForAddress as written: validate, decode again, append byte by byte. */
  method ComputeScript(sum: Checksum4, addr: string) returns (r: Result<seq<Byte>, AddressError>)
    ensures r == ScriptForAddress(sum, addr)
  {
    hide ValidateAddress, DecodeString, Program, Base58.Decoded, SegwitPrefix, WitnessScript;
    var typ := ValidateAddress(sum, addr);
    if typ.Err? {
      return Err(typ.error);
    }
    ghost var segwit := SegwitPrefix(addr);
    if segwit {
      SegwitAccepted(sum, addr);
    } else {
      LegacyAccepted(sum, addr);
    }
    var decoded := ComputeDecodeString(addr);
    if decoded.Ok? {
      var data := decoded.value;
      var out := AppendWitness(data[0], Program(data).value);
      return Ok(out);
    }
    var raw := Base58.Decode(addr);
    var h := raw.value[1..21];
    if typ.value == P2PKH {
      return Ok([0x76, 0xa9, 0x14] + h + [0x88, 0xac]);
    }
    return Ok([0xa9, 0x14] + h + [0x87]);
  }

  method AppendWitness(version: nat, program: seq<nat>) returns (out: seq<Byte>)
    requires version <= 16 && |program| <= 40 && Digits(256, program)
    ensures out == WitnessScript(version, program)
  {
    var op := 0x00;
    if version > 0 {
      op := 0x50 + version;
    }
    out := [op, |program|];
    for k := 0 to |program|
      invariant out == [op, |program|] + program[..k]
    {
      out := out + [program[k]];
    }
    assert program[..|program|] == program;
  }

  // ----- injectivity -----

  lemma SameProgram(a: seq<nat>, b: seq<nat>)
    requires |a| >= 8 && |b| >= 8 && Symbols(a) && Symbols(b)
    requires a[0] == b[0] && Program(a).Ok? && Program(a) == Program(b)
    requires Residue(a) == Residue(b)
    ensures a == b
  {
    hide PolymodFrom, Converted;
    var n := |a| - 6;
    StrictInjective(a[1..|a| - 6], b[1..|b| - 6], 5, 8);
    assert |a| == |b|;
    assert a[..n] == [a[0]] + a[1..n] && b[..n] == [b[0]] + b[1..n];
    assert HRP + a == (HRP + a[..n]) + a[n..] && HRP + b == (HRP + b[..n]) + b[n..];
    PolymodAppend(1, HRP + a[..n], a[n..]);
    PolymodAppend(1, HRP + b[..n], b[n..]);
    ChecksumUnique(PolymodFrom(1, HRP + a[..n]), a[n..], b[n..]);
    assert a == a[..n] + a[n..] && b == b[..n] + b[n..];
  }

  lemma IndicesDetermine(s: string, t: string)
    requires Over(CHARSET, s) && Over(CHARSET, t) && IndicesIn(CHARSET, s) == IndicesIn(CHARSET, t)
    ensures s == t
  {
    forall i | 0 <= i < |s| ensures s[i] == t[i] {
      assert CHARSET[IndicesIn(CHARSET, s)[i]] == s[i];
      assert CHARSET[IndicesIn(CHARSET, t)[i]] == t[i];
    }
  }

  lemma WitnessScriptInjective(v: nat, p: seq<nat>, w: nat, q: seq<nat>)
    requires v <= 1 && w <= 1 && |p| <= 40 && |q| <= 40 && Digits(256, p) && Digits(256, q)
    requires WitnessScript(v, p) == WitnessScript(w, q)
    ensures v == w && p == q
  {
    var s, t := WitnessScript(v, p), WitnessScript(w, q);
    assert s[0] == t[0];
    assert p == s[2..] && q == t[2..];
  }

  lemma SameTail(s: string, t: string)
    requires "bc1" <= s && "bc1" <= t && s[3..] == t[3..]
    ensures s == t
  {
    assert s == "bc1" + s[3..] && t == "bc1" + t[3..];
  }

  lemma SegwitPair(sum: Checksum4, a: string, b: string)
    requires Segwit(sum, a) && Segwit(sum, b)
    ensures ScriptForAddress(sum, a) == ScriptForAddress(sum, b) <==> ToLower(a) == ToLower(b)
  {
    hide ValidateAddress, DecodeString, DecodeLower, Program, Residue, WitnessScript, ValidateLower, ValidateBech32;
    SegwitAccepted(sum, a);
    SegwitAccepted(sum, b);
    var x, y := DecodeString(a).value, DecodeString(b).value;
    if ScriptForAddress(sum, a) == ScriptForAddress(sum, b) {
      WitnessScriptInjective(x[0], Program(x).value, y[0], Program(y).value);
      SameProgram(x, y);
      hide *;
      IndicesDetermine(ToLower(a)[3..], ToLower(b)[3..]);
      SameTail(ToLower(a), ToLower(b));
    }
  }

  lemma LegacyPair(sum: Checksum4, a: string, b: string)
    requires Legacy(sum, a) && Legacy(sum, b)
    requires ScriptForAddress(sum, a) == ScriptForAddress(sum, b)
    ensures a == b
  {
    hide ValidateAddress, DecodeString, Base58.Decoded;
    LegacyAccepted(sum, a);
    LegacyAccepted(sum, b);
    var x, y := Base58.Decoded(a).value, Base58.Decoded(b).value;
    var s, t := ScriptForAddress(sum, a).value, ScriptForAddress(sum, b).value;
    LegacyPayload(x, s);
    LegacyPayload(y, t);
    assert x == [x[0]] + x[1..21] + x[21..] && y == [y[0]] + y[1..21] + y[21..];
    assert x[..21] == [x[0]] + x[1..21] && y[..21] == [y[0]] + y[1..21];
    Base58.DecodeInjective(a, b);
  }

  /** A legacy script gives back its version byte and hash. */
  lemma LegacyPayload(raw: seq<Byte>, s: seq<Byte>)
    requires |raw| == 25 && (raw[0] == 0 || raw[0] == 5)
    requires s == if raw[0] == 0 then P2pkhScript(raw[1..21]) else P2shScript(raw[1..21])
    ensures raw[0] == (if |s| == 25 then 0 else 5) && |s| in {23, 25}
    ensures raw[1..21] == if |s| == 25 then s[3..23] else s[2..22]
  {
  }

  lemma MixedPair(sum: Checksum4, a: string, b: string)
    requires Segwit(sum, a) && Legacy(sum, b)
    ensures ScriptForAddress(sum, a) != ScriptForAddress(sum, b)
  {
    hide ValidateAddress, DecodeString, Base58.Decoded, Program, Residue;
    SegwitAccepted(sum, a);
    LegacyAccepted(sum, b);
    LegacyPayload(Base58.Decoded(b).value, ScriptForAddress(sum, b).value);
  }

  /**
   * Main result: two accepted addresses have the same locking script exactly
   * when they are the same string, or segwit addresses equal up to letter case.
   */
  lemma ScriptsDistinguishAddresses(sum: Checksum4, a: string, b: string)
    requires ScriptForAddress(sum, a).Ok? && ScriptForAddress(sum, b).Ok?
    ensures ScriptForAddress(sum, a) == ScriptForAddress(sum, b)
       <==> a == b || (SegwitPrefix(a) && SegwitPrefix(b) && ToLower(a) == ToLower(b))
  {
    hide ValidateAddress, SegwitPrefix;
    if Segwit(sum, a) && Segwit(sum, b) {
      SegwitPair(sum, a, b);
    } else if Segwit(sum, a) {
      MixedPair(sum, a, b);
    } else if Segwit(sum, b) {
      MixedPair(sum, b, a);
    } else if ScriptForAddress(sum, a) == ScriptForAddress(sum, b) {
      LegacyPair(sum, a, b);
    }
  }

  /** An opcode, the length and the address's own program. */
  predicate LocksProgram(addr: string, s: seq<Byte>, op: Byte, size: nat)
  {
    && |s| == 2 + size && s[..2] == [op, size]
    && DecodeString(addr).Ok? && Program(DecodeString(addr).value) == Ok(s[2..])
  }

  /** Opcodes around the 20 bytes behind the address's version byte. */
  predicate LocksHash(addr: string, s: seq<Byte>, front: seq<Byte>, back: seq<Byte>)
  {
    && Base58.Decoded(addr).Ok? && |Base58.Decoded(addr).value| == 25
    && s == front + Base58.Decoded(addr).value[1..21] + back
  }

  /** The locking scripts, byte by byte, for each kind of address. */
  lemma ScriptTemplates(sum: Checksum4, addr: string)
    requires ScriptForAddress(sum, addr).Ok?
    ensures var s := ScriptForAddress(sum, addr).value;
            && ValidateAddress(sum, addr).Ok?
            && match ValidateAddress(sum, addr).value {
                 case P2PKH => LocksHash(addr, s, [0x76, 0xa9, 0x14], [0x88, 0xac])
                 case P2SH => LocksHash(addr, s, [0xa9, 0x14], [0x87])
                 case P2WPKH => LocksProgram(addr, s, 0x00, 20)
                 case P2WSH => LocksProgram(addr, s, 0x00, 32)
                 case P2TR => LocksProgram(addr, s, 0x51, 32)
               }
  {
    hide LocksHash, LocksProgram, ValidateAddress, SegwitPrefix;
    if SegwitPrefix(addr) {
      WitnessTemplate(sum, addr);
    } else {
      LegacyTemplate(sum, addr);
    }
  }

  lemma LegacyTemplate(sum: Checksum4, addr: string)
    requires Legacy(sum, addr)
    ensures var s := ScriptForAddress(sum, addr).value;
            if ValidateAddress(sum, addr).value == P2PKH then LocksHash(addr, s, [0x76, 0xa9, 0x14], [0x88, 0xac])
            else ValidateAddress(sum, addr).value == P2SH && LocksHash(addr, s, [0xa9, 0x14], [0x87])
  {
    LegacyAccepted(sum, addr);
    hide ValidateAddress, Base58.Decoded, SegwitPrefix;
  }

  lemma WitnessTemplate(sum: Checksum4, addr: string)
    requires Segwit(sum, addr)
    ensures var s := ScriptForAddress(sum, addr).value;
            match ValidateAddress(sum, addr).value
            case P2WPKH => LocksProgram(addr, s, 0x00, 20)
            case P2WSH => LocksProgram(addr, s, 0x00, 32)
            case P2TR => LocksProgram(addr, s, 0x51, 32)
            case _ => false
  {
    SegwitAccepted(sum, addr);
    StandardIff(DecodeString(addr).value);
    WitnessType(addr);
    hide ValidateAddress, ValidateLower, ValidateData, DecodeString, DecodeLower, Converted, Standard, SegwitPrefix,
         WitnessScript, Residue, WantedResidue, Program, Digits, SingleCase;
    var data := DecodeString(addr).value;
    assert ScriptForAddress(sum, addr).value == WitnessScript(data[0], Program(data).value);
    hide ScriptForAddress;
    WitnessBytes(data[0], Program(data).value);
  }

  lemma WitnessBytes(version: nat, p: seq<nat>)
    requires version <= 1 && |p| <= 40 && Digits(256, p)
    ensures var s := WitnessScript(version, p);
            |s| == 2 + |p| && s[2..] == p && s[..2] == [if version == 1 then 0x51 else 0x00, |p|]
  {
  }

  lemma WitnessType(addr: string)
    requires ValidateLower(ToLower(addr)).Ok?
    ensures DecodeLower(ToLower(addr)).Ok?
    ensures ValidateLower(ToLower(addr)) == ValidateData(DecodeLower(ToLower(addr)).value)
    ensures Program(DecodeLower(ToLower(addr)).value)
         == var d := DecodeLower(ToLower(addr)).value; Converted(d[1..|d| - 6], 5, 8, false)
  {
  }

  // ----- every standard witness program has an address -----

  /** The program in five-bit symbols. */
  function ProgramSymbols(program: seq<Byte>): (r: seq<nat>)
    ensures Symbols(r)
  {
    PowerOfEight();
    BytesSurvive(program);
    Converted(program, 8, 5, true).value
  }

  function Sealed(body: seq<nat>, residue: bv30): (data: seq<nat>)
    requires Symbols(body)
    ensures Symbols(data)
  {
    body + Checksum(Polymod(HRP + body), residue)
  }

  /** Version and program symbols followed by their checksum. */
  function SegwitData(version: nat, program: seq<Byte>): (data: seq<nat>)
    requires version <= 1
    ensures Symbols(data)
  {
    Sealed([version] + ProgramSymbols(program), WantedResidue(version))
  }

  /** The reference encoder: lower-case bech32 or bech32m. */
  function SegwitAddress(version: nat, program: seq<Byte>): string
    requires version <= 1
  {
    var data := SegwitData(version, program);
    CharsetLetters();
    "bc1" + seq(|data|, i requires 0 <= i < |data| => CHARSET[data[i]])
  }

  /** Where the charset has a character. */
  function Slot(c: char): nat
  {
    match c
    case 'q' => 0 case 'p' => 1 case 'z' => 2 case 'r' => 3 case 'y' => 4 case '9' => 5 case 'x' => 6 case '8' => 7
    case 'g' => 8 case 'f' => 9 case '2' => 10 case 't' => 11 case 'v' => 12 case 'd' => 13 case 'w' => 14
    case '0' => 15 case 's' => 16 case '3' => 17 case 'j' => 18 case 'n' => 19 case '5' => 20 case '4' => 21
    case 'k' => 22 case 'h' => 23 case 'c' => 24 case 'e' => 25 case '6' => 26 case 'm' => 27 case 'u' => 28
    case 'a' => 29 case '7' => 30 case _ => 31
  }

  lemma CharsetSlots()
    ensures |CHARSET| == 32 && forall i :: 0 <= i < 32 ==> Slot(CHARSET[i]) == i
  {
  }

  lemma CharsetDistinct()
    ensures |CHARSET| == 32 && Distinct(CHARSET)
  {
    CharsetSlots();
    hide Slot;
    forall i, j | 0 <= i < j < |CHARSET| ensures CHARSET[i] != CHARSET[j] {
      assert Slot(CHARSET[i]) != Slot(CHARSET[j]);
    }
  }

  /** Spelling symbols in the charset and reading them back. */
  lemma SpelledData(s: string, data: seq<nat>)
    requires 8 <= |data| <= 87 && Symbols(data) && |s| == 3 + |data| && s[..3] == "bc1"
    requires |CHARSET| == 32 && forall i :: 0 <= i < |data| ==> s[3 + i] == CHARSET[data[i]]
    ensures DecodeLower(s) == Ok(data)
  {
    CharsetDistinct();
    hide IndexRune, LastIndex, Distinct;
    var tail := s[3..];
    forall i | 0 <= i < |data| ensures IndexRune(CHARSET, tail[i]) == Some(data[i]) {
      IndexOfDistinct(CHARSET, data[i]);
    }
    assert Over(CHARSET, tail) && IndicesIn(CHARSET, tail) == data;
    LastSeparator(s);
    assert s[..2] == s[..3][..2] == "bc";
  }

  lemma SegwitDataLength(version: nat, program: seq<Byte>)
    requires version <= 1 && |program| in {20, 32}
    ensures |SegwitData(version, program)| == 7 + (if |program| == 20 then 32 else 52)
  {
    hide PolymodFrom, Checksum;
    PowerOfEight();
  }

  lemma SegwitDataValid(version: nat, program: seq<Byte>)
    requires version <= 1 && |program| in {20, 32}
    ensures var data := SegwitData(version, program);
            && |data| >= 8 && data[0] == version
            && Residue(data) == WantedResidue(version) && Program(data) == Ok(program)
  {
    hide PolymodFrom, Checksum, Converted;
    SegwitDataLength(version, program);
    PowerOfEight();
    BytesSurvive(program);
    var five := Converted(program, 8, 5, true).value;
    var body, data := [version] + five, SegwitData(version, program);
    var tail := data[|body|..];
    assert data[1..|data| - 6] == five;
    assert HRP + data == (HRP + body) + tail;
    PolymodAppend(1, HRP + body, tail);
    ChecksumReaches(Polymod(HRP + body), WantedResidue(version));
  }

  /** Each standard program is paid by an accepted address, so the map is onto. */
  lemma EveryProgramHasAddress(sum: Checksum4, version: nat, program: seq<Byte>)
    requires version <= 1 && |program| in {20, 32} && (version == 1 ==> |program| == 32)
    ensures ScriptForAddress(sum, SegwitAddress(version, program)) == Ok(WitnessScript(version, program))
  {
    hide SegwitData, Residue, Program, DecodeLower;
    var addr, data := SegwitAddress(version, program), SegwitData(version, program);
    SegwitDataLength(version, program);
    SegwitDataValid(version, program);
    CharsetLetters();
    assert addr[..3] == "bc1";
    SpelledData(addr, data);
    LowerCaseAddress(addr, data);
  }

  lemma LowerCaseAddress(addr: string, data: seq<nat>)
    requires |addr| == 3 + |data| && addr[..3] == "bc1" && Symbols(data)
    requires |CHARSET| == 32 && forall i :: 0 <= i < |data| ==> addr[3 + i] == CHARSET[data[i]]
    ensures ToLower(addr) == addr && SegwitPrefix(addr)
  {
    CharsetLetters();
    forall i | 0 <= i < |addr| ensures Lower(addr[i]) == addr[i] {
      if i < 3 {
        assert addr[i] == "bc1"[i];
      } else {
        assert addr[3 + (i - 3)] == CHARSET[data[i - 3]];
      }
    }
  }

  // ----- the exception to typo detection is real -----

  /** 32 program symbols, the first of them 22, which the charset spells 'k'. */
  const K_SYMBOLS: seq<nat> := [22] + Zeros(31)

  lemma KProgram() returns (program: seq<Byte>)
    ensures |program| == 20
    ensures SegwitData(0, program)[1] == 22
  {
    hide PolymodFrom, Checksum;
    PowerOfEight();
    assert Pow(2, 0) == 1;
    assert Converted(K_SYMBOLS, 5, 8, false).Ok?;
    program := Converted(K_SYMBOLS, 5, 8, false).value;
    BytesSurvive(program);
    var five := Converted(program, 8, 5, true).value;
    StrictInjective(five, K_SYMBOLS, 5, 8);
    assert SegwitData(0, program)[1] == five[0];
  }

  lemma UpperOfCharset(c: char)
    requires Lower(c) == c && c < '\U{007F}'
    ensures Lower(Upper(c)) == c && Upper(Upper(c)) == Upper(c)
  {
  }

  lemma AsciiCharset()
    ensures |CHARSET| == 32 && CHARSET[22] == 'k'
    ensures forall j :: 0 <= j < |CHARSET| ==> CHARSET[j] < '\U{007F}' && Lower(CHARSET[j]) == CHARSET[j]
  {
  }

  /** There is an accepted upper-case address in which the Kelvin sign may replace 'K'. */
  lemma KelvinSignAccepted(sum: Checksum4) returns (addr: string)
    ensures |addr| > 4 && addr[4] == 'K'
    ensures ValidateBech32(addr).Ok? && ValidateBech32(addr[4 := KELVIN]).Ok?
    ensures ScriptForAddress(sum, addr) == ScriptForAddress(sum, addr[4 := KELVIN])
  {
    hide ValidateLower, SegwitData, ScriptForAddress, ToLower, ToUpper, SegwitAddress;
    var program := KProgram();
    AsciiAddress(program);
    var lower := SegwitAddress(0, program);
    UpperAddress(lower);
    addr := ToUpper(lower);
    EveryProgramHasAddress(sum, 0, program);
    SegwitOk(sum, lower);
    SubstitutionTypo(addr, 4, KELVIN);
    SameLower(sum, addr, addr[4 := KELVIN]);
  }

  predicate LowerAscii(s: string)
  {
    forall i :: 0 <= i < |s| ==> s[i] < '\U{007F}' && Lower(s[i]) == s[i]
  }

  lemma AsciiAddress(program: seq<Byte>)
    requires |program| == 20 && SegwitData(0, program)[1] == 22
    ensures var s := SegwitAddress(0, program); |s| == 42 && "bc1" <= s && s[4] == 'k' && LowerAscii(s)
  {
    hide SegwitData;
    SegwitDataLength(0, program);
    AsciiCharset();
    var s, data := SegwitAddress(0, program), SegwitData(0, program);
    forall i | 0 <= i < |s| ensures s[i] < '\U{007F}' && Lower(s[i]) == s[i] {
      if i >= 3 {
        assert s[i] == CHARSET[data[i - 3]];
      }
    }
  }

  /** An ASCII address in upper case, with and without the Kelvin sign, lowers to itself. */
  lemma UpperAddress(s: string)
    requires LowerAscii(s) && |s| > 4 && "bc1" <= s && s[4] == 'k'
    ensures var u := ToUpper(s);
            && |u| == |s| && u[..3] == "BC1" && u[4] == 'K' && ToUpper(u) == u
            && ToLower(s) == ToLower(u) == ToLower(u[4 := KELVIN]) == s
  {
    var u := ToUpper(s);
    forall i | 0 <= i < |s| ensures Lower(u[i]) == s[i] && Upper(u[i]) == u[i] {
      UpperOfCharset(s[i]);
    }
    assert ToLower(u) == s == ToLower(s) && ToUpper(u) == u;
    assert ToLower(u[4 := KELVIN]) == s;
    assert u[..3] == "BC1";
  }

  /** Behind the prefix test no string is turned away as not bech32. */
  lemma BeyondPrefix(s: string)
    ensures ValidateLower(s) != Err(NotBech32)
  {
    hide Residue, Program, Over, LastIndex;
  }

  lemma SegwitOk(sum: Checksum4, s: string)
    requires ScriptForAddress(sum, s).Ok? && "bc1" <= s && ToLower(s) == s
    ensures ValidateLower(s).Ok?
  {
    BeyondPrefix(s);
    hide ValidateLower, DecodeString, Program, WitnessScript, ValidateBase58;
  }

  lemma SameLower(sum: Checksum4, a: string, b: string)
    requires ValidateBech32(a).Ok? && ValidateBech32(b).Ok? && ToLower(a) == ToLower(b)
    ensures ScriptForAddress(sum, a) == ScriptForAddress(sum, b)
  {
    hide ValidateLower;
    SegwitPair(sum, a, b);
  }
}
