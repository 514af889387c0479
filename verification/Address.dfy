// Mainnet address validation, and the typing errors it catches.

module Address {
  import opened Numerals
  import opened Results
  import opened Text
  import opened Regroup
  import opened Bech32
  import Base58

  datatype AddressType = P2PKH | P2SH | P2WPKH | P2WSH | P2TR

  datatype AddressError =
    | NotBech32 | MixedCase | TooLong | NoSeparator | UnsupportedHrp | DataTooShort
    | ForeignCharacter(c: char) | BadWitnessVersion(version: nat) | ChecksumFailed
    | BadProgram(reason: RegroupError) | ProgramLength(length: nat) | UnsupportedProgram
    | NotBase58 | DecodedLength(length: nat) | UnsupportedVersionByte(version: nat) | Unrecognised

  // ----- bech32 strings -----

  /** bech32HrpExpand: high bits of every character, a zero, then the low bits. */
  function HrpExpand(hrp: string): seq<nat>
  {
    seq(|hrp|, i requires 0 <= i < |hrp| => hrp[i] as int / 32) + [0]
    + seq(|hrp|, i requires 0 <= i < |hrp| => hrp[i] as int % 32)
  }

  const HRP: seq<nat> := [3, 3, 0, 2, 3]

  lemma HrpIsExpanded()
    ensures HrpExpand("bc") == HRP && Symbols(HRP)
  {
  }

  /** decodeBech32String after lower-casing. */
  function DecodeLower(s: string): (r: Result<seq<nat>, AddressError>)
    ensures r.Ok? ==> |r.value| >= 8 && Symbols(r.value)
  {
    var pos := LastIndex(s, '1');
    if |s| > 90 then Err(TooLong)
    else if pos < 1 then Err(NoSeparator)
    else if s[..pos] != "bc" then Err(UnsupportedHrp)
    else if |s| - (pos + 1) < 8 then Err(DataTooShort)
    else if !Over(CHARSET, s[pos + 1..]) then Err(ForeignCharacter(FirstForeign(CHARSET, s[pos + 1..])))
    else Ok(IndicesIn(CHARSET, s[pos + 1..]))
  }

  predicate SegwitPrefix(addr: string)
  {
    "bc1" <= addr || "BC1" <= addr
  }

  predicate SingleCase(addr: string)
  {
    addr == ToLower(addr) || addr == ToUpper(addr)
  }

  function DecodeString(addr: string): (r: Result<seq<nat>, AddressError>)
    ensures r.Ok? ==> |r.value| >= 8 && Symbols(r.value)
  {
    if !SegwitPrefix(addr) then Err(NotBech32)
    else if !SingleCase(addr) then Err(MixedCase)
    else DecodeLower(ToLower(addr))
  }

  /** decodeBech32String as written, with its loop over the data characters. */
  method ComputeDecodeString(addr: string) returns (r: Result<seq<nat>, AddressError>)
    ensures r == DecodeString(addr)
  {
    if !("bc1" <= addr) && !("BC1" <= addr) {
      return Err(NotBech32);
    }
    if addr != ToLower(addr) && addr != ToUpper(addr) {
      return Err(MixedCase);
    }
    var s := ToLower(addr);
    if |s| > 90 {
      return Err(TooLong);
    }
    var pos := LastIndex(s, '1');
    if pos < 1 {
      return Err(NoSeparator);
    }
    if s[..pos] != "bc" {
      return Err(UnsupportedHrp);
    }
    var dataPart := s[pos + 1..];
    if |dataPart| < 8 {
      return Err(DataTooShort);
    }
    var data := Lookup(CHARSET, dataPart);
    match data
    case Ok(symbols) => return Ok(symbols);
    case Err(c) => return Err(ForeignCharacter(c));
  }

  // ----- validation -----

  function WantedResidue(version: nat): bv30
  {
    if version == 0 then BECH32_CONST else BECH32M_CONST
  }

  function Residue(data: seq<nat>): (r: bv30)
    requires Symbols(data)
    ensures r == Polymod(HrpExpand("bc") + data)
  {
    HrpIsExpanded();
    Polymod(HRP + data)
  }

  function Classify(version: nat, length: nat): Result<AddressType, AddressError>
  {
    if version == 0 && length == 20 then Ok(P2WPKH)
    else if version == 0 && length == 32 then Ok(P2WSH)
    else if version == 1 && length == 32 then Ok(P2TR)
    else Err(UnsupportedProgram)
  }

  /** The program symbols: everything between the version and the checksum. */
  function Program(data: seq<nat>): Result<seq<nat>, RegroupError>
    requires |data| >= 8
  {
    Converted(data[1..|data| - 6], 5, 8, false)
  }

  function ValidateData(data: seq<nat>): Result<AddressType, AddressError>
    requires |data| >= 8 && Symbols(data)
  {
    if data[0] > 16 then Err(BadWitnessVersion(data[0]))
    else if Residue(data) != WantedResidue(data[0]) then Err(ChecksumFailed)
    else match Program(data)
      case Err(e) => Err(BadProgram(e))
      case Ok(p) => if |p| < 2 || |p| > 40 then Err(ProgramLength(|p|)) else Classify(data[0], |p|)
  }

  function ValidateLower(s: string): Result<AddressType, AddressError>
  {
    match DecodeLower(s)
    case Err(e) => Err(e)
    case Ok(data) => ValidateData(data)
  }

  function ValidateBech32(addr: string): Result<AddressType, AddressError>
  {
    if !SegwitPrefix(addr) then Err(NotBech32)
    else if !SingleCase(addr) then Err(MixedCase)
    else ValidateLower(ToLower(addr))
  }

  /** First four bytes of double SHA-256: the Base58Check checksum, left uninterpreted. */
  type Checksum4 = seq<Byte> -> seq<Byte>

  function ValidateBase58(sum: Checksum4, addr: string): Result<AddressType, AddressError>
  {
    if !("1" <= addr) && !("3" <= addr) then Err(NotBase58)
    else match Base58.Decoded(addr)
      case Err(c) => Err(ForeignCharacter(c))
      case Ok(raw) =>
        if |raw| != 25 then Err(DecodedLength(|raw|))
        else if sum(raw[..21]) != raw[21..] then Err(ChecksumFailed)
        else if raw[0] == 0x00 then Ok(P2PKH)
        else if raw[0] == 0x05 then Ok(P2SH)
        else Err(UnsupportedVersionByte(raw[0]))
  }

  function ValidateAddress(sum: Checksum4, addr: string): Result<AddressType, AddressError>
  {
    var t := ValidateBech32(addr);
    if t != Err(NotBech32) then t
    else
      var u := ValidateBase58(sum, addr);
      if u != Err(NotBase58) then u else Err(Unrecognised)
  }

  // ----- what acceptance means -----

  /** An accepted lower-case string is "bc1" followed by charset characters. */
  lemma AcceptedLower(s: string)
    requires ValidateLower(s).Ok?
    ensures |s| >= 11 && s[..3] == "bc1" && Over(CHARSET, s[3..])
    ensures DecodeLower(s) == Ok(IndicesIn(CHARSET, s[3..]))
    ensures var data := IndicesIn(CHARSET, s[3..]);
            && |data| >= 8 && Symbols(data) && data[0] <= 1 && Residue(data) == WantedResidue(data[0])
            && Program(data).Ok? && |Program(data).value| in {20, 32}
  {
    hide Polymod, PolymodFrom, Converted;
    var pos := LastIndex(s, '1');
    assert pos == |s[..pos]| == 2;
    assert s[..3] == s[..pos] + [s[pos]];
  }

  /** Version 0 under the bech32 constant with 20 or 32 bytes, or version 1 under the bech32m constant with 32. */
  predicate Standard(data: seq<nat>)
    requires |data| >= 8 && Symbols(data)
  {
    && Symbols([3, 3, 0, 2, 3] + data)
    && Converted(data[1..|data| - 6], 5, 8, false).Ok?
    && var residue, size := Polymod([3, 3, 0, 2, 3] + data), |Converted(data[1..|data| - 6], 5, 8, false).value|;
       || (data[0] == 0 && residue == 1 && size in {20, 32})
       || (data[0] == 1 && residue == 0x2bc830a3 && size == 32)
  }

  lemma StandardIff(data: seq<nat>)
    requires |data| >= 8 && Symbols(data)
    ensures ValidateData(data).Ok? <==> Standard(data)
    ensures ValidateData(data).Ok? ==>
              var size := |Converted(data[1..|data| - 6], 5, 8, false).value|;
              ValidateData(data).value == if data[0] == 1 then P2TR else if size == 20 then P2WPKH else P2WSH
  {
    hide PolymodFrom, Converted;
    assert HRP == [3, 3, 0, 2, 3];
  }

  lemma LastSeparator(s: string)
    requires "bc1" <= s && Over(CHARSET, s[3..])
    ensures LastIndex(s, '1') == 2
  {
    CharsetLetters();
    forall i | 3 <= i < |s| ensures s[i] != '1' {
      assert IndexRune(CHARSET, s[3..][i - 3]).Some?;
    }
  }

  /**
   * Exactly which lower-case strings are accepted: "bc1" and 8 to 87 characters of the charset, which spell a
   * standard witness program with its checksum.
   */
  lemma AcceptedIff(s: string)
    ensures ValidateLower(s).Ok?
       <==> "bc1" <= s && 11 <= |s| <= 90 && Over(CHARSET, s[3..]) && Symbols(IndicesIn(CHARSET, s[3..]))
            && Standard(IndicesIn(CHARSET, s[3..]))
  {
    hide Standard, ValidateData;
    if ValidateLower(s).Ok? {
      AcceptedLower(s);
      StandardIff(IndicesIn(CHARSET, s[3..]));
    }
    if "bc1" <= s && 11 <= |s| <= 90 && Over(CHARSET, s[3..]) && Symbols(IndicesIn(CHARSET, s[3..])) {
      LastSeparator(s);
      StandardIff(IndicesIn(CHARSET, s[3..]));
    }
  }

  lemma ResidueSubstitution(data: seq<nat>, j: nat, w: nat)
    requires Symbols(data) && j < |data| && w < 32 && w != data[j]
    ensures Symbols(data[j := w]) && Residue(data[j := w]) != Residue(data)
  {
    hide Polymod;
    SubstitutionDetected(HRP + data, 5 + j, w);
    assert (HRP + data)[5 + j := w] == HRP + data[j := w];
  }

  lemma ResidueTransposition(data: seq<nat>, j: nat)
    requires Symbols(data) && j + 1 < |data| && data[j] != data[j + 1]
    ensures Symbols(Swapped(data, j)) && Residue(Swapped(data, j)) != Residue(data)
  {
    hide Polymod;
    TranspositionDetected(HRP + data, 5 + j);
    assert Swapped(HRP + data, 5 + j) == HRP + Swapped(data, j);
  }

  function Swapped<T>(s: seq<T>, i: nat): (t: seq<T>)
    requires i + 1 < |s|
    ensures |t| == |s|
  {
    s[i := s[i + 1]][i + 1 := s[i]]
  }

  lemma IndicesSubstitution(s: string, j: nat, y: char) returns (w: nat)
    requires Over(CHARSET, s) && j < |s| && y != s[j] && Over(CHARSET, s[j := y])
    ensures w < 32 && w != IndicesIn(CHARSET, s)[j]
    ensures IndicesIn(CHARSET, s[j := y]) == IndicesIn(CHARSET, s)[j := w]
  {
    w := IndicesIn(CHARSET, s[j := y])[j];
    CharsetLetters();
  }

  lemma IndicesTransposition(s: string, j: nat)
    requires Over(CHARSET, s) && j + 1 < |s| && s[j] != s[j + 1] && Over(CHARSET, Swapped(s, j))
    ensures IndicesIn(CHARSET, s)[j] != IndicesIn(CHARSET, s)[j + 1]
    ensures IndicesIn(CHARSET, Swapped(s, j)) == Swapped(IndicesIn(CHARSET, s), j)
    ensures var xs := IndicesIn(CHARSET, s); Swapped(xs, j)[0] == if j == 0 then xs[1] else xs[0]
  {
  }

  /** One wrong character after the version is never accepted. */
  lemma LowerSubstitution(s: string, i: nat, y: char)
    requires ValidateLower(s).Ok? && 4 <= i < |s| && y != s[i]
    ensures !ValidateLower(s[i := y]).Ok?
  {
    hide *;
    AcceptedLower(s);
    SubstitutedTail(s, i, y);
    var t := s[i := y];
    if ValidateLower(t).Ok? {
      AcceptedLower(t);
      var w := IndicesSubstitution(s[3..], i - 3, y);
      ResidueSubstitution(IndicesIn(CHARSET, s[3..]), i - 3, w);
      assert false;
    }
  }

  lemma SubstitutedTail(s: string, i: nat, y: char)
    requires 4 <= i < |s|
    ensures s[i := y][3..] == s[3..][i - 3 := y] && s[3..][i - 3] == s[i]
  {
  }

  lemma LowerTransposition(s: string, i: nat)
    requires ValidateLower(s).Ok? && 4 <= i && i + 1 < |s| && s[i] != s[i + 1]
    ensures !ValidateLower(Swapped(s, i)).Ok?
  {
    hide *;
    AcceptedLower(s);
    SwappedTail(s, i);
    var t := Swapped(s, i);
    if ValidateLower(t).Ok? {
      AcceptedLower(t);
      IndicesTransposition(s[3..], i - 3);
      ResidueTransposition(IndicesIn(CHARSET, s[3..]), i - 3);
      assert false;
    }
  }

  lemma SwappedTail(s: string, i: nat)
    requires 4 <= i && i + 1 < |s|
    ensures Swapped(s, i)[3..] == Swapped(s[3..], i - 3)
    ensures s[3..][i - 3] == s[i] && s[3..][i - 2] == s[i + 1]
  {
  }

  // ----- typing errors in the address as typed -----

  /** The one pair of distinct characters the validator cannot tell apart. */
  predicate KelvinPair(a: char, b: char)
  {
    (a == 'K' || a == KELVIN) && (b == 'K' || b == KELVIN)
  }

  lemma CharsetIsLower(s: string, i: nat)
    requires Over(CHARSET, s) && i < |s|
    ensures s[i] in CHARSET && s[i] != 'i' && Lower(s[i]) == s[i]
  {
    CharsetLetters();
    var j := IndexRune(CHARSET, s[i]).value;
    assert CHARSET[j] == s[i];
  }

  lemma CharsetLetters()
    ensures |CHARSET| == 32
    ensures forall j :: 0 <= j < |CHARSET| ==> CHARSET[j] != 'i' && CHARSET[j] != '1' && Lower(CHARSET[j]) == CHARSET[j]
  {
  }

  /** Which replacement of a character keeps the address in a single case. */
  lemma CaseOfReplacement(addr: string, i: nat, c: char)
    requires SegwitPrefix(addr) && SingleCase(addr) && 4 <= i < |addr| && c != addr[i]
    requires Lower(c) == Lower(addr[i]) != 'i'
    ensures SegwitPrefix(addr[i := c])
    ensures SingleCase(addr[i := c]) <==> KelvinPair(addr[i], c)
  {
    var t := addr[i := c];
    assert t[..3] == addr[..3];
    assert t[0] == addr[0];
    if addr == ToLower(addr) {
      assert addr[i] == Lower(addr[i]);
      assert t[i] != Lower(t[i]);
      assert t[0] != Upper(t[0]);
      assert !SingleCase(t);
    } else {
      assert addr[i] == Upper(addr[i]);
      assert addr[0] == Upper(addr[0]);
      assert t[0] != Lower(t[0]);
      if Upper(c) == c {
        assert t == ToUpper(t);
      } else {
        assert t[i] != Upper(t[i]);
      }
    }
  }

  /**
   * Any one-character change after the witness version is rejected, except that
   * an upper-case address may exchange 'K' and the Kelvin sign.
   */
  lemma SubstitutionTypo(addr: string, i: nat, c: char)
    requires ValidateBech32(addr).Ok? && 4 <= i < |addr| && c != addr[i]
    ensures ValidateBech32(addr[i := c]).Ok? <==> KelvinPair(addr[i], c)
  {
    hide ValidateLower, SegwitPrefix, SingleCase;
    var t := addr[i := c];
    var s := ToLower(addr);
    assert ToLower(t) == s[i := Lower(c)];
    LowerAccepted(addr, i);
    if Lower(c) != s[i] {
      LowerSubstitution(s, i, Lower(c));
    } else {
      assert ToLower(t) == s;
      CaseOfReplacement(addr, i, c);
    }
  }

  lemma LowerAccepted(addr: string, i: nat)
    requires ValidateBech32(addr).Ok? && 4 <= i < |addr|
    ensures SegwitPrefix(addr) && SingleCase(addr)
    ensures ValidateLower(ToLower(addr)).Ok?
    ensures Lower(addr[i]) != 'i'
  {
    hide ValidateLower;
    var s := ToLower(addr);
    AcceptedLower(s);
    CharsetIsLower(s[3..], i - 3);
  }

  /** The same for exchanging two adjacent unequal characters. */
  lemma TranspositionTypo(addr: string, i: nat)
    requires ValidateBech32(addr).Ok? && 4 <= i && i + 1 < |addr| && addr[i] != addr[i + 1]
    ensures ValidateBech32(Swapped(addr, i)).Ok? <==> KelvinPair(addr[i], addr[i + 1])
  {
    hide ValidateLower;
    var t := Swapped(addr, i);
    var s := ToLower(addr);
    LowerAccepted(addr, i);
    assert t[..3] == addr[..3];
    if s[i] != s[i + 1] {
      assert ToLower(t) == Swapped(s, i);
      LowerTransposition(s, i);
    } else {
      assert ToLower(t) == s;
      assert addr == ToUpper(addr) by {
        assert addr[i] != s[i] || addr[i + 1] != s[i + 1];
      }
      assert t == ToUpper(t);
      assert addr[i] == Upper(addr[i]) && addr[i + 1] == Upper(addr[i + 1]);
    }
  }
}
