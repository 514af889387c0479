// Published legacy addresses, from their characters to their locking scripts.
// They fix the alphabet, the base and the opcodes.

module PublishedLegacy {
  import opened Numerals
  import opened Results
  import opened Text
  import opened Address
  import opened Script
  import opened Base58

  /** The alphabet, digit by digit. */
  function Letter(v: nat): char
  {
    match v
    case 0 => '1' case 1 => '2' case 2 => '3' case 3 => '4' case 4 => '5' case 5 => '6' case 6 => '7'
    case 7 => '8' case 8 => '9' case 9 => 'A' case 10 => 'B' case 11 => 'C' case 12 => 'D' case 13 => 'E'
    case 14 => 'F' case 15 => 'G' case 16 => 'H' case 17 => 'J' case 18 => 'K' case 19 => 'L' case 20 => 'M'
    case 21 => 'N' case 22 => 'P' case 23 => 'Q' case 24 => 'R' case 25 => 'S' case 26 => 'T' case 27 => 'U'
    case 28 => 'V' case 29 => 'W' case 30 => 'X' case 31 => 'Y' case 32 => 'Z' case 33 => 'a' case 34 => 'b'
    case 35 => 'c' case 36 => 'd' case 37 => 'e' case 38 => 'f' case 39 => 'g' case 40 => 'h' case 41 => 'i'
    case 42 => 'j' case 43 => 'k' case 44 => 'm' case 45 => 'n' case 46 => 'o' case 47 => 'p' case 48 => 'q'
    case 49 => 'r' case 50 => 's' case 51 => 't' case 52 => 'u' case 53 => 'v' case 54 => 'w' case 55 => 'x'
    case 56 => 'y'
    case _ => 'z'
  }

  lemma FirstLetters()
    ensures |DIGITS| == 9 && forall v :: 0 <= v < 9 ==> DIGITS[v] == Letter(v)
    ensures |UPPER_N| == 13 && forall v :: 0 <= v < 13 ==> UPPER_N[v] == Letter(9 + v)
    ensures |UPPER_Z| == 11 && forall v :: 0 <= v < 11 ==> UPPER_Z[v] == Letter(22 + v)
  {
  }

  lemma LastLetters()
    ensures |LOWER_K| == 11 && forall v :: 0 <= v < 11 ==> LOWER_K[v] == Letter(33 + v)
    ensures |LOWER_Z| == 14 && forall v :: 0 <= v < 14 ==> LOWER_Z[v] == Letter(44 + v)
  {
  }

  lemma Letters(v: nat)
    requires v < 58
    ensures |ALPHABET| == 58 && ALPHABET[v] == Letter(v)
  {
    FirstLetters();
    LastLetters();
    hide Letter;
    if v < 9 {
      assert ALPHABET[v] == DIGITS[v];
    } else if v < 22 {
      assert ALPHABET[v] == UPPER_N[v - 9];
    } else if v < 33 {
      assert ALPHABET[v] == UPPER_Z[v - 22];
    } else if v < 44 {
      assert ALPHABET[v] == LOWER_K[v - 33];
    } else {
      assert ALPHABET[v] == LOWER_Z[v - 44];
    }
  }

  /** The characters are those of these digits, and their number is n. */
  predicate Spells(text: string, digits: seq<nat>, n: nat)
  {
    |text| == |digits| && Digits(58, digits) && Value(58, digits) == n
    && forall i :: 0 <= i < |text| ==> text[i] == Letter(digits[i])
  }

  lemma Horner(base: nat, v: seq<nat>)
    requires |v| == 8
    ensures forall k :: 0 <= k < 8 ==> Value(base, v[..k + 1]) == Value(base, v[..k]) * base + v[k]
    ensures Value(base, v[..0]) == 0 && v[..8] == v
  {
    forall k: nat | k < 8 ensures Value(base, v[..k + 1]) == Value(base, v[..k]) * base + v[k] {
      assert v[..k + 1] == v[..k] + [v[k]];
      ValueSnoc(base, v[..k], v[k]);
    }
  }

  lemma EightDigits(v: seq<nat>)
    requires |v| == 8
    ensures Value(58, v)
         == ((((((v[0] * 58 + v[1]) * 58 + v[2]) * 58 + v[3]) * 58 + v[4]) * 58 + v[5]) * 58 + v[6]) * 58 + v[7]
  {
    Horner(58, v);
    hide Value;
  }

  lemma Pair(text: string, a: nat, b: nat)
    requires a < 58 && b < 58 && text == [Letter(a), Letter(b)]
    ensures Spells(text, [a, b], a * 58 + b)
  {
    ValueSnoc(58, [], a);
    ValueSnoc(58, [] + [a], b);
    assert [] + [a] + [b] == [a, b];
    hide Letter;
  }

  lemma EightBytes(v: seq<nat>)
    requires |v| == 8
    ensures Value(256, v)
         == ((((((v[0] * 256 + v[1]) * 256 + v[2]) * 256 + v[3]) * 256 + v[4]) * 256 + v[5]) * 256 + v[6]) * 256 + v[7]
  {
    Horner(256, v);
    hide Value;
  }

  lemma Powers()
    ensures Pow(58, 8) == 0x7479_027e_a100 && Pow(58, 2) == 3364 && Pow(256, 8) == 0x1_0000_0000_0000_0000
  {
    assert Pow(58, 4) == 58 * (58 * (58 * (58 * Pow(58, 0))));
    assert Pow(58, 8) == 58 * (58 * (58 * (58 * Pow(58, 4))));
    assert Pow(256, 4) == 256 * (256 * (256 * (256 * Pow(256, 0))));
    assert Pow(256, 8) == 256 * (256 * (256 * (256 * Pow(256, 4))));
  }

  lemma Joined(t: string, v: seq<nat>, m: nat, u: string, w: seq<nat>, n: nat, k: nat)
    requires Spells(t, v, m) && Spells(u, w, n) && k == m * Pow(58, |w|) + n
    ensures Spells(t + u, v + w, k)
  {
    hide Value, Letter, Pow;
    ValueAppend(58, v, w);
  }

  lemma Joined256(v: seq<nat>, w: seq<nat>)
    requires |w| == 8
    ensures Value(256, v + w) == Value(256, v) * 0x1_0000_0000_0000_0000 + Value(256, w)
  {
    hide Value;
    ValueAppend(256, v, w);
    Powers();
  }

  lemma Found(v: nat)
    requires v < 58
    ensures IndexRune(ALPHABET, Letter(v)) == Some(v)
  {
    hide Letter, IndexRune;
    AlphabetDistinct();
    Letters(v);
    IndexOfDistinct(ALPHABET, v);
  }

  /** Digits that stand for a version byte of zero and these bytes, or for these bytes alone, decode to them. */
  lemma DigitsDecode(text: string, digits: seq<nat>, n: nat, bytes: seq<Byte>, leading: nat)
    requires Spells(text, digits, n) && Value(256, bytes) == n && |bytes| > 0 && bytes[0] != 0 && leading <= 1
    requires |text| > 1 && text[leading] != '1' && (leading == 1 ==> text[0] == '1')
    ensures Decoded(text) == Ok(Zeros(leading) + bytes)
  {
    hide Value, Letter, Decoded, ToDigits, IndexRune, Zeros;
    forall i | 0 <= i < |text| ensures IndexRune(ALPHABET, text[i]) == Some(digits[i]) {
      Found(digits[i]);
    }
    DecodedNumeral(text, digits, leading);
    CanonicalDigits(256, bytes);
  }

  lemma Pkh1()
    ensures Spells("1A1zP1eP", [0, 9, 0, 57, 22, 0, 37, 22], 0x4f_ec57_68b8)
  {
    EightDigits([0, 9, 0, 57, 22, 0, 37, 22]);
    hide Value;
  }

  lemma Pkh2()
    ensures Spells("5QGefi2D", [4, 23, 15, 37, 38, 41, 1, 12], 0x8d6_9950_7e6a)
  {
    EightDigits([4, 23, 15, 37, 38, 41, 1, 12]);
    hide Value;
  }

  lemma Pkh3()
    ensures Spells("MPTfTL5S", [20, 22, 26, 38, 26, 19, 4, 25], 0x28f0_cce8_20dd)
  {
    EightDigits([20, 22, 26, 38, 26, 19, 4, 25]);
    hide Value;
  }

  lemma Pkh4()
    ensures Spells("Lmv7Divf", [19, 44, 53, 6, 12, 41, 53, 38], 0x27b5_c0e7_43cc)
  {
    EightDigits([19, 44, 53, 6, 12, 41, 53, 38]);
    hide Value;
  }

  lemma Pkh5()
    ensures Spells("Na", [21, 33], 1251)
  {
    Pair("Na", 21, 33);
  }

  function PkhText(): string
  {
    "1A1zP1eP" + "5QGefi2D" + "MPTfTL5S" + "Lmv7Divf" + "Na"
  }

  function PkhDigits(): seq<nat>
  {
    [0, 9, 0, 57, 22, 0, 37, 22] + [4, 23, 15, 37, 38, 41, 1, 12] + [20, 22, 26, 38, 26, 19, 4, 25]
    + [19, 44, 53, 6, 12, 41, 53, 38] + [21, 33]
  }

  lemma PkhNumber()
    ensures Spells(PkhText(), PkhDigits(), 0x62e9_07b1_5cbf_27d5_4253_99eb_f6f0_fb50_ebb8_8f18_c29b_7d93)
  {
    Pkh1();
    Pkh2();
    Pkh3();
    Pkh4();
    Pkh5();
    Powers();
    hide Spells, Pow;
    var t, v := "1A1zP1eP", [0, 9, 0, 57, 22, 0, 37, 22];
    Joined(t, v, 0x4f_ec57_68b8, "5QGefi2D", [4, 23, 15, 37, 38, 41, 1, 12], 0x8d6_9950_7e6a,
           0x24_5cdf_1825_2d48_8cbc_366a);
    t, v := t + "5QGefi2D", v + [4, 23, 15, 37, 38, 41, 1, 12];
    Joined(t, v, 0x24_5cdf_1825_2d48_8cbc_366a, "MPTfTL5S", [20, 22, 26, 38, 26, 19, 4, 25], 0x28f0_cce8_20dd,
           0x10_8b45_5719_947d_c1e6_09e7_469c_c74c_cadd);
    t, v := t + "MPTfTL5S", v + [20, 22, 26, 38, 26, 19, 4, 25];
    Joined(t, v, 0x10_8b45_5719_947d_c1e6_09e7_469c_c74c_cadd, "Lmv7Divf", [19, 44, 53, 6, 12, 41, 53, 38],
           0x27b5_c0e7_43cc, 0x7_86ed_6883_40c5_d8d4_0a03_cc8d_c505_6d59_78e3_9f42_40cc);
    t, v := t + "Lmv7Divf", v + [19, 44, 53, 6, 12, 41, 53, 38];
    Joined(t, v, 0x7_86ed_6883_40c5_d8d4_0a03_cc8d_c505_6d59_78e3_9f42_40cc, "Na", [21, 33], 1251,
           0x62e9_07b1_5cbf_27d5_4253_99eb_f6f0_fb50_ebb8_8f18_c29b_7d93);
  }

  /** The payload and checksum after the version byte. */
  function PkhBytes(): seq<Byte>
  {
    [0x62, 0xe9, 0x07, 0xb1, 0x5c, 0xbf, 0x27, 0xd5] + [0x42, 0x53, 0x99, 0xeb, 0xf6, 0xf0, 0xfb, 0x50]
    + [0xeb, 0xb8, 0x8f, 0x18, 0xc2, 0x9b, 0x7d, 0x93]
  }

  lemma PkhValue()
    ensures Value(256, PkhBytes()) == 0x62e9_07b1_5cbf_27d5_4253_99eb_f6f0_fb50_ebb8_8f18_c29b_7d93
  {
    EightBytes([0x62, 0xe9, 0x07, 0xb1, 0x5c, 0xbf, 0x27, 0xd5]);
    EightBytes([0x42, 0x53, 0x99, 0xeb, 0xf6, 0xf0, 0xfb, 0x50]);
    EightBytes([0xeb, 0xb8, 0x8f, 0x18, 0xc2, 0x9b, 0x7d, 0x93]);
    hide Value;
    Joined256([0x62, 0xe9, 0x07, 0xb1, 0x5c, 0xbf, 0x27, 0xd5], [0x42, 0x53, 0x99, 0xeb, 0xf6, 0xf0, 0xfb, 0x50]);
    Joined256([0x62, 0xe9, 0x07, 0xb1, 0x5c, 0xbf, 0x27, 0xd5] + [0x42, 0x53, 0x99, 0xeb, 0xf6, 0xf0, 0xfb, 0x50],
              [0xeb, 0xb8, 0x8f, 0x18, 0xc2, 0x9b, 0x7d, 0x93]);
  }

  /** The hash the address stands for. */
  function PkhHash(): seq<Byte>
  {
    [0x62, 0xe9, 0x07, 0xb1, 0x5c, 0xbf, 0x27, 0xd5] + [0x42, 0x53, 0x99, 0xeb, 0xf6, 0xf0, 0xfb, 0x50]
    + [0xeb, 0xb8, 0x8f, 0x18]
  }

  lemma PkhDecodes()
    ensures "1" <= PkhText() && Decoded(PkhText()) == Ok([0x00] + PkhHash() + [0xc2, 0x9b, 0x7d, 0x93])
  {
    PkhNumber();
    PkhValue();
    var s := PkhText();
    assert s[0] == '1' && s[1] == 'A' && PkhBytes()[0] == 0x62;
    assert Zeros(1) == [0x00];
    assert [0x00] + PkhBytes() == [0x00] + PkhHash() + [0xc2, 0x9b, 0x7d, 0x93];
    hide Spells, Value, Decoded, PkhText, PkhBytes, PkhDigits, PkhHash, Zeros;
    DigitsDecode(s, PkhDigits(), 0x62e9_07b1_5cbf_27d5_4253_99eb_f6f0_fb50_ebb8_8f18_c29b_7d93, PkhBytes(), 1);
  }

  /** A version byte of zero, a hash and its checksum: accepted as P2PKH, and locked to the hash. */
  lemma KeyHashLocks(sum: Checksum4, s: string, hash: seq<Byte>, check: seq<Byte>)
    requires "1" <= s && |hash| == 20 && |check| == 4 && Decoded(s) == Ok([0x00] + hash + check)
    ensures if sum([0x00] + hash) == check
            then ValidateAddress(sum, s) == Ok(P2PKH)
                 && ScriptForAddress(sum, s) == Ok([0x76, 0xa9, 0x14] + hash + [0x88, 0xac])
            else ValidateAddress(sum, s) == Err(ChecksumFailed)
  {
    hide Decoded, ValidateLower;
    var raw: seq<Byte> := [0x00] + hash + check;
    assert s[0] == '1' && raw[..21] == [0x00] + hash && raw[21..] == check && raw[1..21] == hash;
  }

  /** The address of the first block: with its published checksum a P2PKH address, and locked as published. */
  lemma GenesisLocks(sum: Checksum4)
    ensures if sum([0x00] + PkhHash()) == [0xc2, 0x9b, 0x7d, 0x93]
            then ValidateAddress(sum, PkhText()) == Ok(P2PKH)
                 && ScriptForAddress(sum, PkhText()) == Ok([0x76, 0xa9, 0x14] + PkhHash() + [0x88, 0xac])
            else ValidateAddress(sum, PkhText()) == Err(ChecksumFailed)
  {
    PkhDecodes();
    assert |PkhHash()| == 20;
    hide PkhText, PkhHash, Decoded, ValidateAddress, ScriptForAddress;
    KeyHashLocks(sum, PkhText(), PkhHash(), [0xc2, 0x9b, 0x7d, 0x93]);
  }
}
