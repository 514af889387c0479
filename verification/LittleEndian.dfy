// Fixed-width little-endian integers, as encoding/binary writes and reads them.

module LittleEndian {
  import opened Numerals

  function LeBytes(n: nat, k: nat): (b: seq<Byte>)
    ensures |b| == k
  {
    if k == 0 then [] else [n % 256] + LeBytes(n / 256, k - 1)
  }

  function LeValue(b: seq<Byte>): nat
  {
    if |b| == 0 then 0 else b[0] + 256 * LeValue(b[1..])
  }

  lemma {:induction false} LeRoundTrip(n: nat, k: nat)
    requires n < Pow(256, k)
    ensures LeValue(LeBytes(n, k)) == n
  {
    if k > 0 {
      assert LeBytes(n, k)[1..] == LeBytes(n / 256, k - 1);
      LeRoundTrip(n / 256, k - 1);
    }
  }

  lemma {:induction false} LeBytesOfValue(b: seq<Byte>)
    ensures LeBytes(LeValue(b), |b|) == b
    ensures LeValue(b) < Pow(256, |b|)
  {
    if |b| > 0 {
      LeBytesOfValue(b[1..]);
      var v := LeValue(b[1..]);
      assert LeValue(b) / 256 == v && LeValue(b) % 256 == b[0];
      assert b == [b[0]] + b[1..];
    }
  }

  lemma Widths()
    ensures Pow(256, 1) == 0x100 && Pow(256, 2) == 0x1_0000 && Pow(256, 3) == 0x100_0000
    ensures Pow(256, 4) == 0x1_0000_0000 && Pow(256, 8) == 0x1_0000_0000_0000_0000
  {
    assert Pow(256, 2) == 256 * Pow(256, 1);
    assert Pow(256, 4) == 256 * (256 * Pow(256, 2));
    assert Pow(256, 6) == 256 * (256 * Pow(256, 4));
  }
}
