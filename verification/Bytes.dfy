/** Octets and the two byte orders the wire formats use. */
module Bytes {

  type Byte = x: int | 0 <= x < 256
  type Octets = seq<Byte>
  type Word = x: int | 0 <= x < 0x1_0000_0000

  /** int.from_bytes(b, "big") */
  function BigEndian(b: Octets): nat {
    if b == [] then 0 else 256 * BigEndian(b[..|b| - 1]) + b[|b| - 1]
  }

  /** The low sixteen bits, most significant octet first. */
  function Big16(n: nat): (b: Octets)
    ensures |b| == 2
  {
    [n / 256 % 256, n % 256]
  }

  /** The same, least significant octet first. */
  function Little16(n: nat): (b: Octets)
    ensures |b| == 2
  {
    [n % 256, n / 256 % 256]
  }

  /** The low thirty-two bits, most significant octet first. */
  function Big32(n: nat): (b: Octets)
    ensures |b| == 4
  {
    Big16(n / 0x1_0000) + Big16(n)
  }

  /** The number in the first two octets. */
  function Word16(b: Octets): (n: nat)
    requires |b| >= 2
    ensures n < 0x1_0000
  {
    256 * (b[0] as int) + b[1] as int
  }

  function Word32(b: Octets): Word
    requires |b| == 4
  {
    0x1_0000 * Word16(b[..2]) + Word16(b[2..])
  }

  lemma Word16ReadsBack(n: nat)
    ensures Word16(Big16(n)) == n % 0x1_0000
  {
    LowDigits16(n);
  }

  lemma LowDigits16(n: nat)
    ensures 256 * (n / 256 % 256) + n % 256 == n % 0x1_0000
  {
    var q, r := n / 256, n % 256;
    var p, s := q / 256, q % 256;
  }

  lemma LowDigits32(n: nat)
    ensures 0x1_0000 * (n / 0x1_0000 % 0x1_0000) + n % 0x1_0000 == n % 0x1_0000_0000
  {
    var q, r := n / 0x1_0000, n % 0x1_0000;
    var p, s := q / 0x1_0000, q % 0x1_0000;
  }

  lemma HalvesOfWord(high: Octets, low: Octets)
    requires |high| == 2 && |low| == 2
    ensures Word32(high + low) == 0x1_0000 * Word16(high) + Word16(low)
  {
    assert (high + low)[..2] == high && (high + low)[2..] == low;
  }

  lemma Word32ReadsBack(n: nat)
    ensures Word32(Big32(n)) == n % 0x1_0000_0000
  {
    HalvesOfWord(Big16(n / 0x1_0000), Big16(n));
    Word16ReadsBack(n / 0x1_0000);
    Word16ReadsBack(n);
    LowDigits32(n);
  }

  lemma Word32IsBigEndian(b: Octets)
    requires |b| == 4
    ensures Word32(b) == BigEndian(b)
  {
    PairIsBigEndian(b[..2]);
    assert b[..3][..2] == b[..2] && b[..3][2] == b[2] && b[2..] == [b[2], b[3]];
    assert BigEndian(b[..3]) == 256 * BigEndian(b[..2]) + b[2];
    assert BigEndian(b) == 256 * BigEndian(b[..3]) + b[3];
  }

  lemma PairIsBigEndian(b: Octets)
    requires |b| == 2
    ensures Word16(b) == BigEndian(b)
  {
    assert b[..1] == [b[0]] && [b[0]][..0] == [];
    assert BigEndian([b[0]]) == 256 * BigEndian([]) + b[0];
  }
}
