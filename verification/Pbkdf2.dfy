/**
 PBKDF2, section 5.2 of RFC 8018, over any pseudorandom function of fixed output
 length, and the loops that compute it in two reused buffers.
 */
module Pbkdf2 {
  import opened Bytes
  import opened Gf2

  /** The pseudorandom function, already keyed with the password. */
  type Prf = Octets -> Octets

  ghost predicate FixedOutput(prf: Prf, hLen: nat) {
    hLen > 0 && forall m :: |prf(m)| == hLen
  }

  // ---- the definition

  function XorBytes(a: Octets, b: Octets): (r: Octets)
    requires |a| == |b|
    ensures |r| == |a|
  {
    seq(|a|, i requires 0 <= i < |a| => XorByte(a[i], b[i]))
  }

  function XorByte(a: Byte, b: Byte): Byte {
    XorOctets(a, b);
    Xor(a, b)
  }

  /** U_n, the n-th value of the chain that starts from the salt and the block index. */
  function U(prf: Prf, salt: Octets, i: nat, n: nat): Octets
    requires n >= 1
  {
    if n == 1 then prf(salt + Big32(i)) else prf(U(prf, salt, i, n - 1))
  }

  /** T_i = U_1 xor U_2 xor ... xor U_c */
  ghost function T(prf: Prf, hLen: nat, salt: Octets, c: nat, i: nat): (r: Octets)
    requires FixedOutput(prf, hLen) && c >= 1
    ensures |r| == hLen
  {
    if c == 1 then U(prf, salt, i, 1) else XorBytes(T(prf, hLen, salt, c - 1, i), U(prf, salt, i, c))
  }

  /** T_1 || T_2 || ... || T_l */
  ghost function Blocks(prf: Prf, hLen: nat, salt: Octets, c: nat, l: nat): (r: Octets)
    requires FixedOutput(prf, hLen) && c >= 1
    ensures |r| == l * hLen
  {
    if l == 0 then [] else Blocks(prf, hLen, salt, c, l - 1) + T(prf, hLen, salt, c, l)
  }

  function BlocksFor(keyLength: nat, hLen: nat): (l: nat)
    requires hLen > 0
    ensures keyLength <= l * hLen
  {
    Ceiling(keyLength, hLen);
    (keyLength + hLen - 1) / hLen
  }

  lemma Ceiling(keyLength: nat, hLen: nat)
    requires hLen > 0
    ensures keyLength <= (keyLength + hLen - 1) / hLen * hLen < keyLength + hLen
  {
    var n := keyLength + hLen - 1;
    assert n == n / hLen * hLen + n % hLen;
  }

  /** The first keyLength octets of the blocks. */
  ghost function DerivedKey(prf: Prf, hLen: nat, salt: Octets, c: nat, keyLength: nat): (r: Octets)
    requires FixedOutput(prf, hLen) && c >= 1
    ensures |r| == keyLength
  {
    Blocks(prf, hLen, salt, c, BlocksFor(keyLength, hLen))[..keyLength]
  }

  // ---- the loops

  /** One block: u is overwritten by each turn of the chain and folded into block. */
  method Block(prf: Prf, hLen: nat, salt: Octets, iterations: int, i: nat, block: array<Byte>)
    requires FixedOutput(prf, hLen) && block.Length == hLen
    modifies block
    ensures block[..] == T(prf, hLen, salt, if iterations < 1 then 1 else iterations, i)
  {
    var first := prf(salt + Big32(i));
    var u := new Byte[hLen](k => 0);
    Overwrite(u, first);
    Overwrite(block, first);
    var n := 2;
    while n <= iterations
      invariant 2 <= n && (n <= iterations + 1 || n == 2)
      invariant u[..] == U(prf, salt, i, n - 1)
      invariant block[..] == T(prf, hLen, salt, n - 1, i)
      decreases iterations - n
    {
      Turn(prf, hLen, salt, i, n, block, u);
      n := n + 1;
    }
  }

  /** The chain goes one value further, and that value is folded into the block. */
  method Turn(prf: Prf, hLen: nat, salt: Octets, i: nat, ghost n: nat, block: array<Byte>, u: array<Byte>)
    requires FixedOutput(prf, hLen) && n >= 2 && block != u && block.Length == u.Length == hLen
    requires u[..] == U(prf, salt, i, n - 1) && block[..] == T(prf, hLen, salt, n - 1, i)
    modifies block, u
    ensures u[..] == U(prf, salt, i, n) && block[..] == T(prf, hLen, salt, n, i)
  {
    var next := prf(u[..]);
    Overwrite(u, next);
    XorInto(block, u);
  }

  method Overwrite(u: array<Byte>, next: Octets)
    requires u.Length == |next|
    modifies u
    ensures u[..] == next
  {
    for k := 0 to |next|
      invariant forall m :: 0 <= m < k ==> u[m] == next[m]
    {
      u[k] := next[k];
    }
  }

  method XorInto(block: array<Byte>, u: array<Byte>)
    requires block != u && block.Length == u.Length
    modifies block
    ensures block[..] == XorBytes(old(block[..]), u[..])
  {
    for j := 0 to block.Length
      invariant forall m :: 0 <= m < j ==> block[m] == XorByte(old(block[m]), u[m])
      invariant forall m :: j <= m < block.Length ==> block[m] == old(block[m])
    {
      block[j] := XorByte(block[j], u[j]);
    }
  }

  /** Fewer than one iteration runs as one. */
  method Derive(prf: Prf, hLen: nat, salt: Octets, iterations: int, keyLength: nat) returns (key: Octets)
    requires FixedOutput(prf, hLen)
    ensures key == DerivedKey(prf, hLen, salt, if iterations < 1 then 1 else iterations, keyLength)
  {
    var out: Octets := [];
    var block := new Byte[hLen](k => 0);
    var blocks := BlocksFor(keyLength, hLen);
    ghost var c := if iterations < 1 then 1 else iterations;
    for i := 1 to blocks + 1
      invariant out == Blocks(prf, hLen, salt, c, i - 1)
    {
      Block(prf, hLen, salt, iterations, i, block);
      out := out + block[..];
    }
    key := out[..keyLength];
  }

  // ---- what the standard says of it

  lemma {:induction false} BlocksPrefix(prf: Prf, hLen: nat, salt: Octets, c: nat, l: nat, m: nat)
    requires FixedOutput(prf, hLen) && c >= 1 && l <= m
    ensures Blocks(prf, hLen, salt, c, l) <= Blocks(prf, hLen, salt, c, m)
    decreases m
  {
    if l < m {
      BlocksPrefix(prf, hLen, salt, c, l, m - 1);
    }
  }

  lemma BlocksForIsMonotone(j: nat, k: nat, hLen: nat)
    requires hLen > 0 && j <= k
    ensures BlocksFor(j, hLen) <= BlocksFor(k, hLen)
  {
    Ceiling(j, hLen);
    Ceiling(k, hLen);
    LessByFactor(BlocksFor(j, hLen) - 1, BlocksFor(k, hLen), hLen);
  }

  lemma LessByFactor(x: int, y: int, h: nat)
    requires x * h < y * h
    ensures x < y
  {
  }

  /** A shorter key is a prefix of a longer one. */
  lemma ShorterKeyIsPrefix(prf: Prf, hLen: nat, salt: Octets, c: nat, j: nat, k: nat)
    requires FixedOutput(prf, hLen) && c >= 1 && j <= k
    ensures DerivedKey(prf, hLen, salt, c, j) == DerivedKey(prf, hLen, salt, c, k)[..j]
  {
    BlocksForIsMonotone(j, k, hLen);
    BlocksPrefix(prf, hLen, salt, c, BlocksFor(j, hLen), BlocksFor(k, hLen));
  }

  /** The index octets are the index exactly while it fits in four octets, which the standard's limit ensures. */
  lemma IndexIsExactlyEncoded(i: nat)
    ensures BigEndian(Big32(i)) == i % 0x1_0000_0000
    ensures BigEndian(Big32(i)) == i <==> i < 0x1_0000_0000
  {
    Word32IsBigEndian(Big32(i));
    Word32ReadsBack(i);
  }

  /** Past that limit the code goes on where the standard stops, and repeats itself. */
  lemma {:induction false} BlocksRepeatPastTheLimit(prf: Prf, hLen: nat, salt: Octets, c: nat, i: nat)
    requires FixedOutput(prf, hLen) && c >= 1
    ensures T(prf, hLen, salt, c, i + 0x1_0000_0000) == T(prf, hLen, salt, c, i)
    decreases c
  {
    SameIndexOctets(i);
    ChainFromSameStart(prf, salt, i, i + 0x1_0000_0000, c);
    if c > 1 {
      BlocksRepeatPastTheLimit(prf, hLen, salt, c - 1, i);
    }
  }

  lemma SameIndexOctets(i: nat)
    ensures Big32(i + 0x1_0000_0000) == Big32(i)
  {
    assert (i + 0x1_0000_0000) / 0x1_0000 == i / 0x1_0000 + 0x1_0000;
    HighBitsAreDropped(i / 0x1_0000, 1);
    HighBitsAreDropped(i, 0x1_0000);
  }

  lemma HighBitsAreDropped(n: nat, turns: nat)
    ensures Big16(n + 0x1_0000 * turns) == Big16(n)
  {
    var m := n + 0x1_0000 * turns;
    assert m / 256 == n / 256 + 256 * turns;
    assert m / 256 % 256 == n / 256 % 256;
    assert m % 256 == n % 256;
  }

  lemma {:induction false} ChainFromSameStart(prf: Prf, salt: Octets, i: nat, j: nat, n: nat)
    requires n >= 1 && Big32(i) == Big32(j)
    ensures U(prf, salt, i, n) == U(prf, salt, j, n)
  {
    if n > 1 {
      ChainFromSameStart(prf, salt, i, j, n - 1);
    }
  }

  // ---- the key, octet by octet and bit by bit

  /** How many of the first c values of the chain have bit b of octet k set. */
  ghost function Ones(prf: Prf, hLen: nat, salt: Octets, i: nat, c: nat, k: nat, b: nat): nat
    requires FixedOutput(prf, hLen) && k < hLen
  {
    if c == 0 then 0 else Ones(prf, hLen, salt, i, c - 1, k, b) + Bit(U(prf, salt, i, c)[k], b)
  }

  /** Each bit of a block is the parity of that bit over the whole chain. */
  lemma {:induction false} BlockIsParity(prf: Prf, hLen: nat, salt: Octets, c: nat, i: nat, k: nat, b: nat)
    requires FixedOutput(prf, hLen) && c >= 1 && k < hLen
    ensures Bit(T(prf, hLen, salt, c, i)[k], b) == Ones(prf, hLen, salt, i, c, k, b) % 2
  {
    if c == 1 {
      FirstOnes(prf, hLen, salt, i, k, b);
    } else {
      BlockIsParity(prf, hLen, salt, c - 1, i, k, b);
      NextBit(prf, hLen, salt, c, i, k, b);
    }
  }

  lemma FirstOnes(prf: Prf, hLen: nat, salt: Octets, i: nat, k: nat, b: nat)
    requires FixedOutput(prf, hLen) && k < hLen
    ensures Bit(T(prf, hLen, salt, 1, i)[k], b) == Ones(prf, hLen, salt, i, 1, k, b) % 2
  {
    assert Ones(prf, hLen, salt, i, 0, k, b) == 0;
  }

  lemma NextBit(prf: Prf, hLen: nat, salt: Octets, c: nat, i: nat, k: nat, b: nat)
    requires FixedOutput(prf, hLen) && c >= 2 && k < hLen
    ensures |U(prf, salt, i, c)| == hLen
    ensures Bit(T(prf, hLen, salt, c, i)[k], b) == (Bit(T(prf, hLen, salt, c - 1, i)[k], b) + Bit(U(prf, salt, i, c)[k], b)) % 2
  {
    XorBytesBit(T(prf, hLen, salt, c - 1, i), U(prf, salt, i, c), k, b);
  }

  lemma XorBytesBit(x: Octets, y: Octets, k: nat, b: nat)
    requires |x| == |y| && k < |x|
    ensures Bit(XorBytes(x, y)[k], b) == (Bit(x[k], b) + Bit(y[k], b)) % 2
  {
    BitXor(x[k], y[k], b);
  }

  /** The chain begins with the salt and the four octets of the index, most significant first, and feeds on itself. */
  lemma ChainStart(prf: Prf, salt: Octets, i: nat)
    ensures forall n: nat :: n >= 2 ==> U(prf, salt, i, n) == prf(U(prf, salt, i, n - 1))
    ensures U(prf, salt, i, 1) == prf(salt + [i / 0x1_0000 / 256 % 256, i / 0x1_0000 % 256, i / 256 % 256, i % 256])
  {
    assert Big32(i) == [i / 0x1_0000 / 256 % 256, i / 0x1_0000 % 256, i / 256 % 256, i % 256];
  }

  lemma DivModAre(j: nat, h: nat, q: nat, r: nat)
    requires h > 0 && r < h && j == h * q + r
    ensures j / h == q && j % h == r
  {
    var p := j / h;
    assert h * p <= j < h * (p + 1);
    LessByFactor(q, p + 1, h);
    LessByFactor(p, q + 1, h);
  }

  lemma OneFewer(l: nat, h: nat)
    requires l > 0
    ensures l * h == (l - 1) * h + h == h * (l - 1) + h
  {
  }

  lemma {:induction false} BlockOctet(prf: Prf, hLen: nat, salt: Octets, c: nat, l: nat, j: nat)
    requires FixedOutput(prf, hLen) && c >= 1 && j < l * hLen
    ensures Blocks(prf, hLen, salt, c, l)[j] == T(prf, hLen, salt, c, j / hLen + 1)[j % hLen]
  {
    if l > 0 {
      var prev, last := Blocks(prf, hLen, salt, c, l - 1), T(prf, hLen, salt, c, l);
      OneFewer(l, hLen);
      if j < |prev| {
        BlockOctet(prf, hLen, salt, c, l - 1, j);
      } else {
        DivModAre(j, hLen, l - 1, j - |prev|);
      }
    }
  }

  /** Octet j of a key of any length is octet j mod hLen of block j / hLen, counted from one. */
  lemma KeyOctet(prf: Prf, hLen: nat, salt: Octets, c: nat, keyLength: nat, j: nat)
    requires FixedOutput(prf, hLen) && c >= 1 && j < keyLength
    ensures DerivedKey(prf, hLen, salt, c, keyLength)[j] == T(prf, hLen, salt, c, j / hLen + 1)[j % hLen]
  {
    BlockOctet(prf, hLen, salt, c, BlocksFor(keyLength, hLen), j);
  }
}
