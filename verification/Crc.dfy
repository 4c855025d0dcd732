/**
 The bit-serial CRC-32 of the solver, and what it computes: the remainder of
 the message, followed by 32 zero bits and with the initial value added in
 front, on division by x^32 + poly.
 */
module Crc {
  import opened Bytes
  import opened Gf2

  const WORD: nat := 0x1_0000_0000
  const TOP_BIT: nat := 0x8000_0000

  /** The degree-32 polynomial whose low 32 coefficients are poly. */
  function Generator(poly: Word): nat {
    WORD + poly
  }

  /** One turn of the register. */
  function Step(reg: Word, poly: Word): Word {
    if reg / TOP_BIT % 2 == 1 then Xor(2 * reg, poly) % WORD else 2 * reg % WORD
  }

  function Steps(reg: Word, poly: Word, n: nat): Word {
    if n == 0 then reg else Step(Steps(reg, poly, n - 1), poly)
  }

  /** An octet enters at the top of the register. */
  function Enter(reg: Word, b: Byte): Word {
    XorWord(reg, 0x100_0000 * b);
    Xor(reg, 0x100_0000 * b)
  }

  function CrcOf(data: Octets, poly: Word, init: Word): Word {
    if data == [] then init
    else Steps(Enter(CrcOf(data[..|data| - 1], poly, init), data[|data| - 1]), poly, 8)
  }

  /** What a CRC with this initial value divides: M(x) x^32 + init x^(8n). */
  function Dividend(data: Octets, init: Word): nat {
    Xor(Shift(BigEndian(data), 32), Shift(init, 8 * |data|))
  }

  method EightTurns(entered: Word, poly: Word) returns (reg: Word)
    ensures reg == Steps(entered, poly, 8)
  {
    reg := entered;
    for n := 0 to 8
      invariant reg == Steps(entered, poly, n)
    {
      reg := Step(reg, poly);
    }
  }

  /** The CRC exactly as the script runs it. */
  method ComputeCrc(data: Octets, poly: Word, init: Word) returns (reg: Word)
    ensures reg == CrcOf(data, poly, init)
    ensures IsRemainder(reg, Dividend(data, init), Generator(poly))
  {
    reg := init;
    for i := 0 to |data|
      invariant reg == CrcOf(data[..i], poly, init)
    {
      reg := EightTurns(Enter(reg, data[i]), poly);
      assert data[..i + 1][..i] == data[..i];
    }
    assert data[..|data|] == data;
    CrcIsRemainder(data, poly, init);
  }

  // ---- facts about 32-bit words

  lemma ShiftWord(a: nat)
    ensures Shift(a, 8) == 256 * a
    ensures Shift(a, 24) == 0x100_0000 * a
    ensures Shift(a, 32) == WORD * a
  {
    ShiftAdd(a, 8, 8);
    ShiftAdd(a, 16, 8);
    ShiftAdd(a, 24, 8);
    ShiftByOctet(a);
    ShiftByOctet(Shift(a, 8));
    ShiftByOctet(Shift(a, 16));
    ShiftByOctet(Shift(a, 24));
  }

  lemma ShiftByTwo(a: nat)
    ensures Shift(a, 1) == 2 * a && Shift(a, 2) == 4 * a
  {
    assert Shift(a, 0) == a;
    assert Shift(a, 1) == 2 * a;
  }

  lemma ShiftByOctet(a: nat)
    ensures Shift(a, 8) == 256 * a
  {
    ShiftByTwo(a);
    ShiftByTwo(4 * a);
    ShiftByTwo(16 * a);
    ShiftByTwo(64 * a);
    ShiftAdd(a, 2, 2);
    ShiftAdd(a, 4, 2);
    ShiftAdd(a, 6, 2);
  }

  lemma WordBits(a: nat)
    ensures a < WORD <==> BitLength(a) <= 32
  {
    ShiftWord(1);
    BitLengthBound(a, 32);
  }

  lemma XorWord(a: Word, b: Word)
    ensures Xor(a, b) < WORD
  {
    WordBits(a);
    WordBits(b);
    BitLengthXor(a, b);
    WordBits(Xor(a, b));
  }

  /** High and low parts are added separately. */
  lemma {:induction false} XorSplit(ha: nat, la: nat, hb: nat, lb: nat, k: nat)
    requires la < Shift(1, k) && lb < Shift(1, k)
    ensures Xor(Shift(ha, k) + la, Shift(hb, k) + lb) == Shift(Xor(ha, hb), k) + Xor(la, lb)
  {
    if k > 0 {
      XorSplit(ha, la / 2, hb, lb / 2, k - 1);
      XorSplitStep(Shift(ha, k - 1), la, Shift(hb, k - 1), lb, Shift(Xor(ha, hb), k - 1));
    }
  }

  lemma XorSplitStep(p: nat, la: nat, q: nat, lb: nat, high: nat)
    requires Xor(p + la / 2, q + lb / 2) == high + Xor(la / 2, lb / 2)
    ensures Xor(2 * p + la, 2 * q + lb) == 2 * high + Xor(la, lb)
  {
    Halves(p, la);
    Halves(q, lb);
    XorUnfold(2 * p + la, 2 * q + lb);
    XorUnfold(la, lb);
  }

  lemma Halves(high: nat, low: nat)
    ensures (2 * high + low) / 2 == high + low / 2 && (2 * high + low) % 2 == low % 2
  {
  }

  lemma XorSplitWord(ha: nat, la: Word, hb: nat, lb: Word)
    ensures Xor(WORD * ha + la, WORD * hb + lb) == WORD * Xor(ha, hb) + Xor(la, lb)
  {
    ShiftWord(1);
    ShiftWord(ha);
    ShiftWord(hb);
    ShiftWord(Xor(ha, hb));
    XorSplit(ha, la, hb, lb, 32);
  }

  lemma GeneratorDegree(poly: Word)
    ensures BitLength(Generator(poly)) == 33
  {
    ShiftWord(1);
    BitLengthBound(Generator(poly), 32);
    BitLengthBound(Generator(poly), 33);
  }

  // ---- the register follows the remainder

  lemma TopBitOut(reg: Word)
    ensures 2 * reg == WORD * (reg / TOP_BIT % 2) + 2 * reg % WORD
  {
  }

  /** Adding the generator takes away the bit that was shifted out. */
  lemma ReducedByGenerator(low: Word, poly: Word)
    ensures Xor(low, poly) < WORD
    ensures Xor(WORD + low, Xor(low, poly)) == Generator(poly)
  {
    XorWord(low, poly);
    XorSplitWord(1, low, 0, Xor(low, poly));
    XorCancel(low, poly);
  }

  /** A turn multiplies by x and reduces. */
  lemma StepIsTimesX(reg: Word, poly: Word)
    ensures Divides(Generator(poly), Xor(2 * reg, Step(reg, poly)))
  {
    var low := 2 * reg % WORD;
    TopBitOut(reg);
    if reg / TOP_BIT % 2 == 1 {
      ReducedByGenerator(low, poly);
      XorSplitWord(1, low, 0, poly);
      ShiftedOut(Xor(low, poly));
      DividesSelf(Generator(poly));
    } else {
      XorSelf(2 * reg);
      DividesZero(Generator(poly));
    }
  }

  lemma ShiftedOut(next: Word)
    ensures (WORD * 1 + next) % WORD == next
  {
  }

  lemma {:induction false} StepsAreTimesPowers(reg: Word, poly: Word, n: nat)
    ensures Divides(Generator(poly), Xor(Shift(reg, n), Steps(reg, poly, n)))
  {
    var g := Generator(poly);
    if n == 0 {
      XorSelf(reg);
      DividesZero(g);
    } else {
      var before: nat := Steps(reg, poly, n - 1);
      StepsAreTimesPowers(reg, poly, n - 1);
      DividesShift(g, Xor(Shift(reg, n - 1), before), 1);
      ShiftByTwo(Xor(Shift(reg, n - 1), before));
      XorDouble(Shift(reg, n - 1), before);
      StepIsTimesX(before, poly);
      CongruentTrans(g, Shift(reg, n), 2 * before, Steps(reg, poly, n));
    }
  }

  lemma CongruentTrans(g: nat, a: nat, b: nat, c: nat)
    requires Divides(g, Xor(a, b)) && Divides(g, Xor(b, c))
    ensures Divides(g, Xor(a, c))
  {
    DividesXor(g, Xor(a, b), Xor(b, c));
    XorAssoc(a, b, Xor(b, c));
    XorCancel(b, c);
  }

  lemma MessageSnoc(data: Octets, b: Byte)
    ensures BigEndian(data + [b]) == Xor(Shift(BigEndian(data), 8), b)
  {
    var next := data + [b];
    assert next[..|next| - 1] == data;
    ShiftByOctet(BigEndian(data));
    ShiftByOctet(1);
    ShiftZero(8);
    XorSplit(BigEndian(data), 0, 0, b, 8);
  }

  /** The next octet's message is the last one's shifted, with the octet added. */
  lemma DividendSnoc(data: Octets, b: Byte, init: Word)
    ensures Dividend(data + [b], init) == Xor(Shift(Dividend(data, init), 8), Shift(b, 32))
  {
    MessageSnoc(data, b);
    ShiftedSum(BigEndian(data), b, init, 8, 32, 8 * |data|);
  }

  lemma ShiftedSum(m: nat, b: nat, i: nat, e: nat, w: nat, n: nat)
    ensures Xor(Shift(Xor(Shift(m, e), b), w), Shift(i, n + e)) == Xor(Shift(Xor(Shift(m, w), Shift(i, n)), e), Shift(b, w))
  {
    XorShift(Shift(m, e), b, w);
    ShiftAdd(m, e, w);
    ShiftAdd(m, w, e);
    ShiftAdd(i, n, e);
    XorShift(Shift(m, w), Shift(i, n), e);
    LastTwoSwap(Shift(m, w + e), Shift(b, w), Shift(i, n + e));
  }

  lemma LastTwoSwap(a: nat, b: nat, c: nat)
    ensures Xor(Xor(a, b), c) == Xor(Xor(a, c), b)
  {
    XorAssoc(a, b, c);
    XorComm(b, c);
    XorAssoc(a, c, b);
  }

  /** An octet enters as b x^24, and eight turns later is b x^32. */
  lemma OctetIsTimesX8(reg: Word, b: Byte, poly: Word)
    ensures Divides(Generator(poly), Xor(Xor(Shift(reg, 8), Shift(b, 32)), Steps(Enter(reg, b), poly, 8)))
  {
    ShiftWord(b);
    ShiftAdd(b, 24, 8);
    XorShift(reg, Shift(b, 24), 8);
    StepsAreTimesPowers(Enter(reg, b), poly, 8);
  }

  /** If reg stands for the dividend so far, the shifted two stand for each other with an octet added. */
  lemma CongruentWithOctet(g: nat, dividend: nat, reg: nat, tail: nat)
    requires Divides(g, Xor(dividend, reg))
    ensures Divides(g, Xor(Xor(Shift(dividend, 8), tail), Xor(Shift(reg, 8), tail)))
  {
    DividesShift(g, Xor(dividend, reg), 8);
    XorShift(dividend, reg, 8);
    XorSwap(Shift(dividend, 8), tail, Shift(reg, 8), tail);
    XorSelf(tail);
  }

  /** The bit-serial loop is division with remainder. */
  lemma {:induction false} CrcIsRemainder(data: Octets, poly: Word, init: Word)
    ensures IsRemainder(CrcOf(data, poly, init), Dividend(data, init), Generator(poly))
  {
    var g := Generator(poly);
    GeneratorDegree(poly);
    WordBits(CrcOf(data, poly, init));
    if data == [] {
      ShiftZero(32);
      XorSelf(init);
      DividesZero(g);
    } else {
      var rest, b := data[..|data| - 1], data[|data| - 1];
      assert data == rest + [b];
      var reg := CrcOf(rest, poly, init);
      CrcIsRemainder(rest, poly, init);
      DividendSnoc(rest, b, init);
      CongruentWithOctet(g, Dividend(rest, init), reg, Shift(b, 32));
      OctetIsTimesX8(reg, b, poly);
      CongruentTrans(g, Dividend(data, init), Xor(Shift(reg, 8), Shift(b, 32)), CrcOf(data, poly, init));
    }
  }

  /** Two messages of one length: the initial value cancels. */
  lemma PairDifference(a: Octets, b: Octets, poly: Word, init: Word)
    requires |a| == |b|
    ensures Divides(Generator(poly),
                    Xor(Shift(Xor(BigEndian(a), BigEndian(b)), 32), Xor(CrcOf(a, poly, init), CrcOf(b, poly, init))))
  {
    var g := Generator(poly);
    var ma, mb, i := Shift(BigEndian(a), 32), Shift(BigEndian(b), 32), Shift(init, 8 * |a|);
    var ca, cb := CrcOf(a, poly, init), CrcOf(b, poly, init);
    CrcIsRemainder(a, poly, init);
    CrcIsRemainder(b, poly, init);
    DividesXor(g, Xor(Xor(ma, i), ca), Xor(Xor(mb, i), cb));
    XorSwap(Xor(ma, i), ca, Xor(mb, i), cb);
    XorSwap(ma, i, mb, i);
    XorSelf(i);
    XorShift(BigEndian(a), BigEndian(b), 32);
  }
}
