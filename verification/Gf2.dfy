/**
 Polynomials over GF(2), held as the solver holds them: bit k of a natural
 number is the coefficient of x^k. Addition is exclusive-or, multiplication by
 x^k is a left shift, and the degree is the bit length less one.
 */
module Gf2 {

  function Xor(a: nat, b: nat): nat
    decreases a + b
  {
    if a == 0 then b
    else if b == 0 then a
    else 2 * Xor(a / 2, b / 2) + if a % 2 == b % 2 then 0 else 1
  }

  /** a << k */
  function Shift(a: nat, k: nat): nat {
    if k == 0 then a else 2 * Shift(a, k - 1)
  }

  /** int.bit_length: one more than the degree, and zero for the zero polynomial. */
  function BitLength(a: nat): nat {
    if a == 0 then 0 else 1 + BitLength(a / 2)
  }

  /** The product without carries. */
  function Mul(a: nat, b: nat): nat {
    if a == 0 then 0
    else Xor(if a % 2 == 1 then b else 0, 2 * Mul(a / 2, b))
  }

  ghost predicate Divides(p: nat, a: nat) {
    exists q: nat :: Mul(q, p) == a
  }

  /** r is what is left of a after dividing by b. */
  ghost predicate IsRemainder(r: nat, a: nat, b: nat) {
    BitLength(r) < BitLength(b) && Divides(b, Xor(a, r))
  }

  // ---- exclusive-or is a commutative group in which everything is its own inverse

  lemma XorUnfold(a: nat, b: nat)
    ensures Xor(a, b) == 2 * Xor(a / 2, b / 2) + if a % 2 == b % 2 then 0 else 1
    ensures Xor(a, b) / 2 == Xor(a / 2, b / 2)
    ensures Xor(a, b) % 2 == if a % 2 == b % 2 then 0 else 1
  {
  }

  lemma {:induction false} XorComm(a: nat, b: nat)
    ensures Xor(a, b) == Xor(b, a)
    decreases a + b
  {
    if a != 0 && b != 0 {
      XorComm(a / 2, b / 2);
    }
  }

  lemma {:induction false} XorAssoc(a: nat, b: nat, c: nat)
    ensures Xor(Xor(a, b), c) == Xor(a, Xor(b, c))
    decreases a + b + c
  {
    if a != 0 && b != 0 && c != 0 {
      XorAssoc(a / 2, b / 2, c / 2);
      XorUnfold(a, b);
      XorUnfold(b, c);
      XorUnfold(Xor(a, b), c);
      XorUnfold(a, Xor(b, c));
    }
  }

  lemma {:induction false} XorSelf(a: nat)
    ensures Xor(a, a) == 0
  {
    if a != 0 {
      XorSelf(a / 2);
    }
  }

  lemma XorCancel(a: nat, b: nat)
    ensures Xor(a, Xor(a, b)) == b
  {
    XorAssoc(a, a, b);
    XorSelf(a);
  }

  /** Two pairs can be added in either grouping. */
  lemma XorSwap(a: nat, b: nat, c: nat, d: nat)
    ensures Xor(Xor(a, b), Xor(c, d)) == Xor(Xor(a, c), Xor(b, d))
  {
    XorAssoc(a, b, Xor(c, d));
    XorAssoc(b, c, d);
    XorComm(b, c);
    XorAssoc(c, b, d);
    XorAssoc(a, c, Xor(b, d));
  }

  lemma XorDouble(a: nat, b: nat)
    ensures Xor(2 * a, 2 * b) == 2 * Xor(a, b)
  {
    XorUnfold(2 * a, 2 * b);
  }

  lemma {:induction false} XorShift(a: nat, b: nat, k: nat)
    ensures Shift(Xor(a, b), k) == Xor(Shift(a, k), Shift(b, k))
  {
    if k > 0 {
      XorShift(a, b, k - 1);
      XorDouble(Shift(a, k - 1), Shift(b, k - 1));
    }
  }

  lemma {:induction false} ShiftAdd(a: nat, j: nat, k: nat)
    ensures Shift(a, j + k) == Shift(Shift(a, j), k)
  {
    if k > 0 {
      ShiftAdd(a, j, k - 1);
    }
  }

  lemma {:induction false} ShiftZero(k: nat)
    ensures Shift(0, k) == 0
  {
    if k > 0 {
      ShiftZero(k - 1);
    }
  }

  // ---- degrees

  lemma {:induction false} BitLengthShift(a: nat, k: nat)
    requires a != 0
    ensures Shift(a, k) != 0 && BitLength(Shift(a, k)) == BitLength(a) + k
  {
    if k > 0 {
      BitLengthShift(a, k - 1);
    }
  }

  /** Leading terms of equal degree cancel; otherwise the larger survives. */
  lemma {:induction false} BitLengthXor(a: nat, b: nat)
    ensures BitLength(a) < BitLength(b) ==> BitLength(Xor(a, b)) == BitLength(b)
    ensures BitLength(b) < BitLength(a) ==> BitLength(Xor(a, b)) == BitLength(a)
    ensures BitLength(a) == BitLength(b) != 0 ==> BitLength(Xor(a, b)) < BitLength(a)
    ensures BitLength(a) == BitLength(b) == 0 ==> Xor(a, b) == 0
    decreases a + b
  {
    if a != 0 && b != 0 {
      BitLengthXor(a / 2, b / 2);
      var h := Xor(a / 2, b / 2);
      XorUnfold(a, b);
      assert Xor(a, b) / 2 == h;
    }
  }

  lemma {:induction false} BitLengthMul(a: nat, b: nat)
    requires a != 0 && b != 0
    ensures Mul(a, b) != 0 && BitLength(Mul(a, b)) == BitLength(a) + BitLength(b) - 1
  {
    if a == 1 {
      assert Mul(1, b) == Xor(b, 2 * Mul(0, b)) == b;
    } else {
      BitLengthMul(a / 2, b);
      var low := if a % 2 == 1 then b else 0;
      var high := 2 * Mul(a / 2, b);
      assert BitLength(high) == BitLength(a) + BitLength(b) - 1;
      BitLengthXor(low, high);
    }
  }

  /** A value fits in n bits exactly when its bit length is at most n. */
  lemma {:induction false} BitLengthBound(a: nat, n: nat)
    ensures BitLength(a) <= n <==> a < Shift(1, n)
    decreases a + n
  {
    if n == 0 || a == 0 {
      if n > 0 {
        BitLengthBound(a, n - 1);
      }
    } else {
      BitLengthBound(a / 2, n - 1);
    }
  }

  /** Eight bits stay eight bits. */
  lemma XorOctets(a: nat, b: nat)
    requires a < 256 && b < 256
    ensures Xor(a, b) < 256
  {
    assert Shift(1, 2) == 4 && Shift(1, 4) == 16;
    ShiftAdd(1, 4, 4);
    ShiftAdd(16, 2, 2);
    assert Shift(16, 2) == 64 && Shift(64, 2) == 256;
    BitLengthBound(a, 8);
    BitLengthBound(b, 8);
    BitLengthXor(a, b);
    BitLengthBound(Xor(a, b), 8);
  }

  // ---- multiplication

  lemma {:induction false} MulDoubleRight(a: nat, b: nat)
    ensures Mul(a, 2 * b) == 2 * Mul(a, b)
  {
    if a != 0 {
      MulDoubleRight(a / 2, b);
      XorDouble(if a % 2 == 1 then b else 0, 2 * Mul(a / 2, b));
    }
  }

  lemma MulDoubleLeft(a: nat, b: nat)
    ensures Mul(2 * a, b) == 2 * Mul(a, b)
  {
  }

  lemma {:induction false} MulXorRight(a: nat, b: nat, c: nat)
    ensures Mul(a, Xor(b, c)) == Xor(Mul(a, b), Mul(a, c))
  {
    if a != 0 {
      MulXorRight(a / 2, b, c);
      var hb, hc := Mul(a / 2, b), Mul(a / 2, c);
      XorDouble(hb, hc);
      if a % 2 == 1 {
        XorSwap(b, c, 2 * hb, 2 * hc);
      }
    }
  }

  lemma {:induction false} MulXorLeft(a: nat, b: nat, c: nat)
    ensures Mul(Xor(a, b), c) == Xor(Mul(a, c), Mul(b, c))
    decreases a + b
  {
    if a != 0 && b != 0 {
      MulXorLeft(a / 2, b / 2, c);
      XorUnfold(a, b);
      var la, lb := if a % 2 == 1 then c else 0, if b % 2 == 1 then c else 0;
      var ha, hb := Mul(a / 2, c), Mul(b / 2, c);
      XorDouble(ha, hb);
      XorSwap(la, 2 * ha, lb, 2 * hb);
      XorSelf(c);
      var x := Xor(a, b);
      assert x / 2 == Xor(a / 2, b / 2);
      assert Xor(la, lb) == if x % 2 == 1 then c else 0;
      if x == 0 {
        XorSelf(2 * ha);
      }
    }
  }

  lemma {:induction false} MulAssoc(a: nat, b: nat, c: nat)
    ensures Mul(Mul(a, b), c) == Mul(a, Mul(b, c))
  {
    if a != 0 {
      MulAssoc(a / 2, b, c);
      var low := if a % 2 == 1 then b else 0;
      MulXorLeft(low, 2 * Mul(a / 2, b), c);
      MulDoubleLeft(Mul(a / 2, b), c);
    }
  }

  lemma {:induction false} MulShiftLeft(a: nat, b: nat, k: nat)
    ensures Mul(Shift(a, k), b) == Shift(Mul(a, b), k)
  {
    if k > 0 {
      MulShiftLeft(a, b, k - 1);
      MulDoubleLeft(Shift(a, k - 1), b);
    }
  }

  lemma {:induction false} MulZeroRight(a: nat)
    ensures Mul(a, 0) == 0
  {
    if a != 0 {
      MulZeroRight(a / 2);
    }
  }

  lemma MulOne(b: nat)
    ensures Mul(1, b) == b
  {
    assert Mul(0, b) == 0;
  }

  // ---- divisibility

  lemma DividesSelf(p: nat)
    ensures Divides(p, p)
  {
    MulOne(p);
  }

  lemma DividesZero(p: nat)
    ensures Divides(p, 0)
  {
    assert Mul(0, p) == 0;
  }

  lemma DividesXor(p: nat, a: nat, b: nat)
    requires Divides(p, a) && Divides(p, b)
    ensures Divides(p, Xor(a, b))
  {
    var qa: nat :| Mul(qa, p) == a;
    var qb: nat :| Mul(qb, p) == b;
    MulXorLeft(qa, qb, p);
  }

  lemma DividesShift(p: nat, a: nat, k: nat)
    requires Divides(p, a)
    ensures Divides(p, Shift(a, k))
  {
    var q: nat :| Mul(q, p) == a;
    MulShiftLeft(q, p, k);
  }

  lemma DividesTrans(d: nat, p: nat, a: nat)
    requires Divides(d, p) && Divides(p, a)
    ensures Divides(d, a)
  {
    var e: nat :| Mul(e, d) == p;
    var q: nat :| Mul(q, p) == a;
    MulAssoc(q, e, d);
  }

  /** Nothing but zero of smaller degree is a multiple. */
  lemma SmallMultipleIsZero(p: nat, a: nat)
    requires Divides(p, a) && BitLength(a) < BitLength(p)
    ensures a == 0
  {
    var q: nat :| Mul(q, p) == a;
    if q != 0 {
      BitLengthMul(q, p);
    }
  }

  /** Over GF(2) the only multiple of the same degree is the polynomial itself. */
  lemma SameDegreeMultipleIsSelf(p: nat, a: nat)
    requires Divides(p, a) && a != 0 && BitLength(a) == BitLength(p)
    ensures a == p
  {
    var q: nat :| Mul(q, p) == a;
    if p != 0 {
      BitLengthMul(q, p);
      MulOne(p);
    }
  }

  /** Division with remainder has one answer. */
  lemma RemainderUnique(r: nat, s: nat, a: nat, b: nat)
    requires IsRemainder(r, a, b) && IsRemainder(s, a, b)
    ensures r == s
  {
    DividesXor(b, Xor(a, r), Xor(a, s));
    XorSwap(a, r, a, s);
    XorSelf(a);
    BitLengthXor(r, s);
    SmallMultipleIsZero(b, Xor(r, s));
    XorCancel(r, s);
  }

  /** Common divisors of a and b are those of b and the remainder of a by b. */
  lemma RemainderKeepsDivisors(d: nat, r: nat, a: nat, b: nat)
    requires IsRemainder(r, a, b) && Divides(d, b)
    ensures Divides(d, a) <==> Divides(d, r)
  {
    var diff := Xor(a, r);
    DividesTrans(d, b, diff);
    XorCancel(a, r);
    XorComm(a, r);
    XorCancel(r, a);
    if Divides(d, a) {
      DividesXor(d, a, diff);
    }
    if Divides(d, r) {
      DividesXor(d, r, diff);
    }
  }

  // ---- coefficients one at a time

  /** The coefficient of x^k. */
  function Bit(a: nat, k: nat): (b: nat)
    ensures b < 2
  {
    if k == 0 then a % 2 else Bit(a / 2, k - 1)
  }

  lemma {:induction false} BitXor(a: nat, b: nat, k: nat)
    ensures Bit(Xor(a, b), k) == (Bit(a, k) + Bit(b, k)) % 2
  {
    XorUnfold(a, b);
    if k > 0 {
      BitXor(a / 2, b / 2, k - 1);
    }
  }

  /** A bit above a number that is below it. */
  lemma {:induction false} BitAbove(top: nat, low: nat, n: nat, k: nat)
    requires top < 2 && low < Shift(1, n) && k <= n
    ensures Bit(Shift(top, n) + low, k) == if k == n then top else Bit(low, k)
  {
    if n > 0 {
      var high := Shift(top, n - 1);
      assert (2 * high + low) / 2 == high + low / 2 && (2 * high + low) % 2 == low % 2;
      if k > 0 {
        BitAbove(top, low / 2, n - 1, k - 1);
      }
    }
  }
}
