/**
 The search for a packet CRC: over arrangements of the octets, never over
 polynomials. For each arrangement the greatest common divisor of the pair
 terms is taken, and a result of degree 32 is reported.
 */
module CrcSolve {
  import opened Sequences
  import opened Bytes
  import opened Gf2
  import opened Crc

  datatype Order = Wire | PairSwapped | Reversed | WordsReversed
  datatype Stored = Big | Little | HalvesSwapped | PairsSwapped

  /** Where the region starts, how its octets are taken, and how the CRC is kept. */
  datatype Arrangement = Arrangement(start: nat, order: Order, refin: bool, refout: bool, stored: Stored)

  /** What one stream contributes: length, message and CRC as polynomials. */
  datatype Sample = Sample(len: nat, message: nat, crc: nat)

  datatype Hit = Hit(at: Arrangement, pairs: nat, g: nat)

  // ---- reading a stream under an arrangement

  function SwapPairs(b: Octets): (r: Octets)
    ensures |r| == |b|
    ensures forall i :: 0 <= i < |b| ==> r[i] == b[Partner(i, |b|)]
  {
    seq(|b|, i requires 0 <= i < |b| => b[Partner(i, |b|)])
  }

  /** i ^ 1, except that an odd length leaves its last octet where it is. */
  function Partner(i: nat, n: nat): (j: nat)
    requires i < n
    ensures j < n
  {
    if i % 2 == 1 then i - 1 else if i + 1 < n then i + 1 else i
  }

  function ReverseWords(b: Octets): (r: Octets)
    ensures |r| == |b|
  {
    if |b| <= 4 then Reverse(b) else Reverse(b[..4]) + ReverseWords(b[4..])
  }

  function Reorder(order: Order, b: Octets): (r: Octets)
    ensures |r| == |b|
  {
    match order
    case Wire => b
    case PairSwapped => SwapPairs(b)
    case Reversed => Reverse(b)
    case WordsReversed => ReverseWords(b)
  }

  /** Every order is a rearrangement that undoes itself, so none of them loses an octet. */
  lemma {:induction false} OrdersUndoThemselves(order: Order, b: Octets)
    ensures Reorder(order, Reorder(order, b)) == b
    decreases |b|
  {
    if order == WordsReversed && |b| > 4 {
      OrdersUndoThemselves(order, b[4..]);
      var r := ReverseWords(b);
      assert r[..4] == Reverse(b[..4]) && r[4..] == ReverseWords(b[4..]);
      assert Reverse(r[..4]) == b[..4];
      assert b == b[..4] + b[4..];
    } else {
      assert forall i :: 0 <= i < |b| ==> Partner(Partner(i, |b|), |b|) == i;
    }
  }

  /** The low n bits in the opposite order. */
  function ReverseBits(x: nat, n: nat): (r: nat)
    ensures r < Shift(1, n)
  {
    if n == 0 then 0
    else
      ShiftIsScale(x % 2, n - 1);
      Shift(x % 2, n - 1) + ReverseBits(x / 2, n - 1)
  }

  lemma ShiftIsScale(bit: nat, n: nat)
    requires bit < 2
    ensures Shift(bit, n) == if bit == 1 then Shift(1, n) else 0
  {
    ShiftZero(n);
  }

  function ReflectOctet(b: Byte): Byte {
    ShiftWord(1);
    ReverseBits(b, 8)
  }

  function Reflect(b: Octets): (r: Octets)
    ensures |r| == |b|
  {
    seq(|b|, i requires 0 <= i < |b| => ReflectOctet(b[i]))
  }

  lemma {:induction false} ReversedBit(x: nat, n: nat, k: nat)
    requires k < n
    ensures Bit(ReverseBits(x, n), k) == Bit(x, n - 1 - k)
  {
    ShiftIsScale(x % 2, n - 1);
    BitAbove(x % 2, ReverseBits(x / 2, n - 1), n - 1, k);
    if k < n - 1 {
      ReversedBit(x / 2, n - 1, k);
    }
  }

  /** Which octet goes where, order by order. */
  lemma OrderPlaces(b: Octets, i: nat)
    requires i < |b|
    ensures Reorder(Wire, b)[i] == b[i]
    ensures Reorder(PairSwapped, b)[i] == b[if i % 2 == 1 then i - 1 else if i == |b| - 1 then i else i + 1]
    ensures Reorder(Reversed, b)[i] == b[|b| - 1 - i]
    ensures var word := i - i % 4;
            Reorder(WordsReversed, b)[i] == b[if |b| < word + 4 then |b| - 1 - i + word else word + 3 - i % 4]
  {
    WordPlaces(b, i);
  }

  lemma {:induction false} WordPlaces(b: Octets, i: nat)
    requires i < |b|
    ensures var word := i - i % 4;
            ReverseWords(b)[i] == b[if |b| < word + 4 then |b| - 1 - i + word else word + 3 - i % 4]
    decreases |b|
  {
    if |b| > 4 && i >= 4 {
      assert (i - 4) % 4 == i % 4;
      WordPlaces(b[4..], i - 4);
    }
  }

  /** The octets the CRC is taken over, in the order it takes them. */
  function Region(s: Octets, at: Arrangement): (r: Octets)
    requires at.start + 4 <= |s|
    ensures |r| == |s| - 4 - at.start
  {
    InOrder(at, s[at.start..|s| - 4])
  }

  function InOrder(at: Arrangement, octets: Octets): (r: Octets)
    ensures |r| == |octets|
  {
    var m := Reorder(at.order, octets);
    if at.refin then Reflect(m) else m
  }

  function ReadStored(stored: Stored, c: Octets): nat
    requires |c| == 4
  {
    match stored
    case Big => BigEndian(c)
    case Little => BigEndian(Reverse(c))
    case HalvesSwapped => BigEndian(c[2..] + c[..2])
    case PairsSwapped => BigEndian([c[1], c[0], c[3], c[2]])
  }

  /** What each way of keeping a CRC makes of its four octets. */
  lemma StoredOctets(c: Octets)
    requires |c| == 4
    ensures ReadStored(Big, c) == 0x100_0000 * c[0] as int + 0x1_0000 * c[1] as int + 0x100 * c[2] as int + c[3] as int
    ensures ReadStored(Little, c) == c[0] as int + 0x100 * c[1] as int + 0x1_0000 * c[2] as int + 0x100_0000 * c[3] as int
    ensures ReadStored(HalvesSwapped, c) == 0x100_0000 * c[2] as int + 0x1_0000 * c[3] as int + 0x100 * c[0] as int + c[1] as int
    ensures ReadStored(PairsSwapped, c) == 0x100_0000 * c[1] as int + 0x1_0000 * c[0] as int + 0x100 * c[3] as int + c[2] as int
  {
    FourOctets(c);
    FourOctets(Reverse(c));
    FourOctets(c[2..] + c[..2]);
    FourOctets([c[1], c[0], c[3], c[2]]);
  }

  lemma FourOctets(b: Octets)
    requires |b| == 4
    ensures BigEndian(b) == 0x100_0000 * b[0] as int + 0x1_0000 * b[1] as int + 0x100 * b[2] as int + b[3] as int
  {
    Word32IsBigEndian(b);
  }

  function CarriedCrc(s: Octets, at: Arrangement): nat
    requires 4 <= |s|
  {
    var c := ReadStored(at.stored, s[|s| - 4..]);
    if at.refout then ReverseBits(c, 32) else c
  }

  function SampleOf(s: Octets, at: Arrangement): Sample
    requires at.start + 4 <= |s|
  {
    Sample(|Region(s, at)|, BigEndian(Region(s, at)), CarriedCrc(s, at))
  }

  /** What a sample holds, bit by bit: the region's octets as they come or reflected, and the CRC likewise. */
  lemma SampleBits(s: Octets, at: Arrangement, i: nat, k: nat)
    requires at.start + 4 <= |s|
    ensures SampleOf(s, at).len == |s| - 4 - at.start && SampleOf(s, at).message == BigEndian(Region(s, at))
    ensures i < |s| - 4 - at.start && k < 8 ==>
              Bit(Region(s, at)[i], k) == Bit(Reorder(at.order, s[at.start..|s| - 4])[i], if at.refin then 7 - k else k)
    ensures k < 32 ==>
              Bit(SampleOf(s, at).crc, k) == Bit(ReadStored(at.stored, s[|s| - 4..]), if at.refout then 31 - k else k)
  {
    if i < |s| - 4 - at.start && k < 8 {
      ReversedBit(Reorder(at.order, s[at.start..|s| - 4])[i], 8, k);
    }
    if k < 32 {
      ReversedBit(ReadStored(at.stored, s[|s| - 4..]), 32, k);
    }
  }

  ghost predicate Covers(streams: seq<Octets>, at: Arrangement) {
    forall i :: 0 <= i < |streams| ==> at.start + 4 <= |streams[i]|
  }

  function Samples(streams: seq<Octets>, at: Arrangement): (r: seq<Sample>)
    requires Covers(streams, at)
  {
    seq(|streams|, i requires 0 <= i < |streams| => SampleOf(streams[i], at))
  }

  // ---- the pair terms, in the order itertools.combinations gives them

  function PairTerm(a: Sample, b: Sample): nat {
    Xor(Xor(Shift(Xor(a.message, b.message), 32), a.crc), b.crc)
  }

  predicate Usable(a: Sample, b: Sample) {
    a.len == b.len && a.message != b.message
  }

  function TermsWith(a: Sample, rest: seq<Sample>): seq<nat> {
    if rest == [] then []
    else TermWith(a, rest[0]) + TermsWith(a, rest[1..])
  }

  function Terms(regs: seq<Sample>): seq<nat> {
    if regs == [] then [] else TermsWith(regs[0], regs[1..]) + Terms(regs[1..])
  }

  ghost predicate DividesAll(d: nat, terms: seq<nat>) {
    forall i :: 0 <= i < |terms| ==> Divides(d, terms[i])
  }

  /** g's divisors are exactly the common divisors of the terms. */
  ghost predicate IsGcd(g: nat, terms: seq<nat>) {
    forall d: nat :: Divides(d, g) <==> DividesAll(d, terms)
  }

  lemma GcdUnique(g: nat, h: nat, terms: seq<nat>)
    requires IsGcd(g, terms) && IsGcd(h, terms)
    ensures g == h
  {
    DividesSelf(g);
    DividesSelf(h);
    MutualDivisors(g, h);
  }

  /** The accumulated value is the greatest common divisor of the terms. */
  lemma GcdOfIsGcd(terms: seq<nat>)
    ensures IsGcd(GcdOf(terms), terms)
  {
    forall d: nat
      ensures Divides(d, GcdOf(terms)) <==> DividesAll(d, terms)
    {
      GcdOfDivisors(terms, d);
    }
  }

  lemma MutualDivisors(g: nat, h: nat)
    requires Divides(g, h) && Divides(h, g)
    ensures g == h
  {
    if g != 0 && h != 0 {
      var p: nat :| Mul(p, g) == h;
      var q: nat :| Mul(q, h) == g;
      BitLengthMul(p, g);
      BitLengthMul(q, h);
      SameDegreeMultipleIsSelf(g, h);
    } else {
      var p: nat :| Mul(p, g) == h;
      var q: nat :| Mul(q, h) == g;
      MulZeroRight(p);
      MulZeroRight(q);
    }
  }

  // ---- division, Euclid's algorithm, and the accumulation

  function Mod(a: nat, b: nat): (r: nat)
    requires b != 0
    decreases BitLength(a)
  {
    if a == 0 || BitLength(a) < BitLength(b) then a
    else
      LeadCancels(a, b);
      Mod(Xor(a, Shift(b, BitLength(a) - BitLength(b))), b)
  }

  lemma LeadCancels(a: nat, b: nat)
    requires b != 0 && a != 0 && BitLength(a) >= BitLength(b)
    ensures BitLength(Xor(a, Shift(b, BitLength(a) - BitLength(b)))) < BitLength(a)
  {
    BitLengthShift(b, BitLength(a) - BitLength(b));
    BitLengthXor(a, Shift(b, BitLength(a) - BitLength(b)));
  }

  lemma {:induction false} ModIsRemainder(a: nat, b: nat)
    requires b != 0
    ensures IsRemainder(Mod(a, b), a, b)
    decreases BitLength(a)
  {
    if a == 0 || BitLength(a) < BitLength(b) {
      XorSelf(a);
      DividesZero(b);
    } else {
      var copy := Shift(b, BitLength(a) - BitLength(b));
      LeadCancels(a, b);
      ModIsRemainder(Xor(a, copy), b);
      DividesSelf(b);
      DividesShift(b, b, BitLength(a) - BitLength(b));
      XorCancel(a, copy);
      CongruentTrans(b, a, Xor(a, copy), Mod(a, b));
    }
  }

  /** Division by subtracting shifted copies; it needs a divisor to end. */
  method PMod(a: nat, b: nat) returns (r: nat)
    requires b != 0
    ensures r == Mod(a, b) && IsRemainder(r, a, b)
  {
    r := a;
    while r != 0 && BitLength(r) >= BitLength(b)
      invariant Mod(r, b) == Mod(a, b)
      decreases BitLength(r)
    {
      ModTurn(r, b);
      r := Xor(r, Shift(b, BitLength(r) - BitLength(b)));
    }
    ModIsRemainder(a, b);
  }

  lemma ModTurn(r: nat, b: nat)
    requires b != 0 && r != 0 && BitLength(r) >= BitLength(b)
    ensures var next := Xor(r, Shift(b, BitLength(r) - BitLength(b)));
            BitLength(next) < BitLength(r) && Mod(next, b) == Mod(r, b)
  {
    LeadCancels(r, b);
  }

  function Gcd(a: nat, b: nat): nat
    decreases BitLength(b)
  {
    if b == 0 then a
    else
      ModIsRemainder(a, b);
      Gcd(b, Mod(a, b))
  }

  /** What divides the result is exactly what divides both arguments. */
  lemma {:induction false} GcdDivisors(a: nat, b: nat, d: nat)
    ensures Divides(d, Gcd(a, b)) <==> Divides(d, a) && Divides(d, b)
    decreases BitLength(b)
  {
    if b == 0 {
      DividesZero(d);
    } else {
      ModIsRemainder(a, b);
      GcdDivisors(b, Mod(a, b), d);
      if Divides(d, b) {
        RemainderKeepsDivisors(d, Mod(a, b), a, b);
      }
    }
  }

  method PGcd(a: nat, b: nat) returns (g: nat)
    ensures g == Gcd(a, b)
  {
    var next := b;
    g := a;
    while next != 0
      invariant Gcd(g, next) == Gcd(a, b)
      decreases BitLength(next)
    {
      var r := PMod(g, next);
      g, next := next, r;
    }
  }

  /** The value of g once these terms have been folded into it. */
  function GcdOf(terms: seq<nat>): nat {
    if terms == [] then 0 else Gcd(GcdOf(terms[..|terms| - 1]), terms[|terms| - 1])
  }

  lemma {:induction false} GcdOfDivisors(terms: seq<nat>, d: nat)
    ensures Divides(d, GcdOf(terms)) <==> DividesAll(d, terms)
  {
    if terms == [] {
      DividesZero(d);
    } else {
      var before, last := terms[..|terms| - 1], terms[|terms| - 1];
      GcdOfDivisors(before, d);
      GcdDivisors(GcdOf(before), last, d);
      if DividesAll(d, terms) {
        assert forall i :: 0 <= i < |before| ==> before[i] == terms[i];
      }
    }
  }

  lemma GcdOfSnoc(terms: seq<nat>, t: nat)
    ensures GcdOf(terms + [t]) == Gcd(GcdOf(terms), t)
  {
    assert (terms + [t])[..|terms|] == terms;
  }

  lemma Associative<T>(a: seq<T>, b: seq<T>, c: seq<T>)
    ensures a + (b + c) == (a + b) + c
  {
  }

  /** What one later sample adds. */
  function TermWith(a: Sample, b: Sample): seq<nat> {
    if Usable(a, b) then [PairTerm(a, b)] else []
  }

  lemma TermsWithNext(a: Sample, rest: seq<Sample>, j: nat)
    requires j < |rest|
    ensures TermsWith(a, rest[j..]) == TermWith(a, rest[j]) + TermsWith(a, rest[j + 1..])
  {
    assert rest[j..][0] == rest[j] && rest[j..][1..] == rest[j + 1..];
  }

  lemma TermsNext(regs: seq<Sample>, i: nat)
    requires i < |regs|
    ensures Terms(regs[i..]) == TermsWith(regs[i], regs[i + 1..]) + Terms(regs[i + 1..])
  {
    assert regs[i..][0] == regs[i] && regs[i..][1..] == regs[i + 1..];
  }

  /** One sample against every later one. */
  method AccumulateWith(a: Sample, rest: seq<Sample>, g0: nat, ghost before: seq<nat>) returns (g: nat, pairs: nat)
    requires g0 == GcdOf(before)
    ensures pairs == |TermsWith(a, rest)|
    ensures g == GcdOf(before + TermsWith(a, rest))
  {
    g, pairs := g0, 0;
    ghost var done: seq<nat> := [];
    assert before + done == before && rest[0..] == rest;
    for j := 0 to |rest|
      invariant done + TermsWith(a, rest[j..]) == TermsWith(a, rest)
      invariant pairs == |done| && g == GcdOf(before + done)
    {
      TermsWithNext(a, rest, j);
      Associative(done, TermWith(a, rest[j]), TermsWith(a, rest[j + 1..]));
      Associative(before, done, TermWith(a, rest[j]));
      if Usable(a, rest[j]) {
        var term := PairTerm(a, rest[j]);
        g := PGcd(g, term);
        pairs := pairs + 1;
        GcdOfSnoc(before + done, term);
      } else {
        assert done + [] == done;
      }
      done := done + TermWith(a, rest[j]);
    }
    assert done + [] == done;
  }

  /** Every usable pair, in the order of the combinations. */
  method Accumulate(regs: seq<Sample>) returns (g: nat, pairs: nat)
    ensures pairs == |Terms(regs)|
    ensures g == GcdOf(Terms(regs))
  {
    g, pairs := 0, 0;
    ghost var done: seq<nat> := [];
    assert regs[0..] == regs;
    for i := 0 to |regs|
      invariant done + Terms(regs[i..]) == Terms(regs)
      invariant pairs == |done| && g == GcdOf(done)
    {
      TermsNext(regs, i);
      ghost var found := TermsWith(regs[i], regs[i + 1..]);
      Associative(done, found, Terms(regs[i + 1..]));
      var more;
      g, more := AccumulateWith(regs[i], regs[i + 1..], g, done);
      pairs := pairs + more;
      done := done + found;
    }
    assert done + [] == done;
  }

  // ---- the search

  function OrderAt(i: nat): Order
    requires i < 4
  {
    if i == 0 then Wire else if i == 1 then PairSwapped else if i == 2 then Reversed else WordsReversed
  }

  function StoredAt(i: nat): Stored
    requires i < 4
  {
    if i == 0 then Big else if i == 1 then Little else if i == 2 then HalvesSwapped else PairsSwapped
  }

  /** The arrangement the nested loop counters name; i counts the reflections, refout fastest. */
  function Nested(start: nat, o: nat, i: nat, c: nat): Arrangement
    requires o < 4 && i < 4 && c < 4
  {
    Arrangement(start, OrderAt(o), i >= 2, i == 1 || i == 3, StoredAt(c))
  }

  /** How many turns of the innermost loop come before these counters. */
  function Turn(start: nat, o: nat, i: nat, c: nat): nat {
    4 * (4 * (4 * start + o) + i) + c
  }

  /** The arrangement of the n-th turn. */
  function ArrangementAt(n: nat): Arrangement {
    Nested(n / 4 / 4 / 4, n / 4 / 4 % 4, n / 4 % 4, n % 4)
  }

  function TurnOf(at: Arrangement): nat {
    Turn(at.start,
         match at.order { case Wire => 0 case PairSwapped => 1 case Reversed => 2 case WordsReversed => 3 },
         (if at.refin then 2 else 0) + (if at.refout then 1 else 0),
         match at.stored { case Big => 0 case Little => 1 case HalvesSwapped => 2 case PairsSwapped => 3 })
  }

  /** Every arrangement has its turn, and only one. */
  lemma ArrangementOfTurn(at: Arrangement)
    ensures ArrangementAt(TurnOf(at)) == at
  {
    Digits(at.start,
           match at.order { case Wire => 0 case PairSwapped => 1 case Reversed => 2 case WordsReversed => 3 },
           (if at.refin then 2 else 0) + (if at.refout then 1 else 0),
           match at.stored { case Big => 0 case Little => 1 case HalvesSwapped => 2 case PairsSwapped => 3 });
  }

  lemma TurnOfArrangement(n: nat)
    ensures TurnOf(ArrangementAt(n)) == n
  {
    QuarterParts(n);
    QuarterParts(n / 4);
    QuarterParts(n / 4 / 4);
  }

  lemma QuarterParts(n: nat)
    ensures n == 4 * (n / 4) + n % 4
  {
  }

  /** What the nested loop counters say about the turn. */
  lemma Digits(start: nat, o: nat, i: nat, c: nat)
    requires o < 4 && i < 4 && c < 4
    ensures var n := Turn(start, o, i, c);
            n / 4 / 4 / 4 == start && n / 4 / 4 % 4 == o && n / 4 % 4 == i && n % 4 == c
  {
    Quarter(4 * (4 * start + o) + i, c);
    Quarter(4 * start + o, i);
    Quarter(start, o);
  }

  lemma Quarter(q: nat, r: nat)
    requires r < 4
    ensures (4 * q + r) / 4 == q && (4 * q + r) % 4 == r
  {
  }

  /** A hit says what the arrangement gives: at least two pairs, and their gcd of degree 32. */
  ghost predicate GoodHit(streams: seq<Octets>, h: Hit) {
    && Covers(streams, h.at)
    && h.pairs == |Terms(Samples(streams, h.at))| >= 2
    && IsGcd(h.g, Terms(Samples(streams, h.at)))
    && BitLength(h.g) == 33
  }

  /** What one turn reports: one hit or none. */
  ghost function Outcome(streams: seq<Octets>, at: Arrangement): seq<Hit> {
    if !Covers(streams, at) then []
    else
      var terms := Terms(Samples(streams, at));
      if |terms| >= 2 && BitLength(GcdOf(terms)) == 33 then [Hit(at, |terms|, GcdOf(terms))] else []
  }

  /** What the first n turns of a loop add to a list. */
  ghost function Collect<T>(turn: nat -> seq<T>, n: nat): seq<T> {
    if n == 0 then [] else Collect(turn, n - 1) + turn(n - 1)
  }

  lemma {:induction false} CollectMembers<T>(turn: nat -> seq<T>, n: nat, x: T)
    ensures x in Collect(turn, n) <==> exists k: nat :: k < n && x in turn(k)
  {
    if n > 0 {
      CollectMembers(turn, n - 1, x);
    }
  }

  ghost function Turns(streams: seq<Octets>): nat -> seq<Hit> {
    (n: nat) => Outcome(streams, ArrangementAt(n))
  }

  /** What the first n turns report, in the order of the loops. */
  ghost function HitsOf(streams: seq<Octets>, n: nat): seq<Hit> {
    Collect(Turns(streams), n)
  }

  /** min(len(s) for s in streams) */
  function Shortest(streams: seq<Octets>): (n: nat)
    requires streams != []
    ensures forall i :: 0 <= i < |streams| ==> n <= |streams[i]|
    ensures exists i :: 0 <= i < |streams| && n == |streams[i]|
  {
    if |streams| == 1 then |streams[0]|
    else
      var rest := Shortest(streams[1..]);
      if |streams[0]| <= rest then |streams[0]| else rest
  }

  function Starts(shortest: nat): nat {
    if shortest < 4 then 0 else shortest - 4
  }

  /** One turn of the innermost loop. */
  method TryArrangement(streams: seq<Octets>, hits: seq<Hit>, at: Arrangement) returns (more: seq<Hit>)
    requires Covers(streams, at)
    ensures more == hits + Outcome(streams, at)
  {
    var g, pairs := Accumulate(Samples(streams, at));
    more := if pairs >= 2 && BitLength(g) == 33 then hits + [Hit(at, pairs, g)] else hits;
  }

  /** The whole search. min() has no answer for no streams at all. */
  method Solve(streams: seq<Octets>) returns (hits: seq<Hit>)
    requires streams != []
    ensures hits == HitsOf(streams, 64 * Starts(Shortest(streams)))
    ensures forall h :: h in hits <==> GoodHit(streams, h) && StartsEarly(streams, h.at.start)
  {
    hits := [];
    ghost var n: nat := 0;
    for start := 0 to Starts(Shortest(streams))
      invariant n == 64 * start && hits == HitsOf(streams, n)
    {
      hits, n := TryStart(streams, hits, start, n);
    }
    forall h ensures h in hits <==> GoodHit(streams, h) && StartsEarly(streams, h.at.start) {
      HitsExactly(streams, Starts(Shortest(streams)), h);
      StartsAreEarly(streams, h.at.start);
    }
  }

  /** Every stream has an octet between the start and the CRC it ends with. */
  ghost predicate StartsEarly(streams: seq<Octets>, start: nat) {
    forall i :: 0 <= i < |streams| ==> start + 4 < |streams[i]|
  }

  lemma StartsAreEarly(streams: seq<Octets>, start: nat)
    requires streams != []
    ensures start < Starts(Shortest(streams)) <==> StartsEarly(streams, start)
  {
    var i :| 0 <= i < |streams| && Shortest(streams) == |streams[i]|;
  }

  /** The three inner loops, for one start of the region; n counts the turns of the innermost one. */
  method TryStart(streams: seq<Octets>, before: seq<Hit>, start: nat, ghost n0: nat)
    returns (hits: seq<Hit>, ghost n: nat)
    requires Covers(streams, Nested(start, 0, 0, 0))
    requires n0 == 64 * start && before == HitsOf(streams, n0)
    ensures n == 64 * (start + 1) && hits == HitsOf(streams, n)
  {
    hits, n := before, n0;
    for o := 0 to 4
      invariant n == Turn(start, o, 0, 0) && hits == HitsOf(streams, n)
    {
      for i := 0 to 4
        invariant n == Turn(start, o, i, 0) && hits == HitsOf(streams, n)
      {
        hits, n := TryStored(streams, hits, start, o, i, n);
      }
    }
  }

  /** The innermost loop, over the ways the CRC may be kept. */
  method TryStored(streams: seq<Octets>, before: seq<Hit>, start: nat, o: nat, i: nat, ghost n0: nat)
    returns (hits: seq<Hit>, ghost n: nat)
    requires Covers(streams, Nested(start, 0, 0, 0)) && o < 4 && i < 4
    requires n0 == Turn(start, o, i, 0) && before == HitsOf(streams, n0)
    ensures n == Turn(start, o, i + 1, 0) && hits == HitsOf(streams, n)
  {
    hits, n := before, n0;
    for c := 0 to 4
      invariant n == Turn(start, o, i, c) && hits == HitsOf(streams, n)
    {
      OneTurn(streams, start, o, i, c, n);
      hits := TryArrangement(streams, hits, Nested(start, o, i, c));
      n := n + 1;
    }
  }

  lemma OneTurn(streams: seq<Octets>, start: nat, o: nat, i: nat, c: nat, n: nat)
    requires o < 4 && i < 4 && c < 4 && n == Turn(start, o, i, c)
    ensures HitsOf(streams, n + 1) == HitsOf(streams, n) + Outcome(streams, Nested(start, o, i, c))
  {
    Digits(start, o, i, c);
  }

  lemma OutcomeExactly(streams: seq<Octets>, at: Arrangement, h: Hit)
    ensures h in Outcome(streams, at) <==> GoodHit(streams, h) && h.at == at
  {
    if Covers(streams, at) {
      var terms := Terms(Samples(streams, at));
      GcdOfIsGcd(terms);
      if h.at == at && IsGcd(h.g, terms) {
        GcdUnique(h.g, GcdOf(terms), terms);
      }
    }
  }

  /** The result holds every good hit whose region starts early enough, and nothing else. */
  lemma HitsExactly(streams: seq<Octets>, starts: nat, h: Hit)
    ensures h in HitsOf(streams, 64 * starts) <==> GoodHit(streams, h) && h.at.start < starts
  {
    CollectMembers(Turns(streams), 64 * starts, h);
    var n := TurnOf(h.at);
    ArrangementOfTurn(h.at);
    OutcomeExactly(streams, h.at, h);
    forall k: nat | h in Turns(streams)(k)
      ensures GoodHit(streams, h) && k == n
    {
      OutcomeExactly(streams, ArrangementAt(k), h);
      TurnOfArrangement(k);
    }
    assert h in Turns(streams)(n) <==> GoodHit(streams, h);
    assert n < 64 * starts <==> h.at.start < starts;
  }

  ghost predicate RanksRise<T>(all: seq<T>, rank: T -> nat, n: nat) {
    && (forall a :: 0 <= a < |all| ==> rank(all[a]) < n)
    && forall a, b :: 0 <= a < b < |all| ==> rank(all[a]) < rank(all[b])
  }

  lemma {:induction false} CollectInOrder<T>(turn: nat -> seq<T>, rank: T -> nat, n: nat)
    requires forall k: nat :: |turn(k)| <= 1 && forall x :: x in turn(k) ==> rank(x) == k
    ensures RanksRise(Collect(turn, n), rank, n)
  {
    if n == 0 {
      assert Collect(turn, n) == [];
    } else {
      CollectInOrder(turn, rank, n - 1);
      var before, last := Collect(turn, n - 1), turn(n - 1);
      assert last != [] ==> last[0] in last;
      assert Collect(turn, n) == before + last;
    }
  }

  /** And holds them in the order of the nested loops, each arrangement at most once. */
  lemma HitsInOrder(streams: seq<Octets>, n: nat)
    ensures var hits := HitsOf(streams, n);
            forall a, b :: 0 <= a < b < |hits| ==> TurnOf(hits[a].at) < TurnOf(hits[b].at)
  {
    var rank := (h: Hit) => TurnOf(h.at);
    forall k: nat
      ensures |Turns(streams)(k)| <= 1 && forall h :: h in Turns(streams)(k) ==> rank(h) == k
    {
      TurnOfArrangement(k);
    }
    CollectInOrder(Turns(streams), rank, n);
    var hits := HitsOf(streams, n);
    assert RanksRise(hits, rank, n);
    forall a, b | 0 <= a < b < |hits| ensures TurnOf(hits[a].at) < TurnOf(hits[b].at) {
      assert rank(hits[a]) < rank(hits[b]);
    }
  }

  /** The pairs of places a list of terms comes from, in the order of the combinations. */
  ghost predicate Lists(regs: seq<Sample>, pairs: seq<(nat, nat)>) {
    && (forall k :: 0 <= k < |pairs| ==> IsUsablePair(regs, pairs[k].0, pairs[k].1))
    && (forall i: nat, j: nat :: IsUsablePair(regs, i, j) ==> (i, j) in pairs)
    && (forall k, l :: 0 <= k < l < |pairs| ==>
          pairs[k].0 < pairs[l].0 || (pairs[k].0 == pairs[l].0 && pairs[k].1 < pairs[l].1))
  }

  /** One length and two messages. */
  ghost predicate IsUsablePair(regs: seq<Sample>, i: nat, j: nat) {
    i < j < |regs| && regs[i].len == regs[j].len && regs[i].message != regs[j].message
  }

  ghost predicate IsTermOf(regs: seq<Sample>, p: (nat, nat), t: nat) {
    p.0 < |regs| && p.1 < |regs|
    && t == Xor(Xor(Shift(Xor(regs[p.0].message, regs[p.1].message), 32), regs[p.0].crc), regs[p.1].crc)
  }

  /** The same for one sample, the first, against those from the j-th on. */
  ghost predicate ListsFirst(regs: seq<Sample>, j: nat, pairs: seq<(nat, nat)>) {
    && (forall k :: 0 <= k < |pairs| ==> pairs[k].0 == 0 && j <= pairs[k].1 && IsUsablePair(regs, 0, pairs[k].1))
    && (forall m: nat :: j <= m && IsUsablePair(regs, 0, m) ==> (0, m) in pairs)
    && (forall k, l :: 0 <= k < l < |pairs| ==> pairs[k].1 < pairs[l].1)
  }

  ghost predicate AreTermsOf(regs: seq<Sample>, pairs: seq<(nat, nat)>, terms: seq<nat>) {
    |pairs| == |terms| && forall k :: 0 <= k < |pairs| ==> IsTermOf(regs, pairs[k], terms[k])
  }

  lemma ListsFirstNext(regs: seq<Sample>, j: nat, rest: seq<(nat, nat)>)
    requires 0 < j < |regs| && ListsFirst(regs, j + 1, rest)
    ensures ListsFirst(regs, j, (if IsUsablePair(regs, 0, j) then [(0, j)] else []) + rest)
  {
    var pairs := (if IsUsablePair(regs, 0, j) then [(0, j)] else []) + rest;
    forall m: nat | j <= m && IsUsablePair(regs, 0, m) ensures (0, m) in pairs {
      if m > j {
        assert (0, m) in rest;
      }
    }
  }

  lemma {:induction false} TermsWithList(regs: seq<Sample>, j: nat) returns (pairs: seq<(nat, nat)>)
    requires 0 < j <= |regs|
    ensures ListsFirst(regs, j, pairs) && AreTermsOf(regs, pairs, TermsWith(regs[0], regs[j..]))
    decreases |regs| - j
  {
    if j == |regs| {
      pairs := [];
    } else {
      TermsWithNext(regs[0], regs[1..], j - 1);
      assert regs[1..][j - 1..] == regs[j..] && regs[1..][j..] == regs[j + 1..];
      var rest := TermsWithList(regs, j + 1);
      ListsFirstNext(regs, j, rest);
      if Usable(regs[0], regs[j]) {
        pairs := [(0, j)] + rest;
        OneTermMore(regs, (0, j), rest, PairTerm(regs[0], regs[j]), TermsWith(regs[0], regs[j + 1..]));
      } else {
        pairs := rest;
        assert [] + rest == rest && [] + TermsWith(regs[0], regs[j + 1..]) == TermsWith(regs[0], regs[j + 1..]);
      }
    }
  }

  lemma OneTermMore(regs: seq<Sample>, p: (nat, nat), rest: seq<(nat, nat)>, t: nat, terms: seq<nat>)
    requires IsTermOf(regs, p, t) && AreTermsOf(regs, rest, terms)
    ensures AreTermsOf(regs, [p] + rest, [t] + terms)
  {
  }

  ghost function Later(pairs: seq<(nat, nat)>): (r: seq<(nat, nat)>)
    ensures |r| == |pairs|
  {
    seq(|pairs|, k requires 0 <= k < |pairs| => (pairs[k].0 + 1, pairs[k].1 + 1))
  }

  lemma LaterHas(pairs: seq<(nat, nat)>, i: nat, j: nat)
    requires (i, j) in pairs
    ensures (i + 1, j + 1) in Later(pairs)
  {
    var k :| 0 <= k < |pairs| && pairs[k] == (i, j);
    assert Later(pairs)[k] == (i + 1, j + 1);
  }

  lemma ListsLater(regs: seq<Sample>, first: seq<(nat, nat)>, rest: seq<(nat, nat)>)
    requires regs != [] && Lists(regs[1..], rest) && ListsFirst(regs, 1, first)
    ensures Lists(regs, first + Later(rest))
  {
    var all := first + Later(rest);
    forall k | 0 <= k < |rest| ensures IsUsablePair(regs, Later(rest)[k].0, Later(rest)[k].1) {
      assert IsUsablePair(regs[1..], rest[k].0, rest[k].1);
    }
    forall i: nat, j: nat | IsUsablePair(regs, i, j) ensures (i, j) in all {
      AllListed(regs, first, rest, i, j);
    }
  }

  lemma AllListed(regs: seq<Sample>, first: seq<(nat, nat)>, rest: seq<(nat, nat)>, i: nat, j: nat)
    requires regs != [] && Lists(regs[1..], rest) && ListsFirst(regs, 1, first) && IsUsablePair(regs, i, j)
    ensures (i, j) in first + Later(rest)
  {
    if i == 0 {
      assert (0, j) in first;
    } else {
      assert IsUsablePair(regs[1..], i - 1, j - 1);
      LaterHas(rest, i - 1, j - 1);
      assert (i, j) in Later(rest);
    }
  }

  /** Each usable pair gives one term, and nothing else does; so the count of terms is the count of pairs. */
  lemma {:induction false} TermsListPairs(regs: seq<Sample>) returns (pairs: seq<(nat, nat)>)
    ensures Lists(regs, pairs) && AreTermsOf(regs, pairs, Terms(regs))
  {
    if regs == [] {
      pairs := [];
    } else {
      var first := TermsWithList(regs, 1);
      var rest := TermsListPairs(regs[1..]);
      ListsLater(regs, first, rest);
      JoinTerms(regs, first, rest, TermsWith(regs[0], regs[1..]), Terms(regs[1..]));
      pairs := first + Later(rest);
    }
  }

  lemma JoinTerms(regs: seq<Sample>, first: seq<(nat, nat)>, rest: seq<(nat, nat)>, now: seq<nat>, later: seq<nat>)
    requires regs != [] && AreTermsOf(regs, first, now) && AreTermsOf(regs[1..], rest, later)
    ensures AreTermsOf(regs, first + Later(rest), now + later)
  {
    var n := |first|;
    forall k | n <= k < n + |rest| ensures IsTermOf(regs, (first + Later(rest))[k], (now + later)[k]) {
      assert IsTermOf(regs[1..], rest[k - n], later[k - n]);
    }
  }

  // ---- what a hit means

  /** Every stream carries this CRC under this arrangement. */
  ghost predicate Generated(streams: seq<Octets>, at: Arrangement, poly: Word, init: Word, mask: Word)
    requires Covers(streams, at)
  {
    forall i :: 0 <= i < |streams| ==>
      CarriedCrc(streams[i], at) == Xor(CrcOf(Region(streams[i], at), poly, init), mask)
  }

  /** Neither the initial value nor the mask matters: the polynomial divides a pair's term. */
  lemma PolynomialDividesPair(a: Octets, b: Octets, poly: Word, init: Word, mask: Word)
    requires |a| == |b|
    ensures Divides(Generator(poly),
                    PairTerm(Sample(|a|, BigEndian(a), Xor(CrcOf(a, poly, init), mask)),
                             Sample(|b|, BigEndian(b), Xor(CrcOf(b, poly, init), mask))))
  {
    var ca, cb := CrcOf(a, poly, init), CrcOf(b, poly, init);
    var d := Shift(Xor(BigEndian(a), BigEndian(b)), 32);
    XorSwap(ca, mask, cb, mask);
    XorSelf(mask);
    XorAssoc(d, Xor(ca, mask), Xor(cb, mask));
    PairDifference(a, b, poly, init);
  }

  lemma PolynomialDividesTerms(streams: seq<Octets>, at: Arrangement, poly: Word, init: Word, mask: Word)
    requires Covers(streams, at) && Generated(streams, at, poly, init, mask)
    ensures DividesAll(Generator(poly), Terms(Samples(streams, at)))
  {
    var regs := Samples(streams, at);
    var pairs := TermsListPairs(regs);
    forall k | 0 <= k < |Terms(regs)|
      ensures Divides(Generator(poly), Terms(regs)[k])
    {
      var (i, j) := pairs[k];
      assert IsUsablePair(regs, i, j) && IsTermOf(regs, pairs[k], Terms(regs)[k]);
      PolynomialDividesPair(Region(streams[i], at), Region(streams[j], at), poly, init, mask);
    }
  }

  /** A degree-32 result is the polynomial, whatever the initial value and the mask were. */
  lemma HitIsThePolynomial(streams: seq<Octets>, h: Hit, poly: Word, init: Word, mask: Word)
    requires GoodHit(streams, h) && Generated(streams, h.at, poly, init, mask)
    ensures h.g == Generator(poly) && h.g % WORD == poly
  {
    PolynomialDividesTerms(streams, h.at, poly, init, mask);
    GeneratorDegree(poly);
    assert Divides(Generator(poly), h.g);
    SameDegreeMultipleIsSelf(Generator(poly), h.g);
    LowWord(poly);
  }

  lemma LowWord(poly: Word)
    ensures Generator(poly) % WORD == poly
  {
  }

  /** And it is reached exactly when two pairs are usable and their terms have no common factor beyond it. */
  lemma HitExactlyWhen(streams: seq<Octets>, at: Arrangement, poly: Word, init: Word, mask: Word)
    requires Covers(streams, at) && Generated(streams, at, poly, init, mask)
    ensures var terms := Terms(Samples(streams, at));
            Outcome(streams, at)
            == if |terms| >= 2 && HaveNothingBeyond(terms, Generator(poly)) then [Hit(at, |terms|, Generator(poly))] else []
  {
    var terms := Terms(Samples(streams, at));
    GcdOfIsGcd(terms);
    PolynomialDividesTerms(streams, at, poly, init, mask);
    DegreeTellsTheGcd(GcdOf(terms), terms, poly);
  }

  ghost predicate HaveNothingBeyond(terms: seq<nat>, g: nat) {
    forall d: nat :: DividesAll(d, terms) ==> Divides(d, g)
  }

  lemma DegreeTellsTheGcd(g: nat, terms: seq<nat>, poly: Word)
    requires IsGcd(g, terms) && DividesAll(Generator(poly), terms)
    ensures BitLength(g) == 33 <==> HaveNothingBeyond(terms, Generator(poly))
    ensures BitLength(g) == 33 ==> g == Generator(poly)
  {
    GeneratorDegree(poly);
    DividesSelf(g);
    if BitLength(g) == 33 {
      SameDegreeMultipleIsSelf(Generator(poly), g);
    }
    if HaveNothingBeyond(terms, Generator(poly)) {
      MutualDivisors(g, Generator(poly));
    }
  }
}
