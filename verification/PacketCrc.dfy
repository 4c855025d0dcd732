/**
 The packet CRC the search found, and two things the search's own account of
 itself says: that a hit over packets carrying that CRC names its polynomial,
 and that octets every packet begins with do not show in the result.
 */
module PacketCrc {
  import opened Bytes
  import opened Gf2
  import opened Crc
  import opened CrcSolve

  const PACKET_CRC_POLY: Word := 0x04c11db7

  datatype CrcResult = Crc(value: Word) | OddLength(octets: nat)
  datatype Verdict = Sound | TooShort | Unpaired | Mismatch(carried: nat, computed: Word)

  /** Over the octets in swapped pairs, from zero, with no mask. */
  method PacketCRC(covered: Octets) returns (r: CrcResult)
    ensures r == if |covered| % 2 != 0 then OddLength(|covered|)
                 else CrcResult.Crc(CrcOf(SwapPairs(covered), PACKET_CRC_POLY, 0))
  {
    if |covered| % 2 != 0 {
      return OddLength(|covered|);
    }
    var reg: Word := 0;
    ghost var swapped := SwapPairs(covered);
    for i := 0 to |covered|
      invariant reg == CrcOf(swapped[..i], PACKET_CRC_POLY, 0)
    {
      var partner := if i % 2 == 0 then i + 1 else i - 1;
      assert swapped[i] == covered[partner];
      reg := EightTurns(Enter(reg, covered[partner]), PACKET_CRC_POLY);
      assert swapped[..i + 1][..i] == swapped[..i];
    }
    assert swapped[..|covered|] == swapped;
    r := CrcResult.Crc(reg);
  }

  /** The CRC over everything before the last four octets, kept least significant first. */
  method VerifyPacket(userData: Octets) returns (v: Verdict)
    ensures v == Sound <==> CarriesPacketCrc(userData)
    ensures v == TooShort <==> |userData| < 4
    ensures v == Unpaired <==> |userData| >= 4 && |userData| % 2 != 0
    ensures v.Mismatch? ==>
              && v.carried == LeastFirst(userData[|userData| - 4..]) != v.computed
              && v.computed == CrcOf(SwapPairs(userData[..|userData| - 4]), PACKET_CRC_POLY, 0)
  {
    if |userData| < 4 {
      return TooShort;
    }
    var want := PacketCRC(userData[..|userData| - 4]);
    if want.OddLength? {
      return Unpaired;
    }
    StoredOctets(userData[|userData| - 4..]);
    var got := ReadStored(Little, userData[|userData| - 4..]);
    v := if got != want.value then Mismatch(got, want.value) else Sound;
  }

  /** Four octets, the least significant first. */
  function LeastFirst(c: Octets): nat
    requires |c| == 4
  {
    c[0] as int + 0x100 * c[1] as int + 0x1_0000 * c[2] as int + 0x100_0000 * c[3] as int
  }

  ghost predicate CarriesPacketCrc(userData: Octets) {
    && |userData| >= 4
    && |userData| % 2 == 0
    && LeastFirst(userData[|userData| - 4..]) == CrcOf(SwapPairs(userData[..|userData| - 4]), PACKET_CRC_POLY, 0)
  }

  const FOUND := Arrangement(0, PairSwapped, false, false, Little)

  /** Packets that verify generate their samples with this polynomial, init 0 and mask 0. */
  lemma SolverFindsThePacketCrc(streams: seq<Octets>, h: Hit)
    requires forall i :: 0 <= i < |streams| ==> CarriesPacketCrc(streams[i])
    requires GoodHit(streams, h) && h.at == FOUND
    ensures h.g % WORD == PACKET_CRC_POLY
  {
    forall i | 0 <= i < |streams|
      ensures CarriedCrc(streams[i], FOUND) == Xor(CrcOf(Region(streams[i], FOUND), PACKET_CRC_POLY, 0), 0)
    {
      StoredOctets(streams[i][|streams[i]| - 4..]);
      assert streams[i][0..|streams[i]| - 4] == streams[i][..|streams[i]| - 4];
    }
    HitIsThePolynomial(streams, h, PACKET_CRC_POLY, 0, 0);
  }

  // ---- octets that every packet shares

  lemma {:induction false} BigEndianConcat(p: Octets, m: Octets)
    ensures BigEndian(m) < Shift(1, 8 * |m|)
    ensures BigEndian(p + m) == Shift(BigEndian(p), 8 * |m|) + BigEndian(m)
  {
    if m == [] {
      assert p + m == p;
    } else {
      var rest, b := m[..|m| - 1], m[|m| - 1];
      BigEndianConcat(p, rest);
      assert (p + m)[..|p + m| - 1] == p + rest;
      ShiftAdd(1, 8 * |rest|, 8);
      ShiftAdd(BigEndian(p), 8 * |rest|, 8);
      ShiftByOctet(Shift(1, 8 * |rest|));
      ShiftByOctet(Shift(BigEndian(p), 8 * |rest|));
    }
  }

  lemma PrefixCancels(p: Octets, a: Octets, b: Octets)
    requires |a| == |b|
    ensures Xor(BigEndian(p + a), BigEndian(p + b)) == Xor(BigEndian(a), BigEndian(b))
  {
    BigEndianConcat(p, a);
    BigEndianConcat(p, b);
    SameHighPart(BigEndian(p), BigEndian(a), BigEndian(b), 8 * |a|);
  }

  lemma SameHighPart(high: nat, a: nat, b: nat, k: nat)
    requires a < Shift(1, k) && b < Shift(1, k)
    ensures Xor(Shift(high, k) + a, Shift(high, k) + b) == Xor(a, b)
  {
    XorSplit(high, a, high, b, k);
    XorSelf(high);
    ShiftZero(k);
  }

  lemma XorZeroMeansEqual(a: nat, b: nat)
    ensures Xor(a, b) == 0 <==> a == b
  {
    XorSelf(a);
    XorCancel(a, b);
  }

  /** Orders that take a leading run of k octets first, whatever follows it. */
  predicate KeepsPrefix(order: Order, k: nat) {
    order == Wire || (order == PairSwapped && k % 2 == 0)
  }

  lemma RegionAfterPrefix(s: Octets, at: Arrangement, k: nat)
    requires KeepsPrefix(at.order, k) && at.start + k + 4 <= |s|
    ensures Region(s, at) == InOrder(at, s[at.start..at.start + k]) + Region(s, at.(start := at.start + k))
  {
    SliceInTwo(s, at.start, at.start + k, |s| - 4);
    InOrderConcat(at, s[at.start..at.start + k], s[at.start + k..|s| - 4]);
    SameOrder(at, at.(start := at.start + k), s[at.start + k..|s| - 4]);
  }

  lemma InOrderConcat(at: Arrangement, head: Octets, tail: Octets)
    requires KeepsPrefix(at.order, |head|)
    ensures InOrder(at, head + tail) == InOrder(at, head) + InOrder(at, tail)
  {
    ReorderConcat(at.order, head, tail);
    ReflectConcat(Reorder(at.order, head), Reorder(at.order, tail));
  }

  lemma SameOrder(at: Arrangement, later: Arrangement, octets: Octets)
    requires at.order == later.order && at.refin == later.refin
    ensures InOrder(at, octets) == InOrder(later, octets)
  {
  }

  lemma SliceInTwo(s: Octets, a: nat, b: nat, c: nat)
    requires a <= b <= c <= |s|
    ensures s[a..c] == s[a..b] + s[b..c]
  {
  }

  lemma ReorderConcat(order: Order, head: Octets, tail: Octets)
    requires KeepsPrefix(order, |head|)
    ensures Reorder(order, head + tail) == Reorder(order, head) + Reorder(order, tail)
  {
    if order == PairSwapped {
      SwapConcat(head, tail);
    }
  }

  lemma SwapConcat(head: Octets, tail: Octets)
    requires |head| % 2 == 0
    ensures SwapPairs(head + tail) == SwapPairs(head) + SwapPairs(tail)
  {
    var all, n := head + tail, |head|;
    forall i | 0 <= i < |all|
      ensures all[Partner(i, |all|)] == if i < n then head[Partner(i, n)] else tail[Partner(i - n, |tail|)]
    {
    }
  }

  lemma ReflectConcat(a: Octets, b: Octets)
    ensures Reflect(a + b) == Reflect(a) + Reflect(b)
  {
  }

  /** What the accumulation sees of two lists of samples is the same. */
  ghost predicate SameDifferences(x: seq<Sample>, y: seq<Sample>) {
    |x| == |y| && forall i, j :: 0 <= i < |x| && 0 <= j < |x| ==>
      && Usable(x[i], x[j]) == Usable(y[i], y[j])
      && (Usable(x[i], x[j]) ==> PairTerm(x[i], x[j]) == PairTerm(y[i], y[j]))
  }

  lemma {:induction false} SameTermsWith(x: seq<Sample>, y: seq<Sample>, j: nat)
    requires SameDifferences(x, y) && 0 < |x| && 1 <= j <= |x|
    ensures TermsWith(x[0], x[j..]) == TermsWith(y[0], y[j..])
    decreases |x| - j
  {
    if j < |x| {
      SameTermsWith(x, y, j + 1);
      assert x[j..][1..] == x[j + 1..] && y[j..][1..] == y[j + 1..];
      assert x[j..][0] == x[j] && y[j..][0] == y[j];
    }
  }

  lemma {:induction false} SameTerms(x: seq<Sample>, y: seq<Sample>)
    requires SameDifferences(x, y)
    ensures Terms(x) == Terms(y)
  {
    if x != [] {
      SameTermsWith(x, y, 1);
      SameTerms(x[1..], y[1..]);
    }
  }

  lemma SamePair(q: Octets, a: Octets, b: Octets, ca: nat, cb: nat)
    ensures var x, y := Sample(|q + a|, BigEndian(q + a), ca), Sample(|q + b|, BigEndian(q + b), cb);
            var u, v := Sample(|a|, BigEndian(a), ca), Sample(|b|, BigEndian(b), cb);
            Usable(x, y) == Usable(u, v) && (Usable(x, y) ==> PairTerm(x, y) == PairTerm(u, v))
  {
    if |a| == |b| {
      PrefixCancels(q, a, b);
      XorZeroMeansEqual(BigEndian(q + a), BigEndian(q + b));
      XorZeroMeansEqual(BigEndian(a), BigEndian(b));
    }
  }

  /** Octets all packets begin with cancel: the region may start before or after them. */
  lemma SharedPrefixIsInvisible(streams: seq<Octets>, at: Arrangement, p: Octets)
    requires KeepsPrefix(at.order, |p|)
    requires forall i :: 0 <= i < |streams| ==>
      at.start + |p| + 4 <= |streams[i]| && streams[i][at.start..at.start + |p|] == p
    ensures Terms(Samples(streams, at)) == Terms(Samples(streams, at.(start := at.start + |p|)))
  {
    var later := at.(start := at.start + |p|);
    var x, y := Samples(streams, at), Samples(streams, later);
    forall i, j | 0 <= i < |streams| && 0 <= j < |streams|
      ensures Usable(x[i], x[j]) == Usable(y[i], y[j])
      ensures Usable(x[i], x[j]) ==> PairTerm(x[i], x[j]) == PairTerm(y[i], y[j])
    {
      SamePairOfStreams(streams[i], streams[j], at, p);
    }
    SameTerms(x, y);
  }

  lemma SamePairOfStreams(s: Octets, t: Octets, at: Arrangement, p: Octets)
    requires KeepsPrefix(at.order, |p|) && at.start + |p| + 4 <= |s| && at.start + |p| + 4 <= |t|
    requires s[at.start..at.start + |p|] == p && t[at.start..at.start + |p|] == p
    ensures var later := at.(start := at.start + |p|);
            && Usable(SampleOf(s, at), SampleOf(t, at)) == Usable(SampleOf(s, later), SampleOf(t, later))
            && (Usable(SampleOf(s, at), SampleOf(t, at)) ==>
                  PairTerm(SampleOf(s, at), SampleOf(t, at)) == PairTerm(SampleOf(s, later), SampleOf(t, later)))
  {
    var later := at.(start := at.start + |p|);
    RegionAfterPrefix(s, at, |p|);
    RegionAfterPrefix(t, at, |p|);
    SamePair(InOrder(at, p), Region(s, later), Region(t, later), CarriedCrc(s, at), CarriedCrc(t, at));
  }

  /** So a hit at one start is a hit at the other, with the same polynomial. */
  lemma HitAtBothStarts(streams: seq<Octets>, h: Hit, p: Octets)
    requires KeepsPrefix(h.at.order, |p|)
    requires forall i :: 0 <= i < |streams| ==>
      h.at.start + |p| + 4 <= |streams[i]| && streams[i][h.at.start..h.at.start + |p|] == p
    ensures GoodHit(streams, h) <==> GoodHit(streams, h.(at := h.at.(start := h.at.start + |p|)))
  {
    SharedPrefixIsInvisible(streams, h.at, p);
  }
}
