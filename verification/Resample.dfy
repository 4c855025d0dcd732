/**
 Rate conversion by two with a 31-tap filter whose state lives between calls.
 The coefficients are whatever the caller gives: nothing here depends on them,
 nor on the arithmetic of reals beyond doing it in the same order.
 */
module Resample {
  import opened Sequences
  import opened AudioTypes

  const FILTER_TAPS := 31

  type Taps = t: seq<real> | |t| == FILTER_TAPS witness seq(FILTER_TAPS, i => 0.0)

  // ---- one output sample

  /** Oldest sample first, accumulated from the left. */
  function Dot(history: seq<real>, taps: seq<real>): real
    requires |history| == |taps|
  {
    var n := |taps|;
    if n == 0 then 0.0 else Dot(history[..n - 1], taps[..n - 1]) + history[n - 1] * taps[n - 1]
  }

  /** Half away from zero. */
  function Round(v: real): int {
    if v >= 0.0 then (v + 0.5).Floor else -(0.5 - v).Floor
  }

  /** The nearest sample, half-way values away from zero, saturating at full scale rather than wrapping. */
  function Clamp(v: real): (r: Int16)
    ensures v > 32767.0 ==> r == 32767
    ensures v < -32768.0 ==> r == -32768
    ensures 0.0 <= v <= 32767.0 ==> -0.5 <= v - r as real < 0.5
    ensures -32768.0 <= v < 0.0 ==> -0.5 < v - r as real <= 0.5
  {
    if v > 32767.0 then 32767
    else if v < -32768.0 then -32768
    else Round(v)
  }

  /** No louder input gives a quieter sample. */
  lemma ClampIsMonotone(v: real, w: real)
    requires v <= w
    ensures Clamp(v) <= Clamp(w)
  {
  }

  // ---- the whole signal at once

  function Silence(n: nat): (r: seq<Int16>)
    ensures |r| == n && forall i :: 0 <= i < n ==> r[i] == 0
  {
    seq(n, i => 0)
  }

  function Padded(z: seq<real>): seq<real> {
    seq(FILTER_TAPS, i => 0.0) + z
  }

  /** The filter's output at position k: a convolution that starts from 31 zeros. */
  function FilterAt(taps: Taps, z: seq<real>, k: nat): Int16
    requires k < |z|
  {
    Clamp(Dot(Padded(z)[k + 1..k + 1 + FILTER_TAPS], taps))
  }

  function Stuffed(s: seq<Int16>): (z: seq<real>)
    ensures |z| == 2 * |s|
  {
    seq(2 * |s|, i requires 0 <= i < 2 * |s| => if i % 2 == 0 then s[i / 2] as real * 2.0 else 0.0)
  }

  function Reals(s: seq<Int16>): (z: seq<real>)
    ensures |z| == |s|
  {
    seq(|s|, i requires 0 <= i < |s| => s[i] as real)
  }

  function UpWhole(taps: Taps, s: seq<Int16>): (r: seq<Int16>)
    ensures |r| == 2 * |s|
  {
    var z := Stuffed(s);
    seq(|z|, k requires 0 <= k < |z| => FilterAt(taps, z, k))
  }

  /** Every even position of the filtered signal. */
  function DownWhole(taps: Taps, s: seq<Int16>): (r: seq<Int16>)
    ensures |r| == (|s| + 1) / 2
  {
    var z := Reals(s);
    seq((|z| + 1) / 2, j requires 0 <= j < (|z| + 1) / 2 => FilterAt(taps, z, 2 * j))
  }

  /** An output depends on nothing after its own position. */
  lemma FilterIsCausal(taps: Taps, a: seq<real>, b: seq<real>, k: nat)
    requires k < |a|
    ensures FilterAt(taps, a + b, k) == FilterAt(taps, a, k)
  {
    assert Padded(a + b)[k + 1..k + 1 + FILTER_TAPS] == Padded(a)[k + 1..k + 1 + FILTER_TAPS];
  }

  lemma UpPrefix(taps: Taps, a: seq<Int16>, b: seq<Int16>)
    ensures UpWhole(taps, a + b)[..2 * |a|] == UpWhole(taps, a)
  {
    var za, zab := Stuffed(a), Stuffed(a + b);
    assert zab == za + zab[|za|..];
    forall k | 0 <= k < |za| ensures FilterAt(taps, zab, k) == FilterAt(taps, za, k) {
      FilterIsCausal(taps, za, zab[|za|..], k);
    }
  }

  lemma DownPrefix(taps: Taps, a: seq<Int16>, b: seq<Int16>)
    ensures DownWhole(taps, a + b)[..(|a| + 1) / 2] == DownWhole(taps, a)
  {
    var za, zb := Reals(a), Reals(b);
    assert Reals(a + b) == za + zb;
    forall j | 0 <= j < (|a| + 1) / 2 ensures FilterAt(taps, za + zb, 2 * j) == FilterAt(taps, za, 2 * j) {
      FilterIsCausal(taps, za, zb, 2 * j);
    }
  }

  // ---- the filters

  ghost function Window(z: seq<real>): (w: seq<real>)
    ensures |w| == FILTER_TAPS
  {
    Padded(z)[|z|..]
  }

  lemma WindowSnoc(z: seq<real>, v: real)
    ensures Window(z + [v]) == Window(z)[1..] + [v]
  {
  }

  lemma WindowIsOutput(taps: Taps, z: seq<real>)
    requires z != []
    ensures Clamp(Dot(Window(z), taps)) == FilterAt(taps, z, |z| - 1)
  {
    assert Window(z) == Padded(z)[|z|..|z| + FILTER_TAPS];
  }

  /** copy(history, history[1:]) and a store at the end. */
  method Feed(history: array<real>, v: real)
    requires history.Length == FILTER_TAPS
    modifies history
    ensures history[..] == old(history[..])[1..] + [v]
  {
    for i := 0 to history.Length - 1
      invariant forall k :: 0 <= k < i ==> history[k] == old(history[k + 1])
      invariant forall k :: i <= k < history.Length ==> history[k] == old(history[k])
    {
      history[i] := history[i + 1];
    }
    history[history.Length - 1] := v;
  }

  method Convolve(history: array<real>, taps: Taps) returns (acc: real)
    requires history.Length == FILTER_TAPS
    ensures acc == Dot(history[..], taps)
  {
    acc := 0.0;
    for i := 0 to |taps|
      invariant acc == Dot(history[..i], taps[..i])
    {
      assert history[..i + 1][..i] == history[..i] && taps[..i + 1][..i] == taps[..i];
      acc := acc + history[i] * taps[i];
    }
    assert history[..|taps|] == history[..] && taps[..|taps|] == taps;
  }

  /** One sample in, and its filtered sample out when that is wanted. */
  method FilterSome(history: array<real>, taps: Taps, v: real, wanted: bool, ghost z: seq<real>) returns (r: seq<Int16>)
    requires history.Length == FILTER_TAPS && history[..] == Window(z)
    modifies history
    ensures history[..] == Window(z + [v]) && r == if wanted then [FilterAt(taps, z + [v], |z|)] else []
  {
    WindowSnoc(z, v);
    Feed(history, v);
    r := [];
    if wanted {
      var acc := Convolve(history, taps);
      WindowIsOutput(taps, z + [v]);
      r := [Clamp(acc)];
    }
  }

  method Clear(history: array<real>)
    requires history.Length == FILTER_TAPS
    modifies history
    ensures history[..] == Window([])
  {
    for i := 0 to history.Length
      invariant forall k :: 0 <= k < i ==> history[k] == 0.0
    {
      history[i] := 0.0;
    }
  }

  class Upsampler {
    const taps: Taps
    const history: array<real>
    ghost var fed: seq<Int16> // everything converted since the last reset

    ghost predicate Valid()
      reads this, history
    {
      history.Length == FILTER_TAPS && history[..] == Window(Stuffed(fed))
    }

    constructor (taps: Taps)
      ensures Valid() && fresh(history) && fed == [] && this.taps == taps
    {
      this.taps := taps;
      history := new real[FILTER_TAPS](i => 0.0);
      fed := [];
    }

    method Reset()
      requires Valid()
      modifies this, history
      ensures Valid() && fed == []
    {
      Clear(history);
      fed := [];
    }

    /** However the signal has been cut up so far, this adds exactly what comes next of the whole. */
    method Up(input: seq<Int16>) returns (out: seq<Int16>)
      requires Valid()
      modifies this, history
      ensures Valid() && fed == old(fed) + input
      ensures |out| == 2 * |input|
      ensures UpWhole(taps, fed) == UpWhole(taps, old(fed)) + out
    {
      out := [];
      ghost var was := fed;
      for i := 0 to |input|
        invariant Valid() && fed == was + input[..i] && |out| == 2 * i
        invariant UpWhole(taps, fed) == UpWhole(taps, was) + out
      {
        var pair := UpOne(history, taps, input[i], fed);
        out := out + pair;
        fed := fed + [input[i]];
        assert input[..i + 1] == input[..i] + [input[i]];
      }
      assert input[..|input|] == input;
    }
  }

  /** Two samples of the stuffed signal. */
  method UpOne(history: array<real>, taps: Taps, s: Int16, ghost was: seq<Int16>) returns (pair: seq<Int16>)
    requires history.Length == FILTER_TAPS && history[..] == Window(Stuffed(was))
    modifies history
    ensures history[..] == Window(Stuffed(was + [s]))
    ensures |pair| == 2 && UpWhole(taps, was + [s]) == UpWhole(taps, was) + pair
  {
    ghost var z := Stuffed(was);
    ghost var one, two := z + [s as real * 2.0], z + [s as real * 2.0] + [0.0];
    pair := [];
    for half := 0 to 2
      invariant history[..] == Window(z) && |z| == 2 * |was| + half
      invariant z == if half == 0 then Stuffed(was) else if half == 1 then one else two
      invariant pair == if half == 0 then [] else if half == 1 then [FilterAt(taps, one, 2 * |was|)]
                        else [FilterAt(taps, one, 2 * |was|), FilterAt(taps, two, 2 * |was| + 1)]
    {
      var v := if half == 0 then s as real * 2.0 else 0.0;
      var r := FilterSome(history, taps, v, true, z);
      pair := pair + r;
      z := z + [v];
    }
    StuffedNext(was, s);
    UpNext(taps, was, s, one, two);
  }

  lemma StuffedNext(was: seq<Int16>, s: Int16)
    ensures Stuffed(was + [s]) == Stuffed(was) + [s as real * 2.0] + [0.0]
  {
  }

  lemma UpNext(taps: Taps, was: seq<Int16>, s: Int16, one: seq<real>, two: seq<real>)
    requires one == Stuffed(was) + [s as real * 2.0] && two == one + [0.0]
    ensures UpWhole(taps, was + [s])
         == UpWhole(taps, was) + [FilterAt(taps, one, 2 * |was|), FilterAt(taps, two, 2 * |was| + 1)]
  {
    StuffedNext(was, s);
    UpPrefix(taps, was, [s]);
    FilterIsCausal(taps, one, [0.0], 2 * |was|);
  }

  class Downsampler {
    const taps: Taps
    const history: array<real>
    var phase: int
    ghost var fed: seq<Int16>

    ghost predicate Valid()
      reads this, history
    {
      history.Length == FILTER_TAPS && history[..] == Window(Reals(fed)) && phase == |fed| % 2
    }

    constructor (taps: Taps)
      ensures Valid() && fresh(history) && fed == [] && this.taps == taps
    {
      this.taps := taps;
      history := new real[FILTER_TAPS](i => 0.0);
      phase, fed := 0, [];
    }

    method Reset()
      requires Valid()
      modifies this, history
      ensures Valid() && fed == []
    {
      Clear(history);
      phase, fed := 0, [];
    }

    /** The phase carries the parity of everything before, so odd lengths shift nothing. */
    method Down(input: seq<Int16>) returns (out: seq<Int16>)
      requires Valid()
      modifies this, history
      ensures Valid() && fed == old(fed) + input
      ensures DownWhole(taps, fed) == DownWhole(taps, old(fed)) + out
    {
      out := [];
      ghost var was := fed;
      for i := 0 to |input|
        invariant Valid() && fed == was + input[..i]
        invariant DownWhole(taps, fed) == DownWhole(taps, was) + out
      {
        var r := DownOne(history, taps, phase, input[i], fed);
        out := out + r;
        phase := 1 - phase;
        fed := fed + [input[i]];
        assert input[..i + 1] == input[..i] + [input[i]];
      }
      assert input[..|input|] == input;
    }
  }

  /** One input sample; the phase says whether it is at an even place. */
  method DownOne(history: array<real>, taps: Taps, phase: int, s: Int16, ghost was: seq<Int16>) returns (r: seq<Int16>)
    requires history.Length == FILTER_TAPS && history[..] == Window(Reals(was)) && phase == |was| % 2
    modifies history
    ensures history[..] == Window(Reals(was + [s])) && 1 - phase == |was + [s]| % 2
    ensures DownWhole(taps, was + [s]) == DownWhole(taps, was) + r
  {
    RealsNext(was, s);
    r := FilterSome(history, taps, s as real, phase == 0, Reals(was));
    DownNext(taps, was, s);
  }

  lemma RealsNext(was: seq<Int16>, s: Int16)
    ensures Reals(was + [s]) == Reals(was) + [s as real]
  {
  }

  lemma DownNext(taps: Taps, was: seq<Int16>, s: Int16)
    ensures DownWhole(taps, was + [s])
         == DownWhole(taps, was) + if |was| % 2 == 0 then [FilterAt(taps, Reals(was) + [s as real], |was|)] else []
  {
    RealsNext(was, s);
    DownPrefix(taps, was, [s]);
  }

  // ---- independence of the cut

  ghost function Before<T>(chunks: seq<seq<T>>, i: nat): seq<T>
    requires i <= |chunks|
  {
    Concat(chunks[..i])
  }

  lemma BeforeNext<T>(chunks: seq<seq<T>>, i: nat)
    requires i < |chunks|
    ensures Before(chunks, i + 1) == Before(chunks, i) + chunks[i]
  {
    ConcatSnoc(chunks[..i], chunks[i]);
    assert chunks[..i + 1] == chunks[..i] + [chunks[i]];
  }

  /** From a reset, every way of cutting a signal into calls gives the whole-signal output. */
  method UpInPieces(u: Upsampler, chunks: seq<seq<Int16>>) returns (outs: seq<seq<Int16>>)
    requires u.Valid()
    modifies u, u.history
    ensures u.Valid() && u.fed == Concat(chunks)
    ensures |outs| == |chunks| && forall i :: 0 <= i < |outs| ==> |outs[i]| == 2 * |chunks[i]|
    ensures Concat(outs) == UpWhole(u.taps, Concat(chunks))
  {
    u.Reset();
    outs := [];
    for i := 0 to |chunks|
      invariant u.Valid() && u.fed == Before(chunks, i)
      invariant |outs| == i && forall k :: 0 <= k < i ==> |outs[k]| == 2 * |chunks[k]|
      invariant Concat(outs) == UpWhole(u.taps, u.fed)
    {
      BeforeNext(chunks, i);
      var out := u.Up(chunks[i]);
      ConcatSnoc(outs, out);
      outs := outs + [out];
    }
    assert chunks[..|chunks|] == chunks;
  }

  /** The same going down: pieces of odd length shift nothing. */
  method DownInPieces(d: Downsampler, chunks: seq<seq<Int16>>) returns (outs: seq<seq<Int16>>)
    requires d.Valid()
    modifies d, d.history
    ensures d.Valid() && d.fed == Concat(chunks)
    ensures |outs| == |chunks|
    ensures Concat(outs) == DownWhole(d.taps, Concat(chunks))
  {
    d.Reset();
    outs := [];
    for i := 0 to |chunks|
      invariant d.Valid() && d.fed == Before(chunks, i)
      invariant |outs| == i
      invariant Concat(outs) == DownWhole(d.taps, d.fed)
    {
      BeforeNext(chunks, i);
      var out := d.Down(chunks[i]);
      ConcatSnoc(outs, out);
      outs := outs + [out];
    }
    assert chunks[..|chunks|] == chunks;
  }

  // ---- what the filter does to a signal

  ghost predicate OnlyAt(history: seq<real>, i: int, x: real) {
    forall k :: 0 <= k < |history| ==> history[k] == if k == i then x else 0.0
  }

  /** One sample among zeros gives that sample times the tap it meets. */
  lemma {:induction false} DotOfImpulse(history: seq<real>, taps: seq<real>, i: int, x: real)
    requires |history| == |taps| && OnlyAt(history, i, x)
    ensures Dot(history, taps) == if 0 <= i < |taps| then x * taps[i] else 0.0
  {
    var n := |taps|;
    if n > 0 {
      DotOfImpulse(history[..n - 1], taps[..n - 1], i, x);
    }
  }

  /** Signals that are added are filtered separately: with the impulse, this is all the sum does. */
  lemma {:induction false} DotAdds(a: seq<real>, b: seq<real>, sum: seq<real>, taps: seq<real>)
    requires |a| == |b| == |sum| == |taps| && forall k :: 0 <= k < |a| ==> sum[k] == a[k] + b[k]
    ensures Dot(sum, taps) == Dot(a, taps) + Dot(b, taps)
  {
    var n := |taps|;
    if n > 0 {
      DotAdds(a[..n - 1], b[..n - 1], sum[..n - 1], taps[..n - 1]);
      Distributes(a[n - 1], b[n - 1], taps[n - 1]);
    }
  }

  lemma Distributes(x: real, y: real, t: real)
    ensures (x + y) * t == x * t + y * t
  {
  }

  /** What is left of a sample d places later. */
  ghost function Echo(taps: Taps, x: real, d: int): real {
    if 0 <= d < FILTER_TAPS then x * taps[FILTER_TAPS - 1 - d] else 0.0
  }

  /** A signal that is zero but for one place, k, comes out as the taps from last to first, starting there. */
  lemma FilterOfImpulse(taps: Taps, z: seq<real>, k: nat, x: real, n: nat)
    requires n < |z| && OnlyAt(z, k, x)
    ensures FilterAt(taps, z, n) == Clamp(Echo(taps, x, n - k))
  {
    var window := Padded(z)[n + 1..n + 1 + FILTER_TAPS];
    if k < |z| {
      assert OnlyAt(window, k + FILTER_TAPS - 1 - n, x);
      DotOfImpulse(window, taps, k + FILTER_TAPS - 1 - n, x);
    } else {
      assert OnlyAt(window, -1, 0.0);
      DotOfImpulse(window, taps, -1, 0.0);
    }
  }

  ghost function Impulse(before: nat, x: Int16, after: nat): (s: seq<Int16>)
    ensures |s| == before + 1 + after
  {
    Silence(before) + [x] + Silence(after)
  }

  /** Going up, a sample comes out as the taps at twice its value, from twice its place. */
  lemma UpOfImpulse(taps: Taps, before: nat, x: Int16, after: nat, n: nat)
    requires n < 2 * (before + 1 + after)
    ensures UpWhole(taps, Impulse(before, x, after))[n] == Clamp(Echo(taps, x as real * 2.0, n - 2 * before))
  {
    UpAt(taps, Impulse(before, x, after));
    StuffedImpulse(before, x, after);
    FilterOfImpulse(taps, Stuffed(Impulse(before, x, after)), 2 * before, x as real * 2.0, n);
  }

  lemma UpAt(taps: Taps, s: seq<Int16>)
    ensures forall n: nat :: n < 2 * |s| ==> UpWhole(taps, s)[n] == FilterAt(taps, Stuffed(s), n)
  {
  }

  lemma DownAt(taps: Taps, s: seq<Int16>)
    ensures forall j: nat :: 2 * j < |s| ==> DownWhole(taps, s)[j] == FilterAt(taps, Reals(s), 2 * j)
  {
  }

  lemma StuffedImpulse(before: nat, x: Int16, after: nat)
    ensures OnlyAt(Stuffed(Impulse(before, x, after)), 2 * before, x as real * 2.0)
  {
    var s := Impulse(before, x, after);
    forall i | 0 <= i < |s| ensures s[i] == if i == before then x else 0 {
    }
    forall i | 0 <= i < 2 * |s| && i % 2 == 0 ensures i == 2 * before <==> i / 2 == before {
    }
  }

  lemma RealsOfImpulse(before: nat, x: Int16, after: nat)
    ensures OnlyAt(Reals(Impulse(before, x, after)), before, x as real)
  {
    var s := Impulse(before, x, after);
    forall i | 0 <= i < |s| ensures s[i] == if i == before then x else 0 {
    }
  }

  /** Going down, every second of the places the taps would fill is kept. */
  lemma DownOfImpulse(taps: Taps, before: nat, x: Int16, after: nat, j: nat)
    requires 2 * j < before + 1 + after
    ensures DownWhole(taps, Impulse(before, x, after))[j] == Clamp(Echo(taps, x as real, 2 * j - before))
  {
    DownAt(taps, Impulse(before, x, after));
    RealsOfImpulse(before, x, after);
    FilterOfImpulse(taps, Reals(Impulse(before, x, after)), before, x as real, 2 * j);
  }
}
