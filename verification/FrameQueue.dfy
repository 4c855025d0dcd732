/**
 A queue that never holds more than its limit: what it holds, what goes when it
 is full, and what that means over a whole run.
 */
module FrameQueue {
  import opened Sequences
  import opened AudioTypes

  /** How many frames a queue may hold. */
  type Limit = n: nat | n > 0 witness 1

  datatype Op = Push(f: Frame) | Pop | Discard

  /** Every frame ever pushed, and where each one is now, by its place in that list. */
  datatype History = History(pushed: seq<Frame>, held: seq<nat>, popped: seq<nat>, discarded: seq<nat>, evicted: seq<nat>)

  const EMPTY := History([], [], [], [], [])

  ghost function FrameAt(h: History, at: nat): Frame {
    if at < |h.pushed| then h.pushed[at] else NO_FRAME
  }

  ghost function FramesAt(h: History, places: seq<nat>): (frames: seq<Frame>)
    ensures |frames| == |places|
  {
    seq(|places|, i requires 0 <= i < |places| => FrameAt(h, places[i]))
  }

  ghost function Held(h: History): (frames: seq<Frame>)
    ensures |frames| == |h.held|
  {
    FramesAt(h, h.held)
  }

  ghost predicate Placed(h: History) {
    forall i :: 0 <= i < |h.held| ==> h.held[i] < |h.pushed|
  }

  /** The first audio frame at or after i, if there is one. */
  function FirstAudio(frames: seq<Frame>, i: nat): (r: nat)
    requires i <= |frames|
    ensures i <= r <= |frames|
    ensures forall k :: i <= k < r ==> Signal(frames[k])
    ensures r < |frames| ==> !Signal(frames[r])
    decreases |frames| - i
  {
    if i == |frames| || !Signal(frames[i]) then i else FirstAudio(frames, i + 1)
  }

  /** The frame that goes when there is no room: the first with audio, or else the first. */
  function Victim(frames: seq<Frame>): (v: nat)
    requires frames != []
    ensures v < |frames|
  {
    if FirstAudio(frames, 0) < |frames| then FirstAudio(frames, 0) else 0
  }

  ghost function Apply(h: History, limit: Limit, op: Op): History
  {
    match op
    case Push(f) =>
      var added := h.(pushed := h.pushed + [f]);
      if |h.held| >= limit then
        var v := Victim(Held(h));
        added.(held := Without(h.held, v) + [|h.pushed|], evicted := h.evicted + [h.held[v]])
      else
        added.(held := h.held + [|h.pushed|])
    case Pop => if h.held == [] then h else h.(held := h.held[1..], popped := h.popped + [h.held[0]])
    case Discard => h.(held := [], discarded := h.discarded + h.held)
  }

  lemma FramesStay(h: History, t: History, f: Frame, places: seq<nat>)
    requires t.pushed == h.pushed + [f] && forall i :: 0 <= i < |places| ==> places[i] < |h.pushed|
    ensures FramesAt(t, places + [|h.pushed|]) == FramesAt(h, places) + [f]
  {
  }

  /** What is held after a push, frame by frame. */
  lemma PushedFrames(h: History, limit: Limit, f: Frame)
    requires Placed(h)
    ensures var t := Apply(h, limit, Push(f));
            Placed(t) && Held(t) == (if |h.held| >= limit then Without(Held(h), Victim(Held(h))) else Held(h)) + [f]
  {
    var t := Apply(h, limit, Push(f));
    if |h.held| >= limit {
      var kept := Without(h.held, Victim(Held(h)));
      FramesStay(h, t, f, kept);
    } else {
      FramesStay(h, t, f, h.held);
    }
  }

  class Queue {
    var frames: seq<Frame>
    const limit: Limit
    var ready: bool // the wakeup channel's one place is taken
    var lost: nat
    ghost var history: History

    ghost predicate Valid()
      reads this
    {
      && |frames| <= limit
      && Placed(history) && frames == Held(history)
      && lost == |history.evicted|
    }

    /** Whatever limit is asked for, at least one frame fits. */
    constructor (limit: int)
      ensures Valid() && history == EMPTY && !ready
      ensures this.limit == if limit < 1 then 1 else limit
    {
      this.limit := if limit < 1 then 1 else limit;
      frames, ready, lost, history := [], false, 0, EMPTY;
    }

    method Wake()
      modifies this`ready
      ensures ready
    {
      if !ready {
        ready := true;
      }
    }

    /** The place of the frame that goes when there is no room. */
    method Oldest() returns (oldest: nat)
      requires frames != []
      ensures oldest == Victim(frames)
    {
      oldest := 0;
      for i := 0 to |frames|
        invariant oldest == 0
        invariant FirstAudio(frames, 0) == FirstAudio(frames, i)
      {
        if !Signal(frames[i]) {
          oldest := i;
          break;
        }
      }
    }

    method Push(f: Frame) returns (lostOne: bool)
      requires Valid()
      modifies this
      ensures Valid() && ready
      ensures history == Apply(old(history), limit, Op.Push(f))
      ensures lostOne <==> |old(frames)| == limit
    {
      lostOne := false;
      ghost var was := history;
      if |frames| >= limit {
        var oldest := Oldest();
        frames := frames[..oldest] + frames[oldest + 1..];
        lost := lost + 1;
        lostOne := true;
      }
      frames := frames + [f];
      history := Apply(was, limit, Op.Push(f));
      PushedFrames(was, limit, f);
      Wake();
    }

    method Pop() returns (f: Frame, ok: bool)
      requires Valid()
      modifies this
      ensures Valid() && history == Apply(old(history), limit, Op.Pop)
      ensures ok <==> old(frames) != []
      ensures if ok then old(frames) == [f] + frames else f == NO_FRAME
      ensures ready <==> old(ready) || |old(frames)| > 1
    {
      if |frames| == 0 {
        return NO_FRAME, false;
      }
      f := frames[0];
      frames := frames[1..];
      history := Apply(history, limit, Op.Pop);
      var more := |frames| > 0;
      if more {
        Wake();
      }
      return f, true;
    }

    method Discard() returns (n: nat)
      requires Valid()
      modifies this
      ensures Valid() && history == Apply(old(history), limit, Op.Discard)
      ensures n == |old(frames)| && frames == [] && ready == old(ready)
    {
      n := |frames|;
      frames := [];
      history := Apply(history, limit, Op.Discard);
    }

    method Lost() returns (n: nat)
      requires Valid()
      ensures n == |history.evicted|
    {
      n := lost;
    }
  }

  // ---- whole runs

  function Places(n: nat): seq<nat> {
    if n == 0 then [] else Places(n - 1) + [n - 1]
  }

  ghost predicate Audio(h: History, at: nat) {
    at < |h.pushed| && !Signal(h.pushed[at])
  }

  /** Every frame pushed is in exactly one place. */
  ghost predicate Conserved(h: History) {
    multiset(h.popped) + multiset(h.held) + multiset(h.discarded) + multiset(h.evicted) == multiset(Places(|h.pushed|))
  }

  ghost predicate Ordered(h: History, limit: Limit) {
    && |h.held| <= limit
    // what has been played and what is still to be played are in the order they came
    && Increasing(h.popped + h.held)
    // audio given up is older than all the audio still held
    && (forall i, j :: 0 <= i < |h.evicted| && 0 <= j < |h.held| && Audio(h, h.evicted[i]) && Audio(h, h.held[j]) ==>
          h.evicted[i] < h.held[j])
    && Placed(h)
    && (forall i :: 0 <= i < |h.popped| ==> h.popped[i] < |h.pushed|)
    && (forall i :: 0 <= i < |h.evicted| ==> h.evicted[i] < |h.pushed|)
  }

  /** The history after these operations. */
  ghost function After(limit: Limit, ops: seq<Op>): History
  {
    if ops == [] then EMPTY else Apply(After(limit, ops[..|ops| - 1]), limit, ops[|ops| - 1])
  }

  // ---- conservation

  lemma MultisetSnoc(s: seq<nat>, x: nat)
    ensures multiset(s + [x]) == multiset(s) + multiset([x])
  {
  }

  lemma MultisetWithout(s: seq<nat>, i: nat)
    requires i < |s|
    ensures multiset(Without(s, i)) + multiset([s[i]]) == multiset(s)
  {
    assert s == s[..i] + [s[i]] + s[i + 1..];
  }

  lemma MoveOne(p: multiset<nat>, w: multiset<nat>, d: multiset<nat>, e: multiset<nat>, x: multiset<nat>, n: multiset<nat>)
    ensures p + (w + n) + d + (e + x) == (p + (w + x) + d + e) + n
  {
  }

  lemma PushConserves(h: History, limit: Limit, f: Frame)
    requires Conserved(h)
    ensures Conserved(Apply(h, limit, Push(f)))
  {
    var t := Apply(h, limit, Push(f));
    var n: nat := |h.pushed|;
    MultisetSnoc(Places(n), n);
    assert Places(|t.pushed|) == Places(n) + [n] && t.popped == h.popped && t.discarded == h.discarded;
    if |h.held| >= limit {
      assert t.held == Without(h.held, Victim(Held(h))) + [n] && t.evicted == h.evicted + [h.held[Victim(Held(h))]];
      EvictionConserves(h.held, Victim(Held(h)), h.evicted, multiset(h.popped), multiset(h.discarded), n);
    } else {
      MultisetSnoc(h.held, n);
      MoveOne(multiset(h.popped), multiset(h.held), multiset(h.discarded), multiset(h.evicted), multiset{}, multiset([n]));
    }
  }

  lemma EvictionConserves(held: seq<nat>, v: nat, evicted: seq<nat>, p: multiset<nat>, d: multiset<nat>, n: nat)
    requires v < |held|
    ensures p + multiset(Without(held, v) + [n]) + d + multiset(evicted + [held[v]])
         == (p + multiset(held) + d + multiset(evicted)) + multiset([n])
  {
    MultisetWithout(held, v);
    MultisetSnoc(Without(held, v), n);
    MultisetSnoc(evicted, held[v]);
    MoveOne(p, multiset(Without(held, v)), d, multiset(evicted), multiset([held[v]]), multiset([n]));
  }

  lemma PopConserves(h: History, limit: Limit)
    requires Conserved(h)
    ensures Conserved(Apply(h, limit, Pop))
  {
    if h.held != [] {
      MultisetWithout(h.held, 0);
      assert Without(h.held, 0) == h.held[1..];
      MultisetSnoc(h.popped, h.held[0]);
    }
  }

  lemma DiscardConserves(h: History, limit: Limit)
    requires Conserved(h)
    ensures Conserved(Apply(h, limit, Discard))
  {
    assert multiset(h.discarded + h.held) == multiset(h.discarded) + multiset(h.held);
  }

  lemma {:induction false} EveryRunConserves(limit: Limit, ops: seq<Op>)
    ensures Conserved(After(limit, ops))
  {
    if ops != [] {
      var before := After(limit, ops[..|ops| - 1]);
      EveryRunConserves(limit, ops[..|ops| - 1]);
      match ops[|ops| - 1]
      case Push(f) => PushConserves(before, limit, f);
      case Pop => PopConserves(before, limit);
      case Discard => DiscardConserves(before, limit);
    }
  }

  // ---- order and eviction

  /** A subsequence stays increasing, and a larger place can be added at its end. */
  lemma IncreasingWithout(before: seq<nat>, held: seq<nat>, v: nat, n: nat)
    requires Increasing(before + held) && v < |held|
    requires forall i :: 0 <= i < |before + held| ==> (before + held)[i] < n
    ensures Increasing(before + (Without(held, v) + [n]))
  {
    var was, now := before + held, before + (Without(held, v) + [n]);
    var cut := |before| + v;
    forall i, j | 0 <= i < j < |now|
      ensures now[i] < now[j]
    {
      assert now[i] == was[if i < cut then i else i + 1];
      assert now[j] == if j < cut then was[j] else if j < |was| - 1 then was[j + 1] else n;
    }
  }

  /** What is given up is audio unless only signals are held, and no held audio is older. */
  lemma VictimIsOldestAudio(h: History, limit: Limit)
    requires Ordered(h, limit) && h.held != []
    ensures var at := h.held[Victim(Held(h))];
            if Audio(h, at) then forall j :: 0 <= j < |h.held| && Audio(h, h.held[j]) ==> at <= h.held[j]
            else forall j :: 0 <= j < |h.held| ==> !Audio(h, h.held[j])
  {
    var v, first := Victim(Held(h)), FirstAudio(Held(h), 0);
    var both := h.popped + h.held;
    forall j | 0 <= j < |h.held|
      ensures Audio(h, h.held[j]) <==> !Signal(Held(h)[j])
      ensures v <= j ==> h.held[v] <= h.held[j]
    {
      assert both[|h.popped| + j] == h.held[j] && both[|h.popped| + v] == h.held[v];
    }
  }

  lemma PushKeepsOrder(h: History, limit: Limit, f: Frame)
    requires Ordered(h, limit)
    ensures Ordered(Apply(h, limit, Push(f)), limit)
  {
    var t := Apply(h, limit, Push(f));
    var n: nat := |h.pushed|;
    var both := h.popped + h.held;
    assert forall i :: 0 <= i < |both| ==> both[i] < n;
    assert forall at: nat :: at < n ==> (Audio(t, at) <==> Audio(h, at));
    if |h.held| >= limit {
      IncreasingWithout(h.popped, h.held, Victim(Held(h)), n);
      VictimIsOldestAudio(h, limit);
      EvictionIsOldest(h, limit, f);
    } else {
      assert t.popped + t.held == both + [n];
    }
  }

  lemma EvictionIsOldest(h: History, limit: Limit, f: Frame)
    requires Ordered(h, limit) && |h.held| == limit
    ensures var t := Apply(h, limit, Push(f));
            forall i, j :: 0 <= i < |t.evicted| && 0 <= j < |t.held| && Audio(t, t.evicted[i]) && Audio(t, t.held[j]) ==>
              t.evicted[i] < t.held[j]
  {
    var t := Apply(h, limit, Push(f));
    var v := Victim(Held(h));
    var both := h.popped + h.held;
    VictimIsOldestAudio(h, limit);
    forall i, j | 0 <= i < |t.evicted| && 0 <= j < |t.held| && Audio(t, t.evicted[i]) && Audio(t, t.held[j])
      ensures t.evicted[i] < t.held[j]
    {
      if j < |h.held| - 1 {
        var was := if j < v then j else j + 1;
        assert t.held[j] == h.held[was] && Audio(h, h.held[was]);
        assert both[|h.popped| + was] == h.held[was] && both[|h.popped| + v] == h.held[v];
        if i == |h.evicted| {
          assert t.evicted[i] == h.held[v] && Audio(h, h.held[v]);
        } else {
          assert t.evicted[i] == h.evicted[i] && Audio(h, h.evicted[i]);
        }
      }
    }
  }

  lemma PopKeepsOrder(h: History, limit: Limit)
    requires Ordered(h, limit)
    ensures Ordered(Apply(h, limit, Pop), limit)
  {
    if h.held != [] {
      var t := Apply(h, limit, Pop);
      assert t.popped + t.held == h.popped + h.held;
    }
  }

  lemma DiscardKeepsOrder(h: History, limit: Limit)
    requires Ordered(h, limit)
    ensures Ordered(Apply(h, limit, Discard), limit)
  {
    var both := h.popped + h.held;
    assert forall i :: 0 <= i < |h.popped| ==> both[i] == (h.popped + [])[i];
  }

  /** The bound, the order and the rule of eviction, over every run. */
  lemma {:induction false} EveryRunIsOrdered(limit: Limit, ops: seq<Op>)
    ensures Ordered(After(limit, ops), limit)
  {
    if ops != [] {
      var before := After(limit, ops[..|ops| - 1]);
      EveryRunIsOrdered(limit, ops[..|ops| - 1]);
      match ops[|ops| - 1]
      case Push(f) => PushKeepsOrder(before, limit, f);
      case Pop => PopKeepsOrder(before, limit);
      case Discard => DiscardKeepsOrder(before, limit);
    }
  }

  /** Nothing is counted twice and nothing is missing. */
  lemma {:induction false} FramesAreConserved(limit: Limit, ops: seq<Op>)
    ensures var h := After(limit, ops);
            |h.pushed| == |h.popped| + |h.held| + |h.discarded| + |h.evicted|
  {
    EveryRunConserves(limit, ops);
    var h := After(limit, ops);
    PlacesLength(|h.pushed|);
    assert |multiset(Places(|h.pushed|))| == |multiset(h.popped)| + |multiset(h.held)| + |multiset(h.discarded)| + |multiset(h.evicted)|;
  }

  lemma {:induction false} PlacesLength(n: nat)
    ensures |Places(n)| == n
  {
    if n > 0 {
      PlacesLength(n - 1);
    }
  }

  /** A frame with sound in it, as against one that only marks a beginning or an end. */
  ghost predicate HasSound(f: Frame) {
    f.ptt && f.samples != []
  }

  /**
   A push keeps the newest frame at the end. Where there is no room one frame
   goes: the first with sound in it, or the first of all when none has any.
   */
  lemma WhatAPushGivesUp(limit: Limit, ops: seq<Op>, f: Frame)
    ensures var h, t := After(limit, ops), After(limit, ops + [Push(f)]);
            && t.pushed == h.pushed + [f] && t.popped == h.popped && t.discarded == h.discarded
            && (|h.held| < limit ==> t.evicted == h.evicted && t.held == h.held + [|h.pushed|])
            && (|h.held| >= limit ==> exists v :: GivesUp(h, t, v) && IsFirstWithSound(h, v))
  {
    assert (ops + [Push(f)])[..|ops|] == ops;
    var h, t := After(limit, ops), After(limit, ops + [Push(f)]);
    EveryRunIsOrdered(limit, ops);
    if |h.held| >= limit {
      VictimIsFirstWithSound(h);
      assert GivesUp(h, t, Victim(Held(h)));
    }
  }

  lemma VictimIsFirstWithSound(h: History)
    requires h.held != []
    ensures IsFirstWithSound(h, Victim(Held(h)))
  {
    forall i | 0 <= i < |h.held| ensures HasSound(FrameAt(h, h.held[i])) <==> !Signal(Held(h)[i]) {
      assert Held(h)[i] == FrameAt(h, h.held[i]);
    }
  }

  ghost predicate GivesUp(h: History, t: History, v: int) {
    && 0 <= v < |h.held|
    && t.evicted == h.evicted + [h.held[v]]
    && t.held == h.held[..v] + h.held[v + 1..] + [|h.pushed|]
  }

  ghost predicate IsFirstWithSound(h: History, v: int) {
    && 0 <= v < |h.held|
    && if HasSound(FrameAt(h, h.held[v])) then forall i :: 0 <= i < v ==> !HasSound(FrameAt(h, h.held[i]))
       else v == 0 && forall i :: 0 <= i < |h.held| ==> !HasSound(FrameAt(h, h.held[i]))
  }
}
