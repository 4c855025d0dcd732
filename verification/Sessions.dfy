/**
 The connector's loop around its sessions: what reaches the queue while nobody
 is connected is discarded, in the wait after a session and again when the next
 one opens.
 */
module Sessions {
  import opened AudioTypes
  import opened FrameQueue

  datatype Phase = LoggingOn | Pumping | Waiting

  /** A frame handed to the pump: its place among all frames, and how many had come when the session opened. */
  datatype Played = Played(at: nat, since: nat)

  /** ops is what has been done to the queue; discarded is the connector's own count. */
  datatype World = World(phase: Phase, history: History, ops: seq<Op>, since: nat, discarded: nat, played: seq<Played>)

  const BEGUN := World(LoggingOn, EMPTY, [], 0, 0, [])

  ghost function Does(w: World, limit: Limit, op: Op): World
  {
    w.(history := Apply(w.history, limit, op), ops := w.ops + [op])
  }

  /** Frames come in every phase. */
  ghost predicate Receives(w: World, x: World, limit: Limit, f: Frame)
  {
    x == Does(w, limit, Push(f))
  }

  /** drainFor: frames that come during the wait are thrown away and counted. */
  ghost predicate DrainsWhileWaiting(w: World, x: World, limit: Limit)
  {
    w.phase == Waiting && x == Does(w, limit, Discard).(discarded := w.discarded + |w.history.held|)
  }

  ghost predicate WaitEnds(w: World, x: World) {
    w.phase == Waiting && x == w.(phase := LoggingOn)
  }

  ghost predicate LogonFails(w: World, x: World) {
    w.phase == LoggingOn && x == w.(phase := Waiting)
  }

  /** What has gathered since the wait goes when the session opens. */
  ghost predicate SessionOpens(w: World, x: World, limit: Limit)
  {
    && w.phase == LoggingOn
    && x == Does(w, limit, Discard).(phase := Pumping, discarded := w.discarded + |w.history.held|, since := |w.history.pushed|)
  }

  ghost predicate PumpTakes(w: World, x: World, limit: Limit)
  {
    && w.phase == Pumping
    && x == if w.history.held == [] then Does(w, limit, Pop)
            else Does(w, limit, Pop).(played := w.played + [Played(w.history.held[0], w.since)])
  }

  ghost predicate SessionEnds(w: World, x: World) {
    w.phase == Pumping && x == w.(phase := Waiting)
  }

  ghost predicate Step(w: World, x: World, limit: Limit)
  {
    || (exists f :: Receives(w, x, limit, f))
    || DrainsWhileWaiting(w, x, limit)
    || WaitEnds(w, x)
    || LogonFails(w, x)
    || SessionOpens(w, x, limit)
    || PumpTakes(w, x, limit)
    || SessionEnds(w, x)
  }

  ghost predicate Run(run: seq<World>, limit: Limit)
  {
    && |run| > 0 && run[0] == BEGUN
    && forall i :: 0 <= i < |run| - 1 ==> Step(run[i], run[i + 1], limit)
  }

  ghost predicate Inv(w: World, limit: Limit)
  {
    && w.history == After(limit, w.ops)
    && w.since <= |w.history.pushed|
    && (w.phase == Pumping ==> forall i :: 0 <= i < |w.history.held| ==> w.since <= w.history.held[i])
    && (forall k :: 0 <= k < |w.played| ==> w.played[k].since <= w.played[k].at)
    && |w.played| == |w.history.popped|
    && (forall k :: 0 <= k < |w.played| ==> w.played[k].at == w.history.popped[k])
    && w.discarded == |w.history.discarded|
  }

  lemma DoesIsNext(w: World, limit: Limit, op: Op)
    requires w.history == After(limit, w.ops)
    ensures Does(w, limit, op).history == After(limit, Does(w, limit, op).ops)
  {
    assert (w.ops + [op])[..|w.ops|] == w.ops;
  }

  lemma PushKeepsInv(w: World, x: World, limit: Limit, f: Frame)
    requires Inv(w, limit) && Receives(w, x, limit, f)
    ensures Inv(x, limit)
  {
    DoesIsNext(w, limit, Push(f));
    forall i | 0 <= i < |x.history.held| && w.phase == Pumping
      ensures w.since <= x.history.held[i]
    {
      assert x.history.held[i] in w.history.held || x.history.held[i] == |w.history.pushed|;
    }
  }

  lemma StepKeepsInv(w: World, x: World, limit: Limit)
    requires Inv(w, limit) && Step(w, x, limit)
    ensures Inv(x, limit)
  {
    if f :| Receives(w, x, limit, f) {
      PushKeepsInv(w, x, limit, f);
    } else if DrainsWhileWaiting(w, x, limit) || SessionOpens(w, x, limit) {
      DoesIsNext(w, limit, Discard);
    } else if PumpTakes(w, x, limit) {
      DoesIsNext(w, limit, Pop);
    }
  }

  lemma {:induction false} EveryRunInv(run: seq<World>, limit: Limit, i: nat)
    requires Run(run, limit) && i < |run|
    ensures Inv(run[i], limit)
  {
    if i > 0 {
      EveryRunInv(run, limit, i - 1);
      StepKeepsInv(run[i - 1], run[i], limit);
    }
  }

  /** No frame that came before a session opened is ever given to its pump. */
  lemma NothingStaleIsPlayed(run: seq<World>, limit: Limit, i: nat, k: nat)
    requires Run(run, limit) && i < |run| && k < |run[i].played|
    ensures run[i].played[k].since <= run[i].played[k].at
  {
    EveryRunInv(run, limit, i);
  }

  /** Frames are played in the order they came, and every one is played, waiting, counted as discarded or lost. */
  lemma EveryFrameIsAccountedFor(run: seq<World>, limit: Limit, i: nat)
    requires Run(run, limit) && i < |run|
    ensures forall j, k :: 0 <= j < k < |run[i].played| ==> run[i].played[j].at < run[i].played[k].at
    ensures |run[i].history.pushed|
         == |run[i].played| + |run[i].history.held| + run[i].discarded + |run[i].history.evicted|
  {
    EveryRunInv(run, limit, i);
    var h := run[i].history;
    EveryRunIsOrdered(limit, run[i].ops);
    FramesAreConserved(limit, run[i].ops);
    assert forall k :: 0 <= k < |h.popped| ==> (h.popped + h.held)[k] == h.popped[k];
  }

  /** Frames come in every phase, and each phase can go on to the next. */
  lemma EveryPhaseGoesOn(w: World, limit: Limit, f: Frame)
    ensures exists x :: Step(w, x, limit) && x.history == Apply(w.history, limit, Push(f)) && x.phase == w.phase
    ensures w.phase == LoggingOn ==>
              exists x :: Step(w, x, limit) && x.phase == Pumping && x.history.held == [] && x.since == |w.history.pushed|
    ensures w.phase == Pumping && w.history.held != [] ==>
              exists x :: Step(w, x, limit) && x.played == w.played + [Played(w.history.held[0], w.since)] && x.history.held == w.history.held[1..]
    ensures w.phase == Pumping ==> Step(w, w.(phase := Waiting), limit)
    ensures w.phase == Waiting ==>
              && Step(w, w.(phase := LoggingOn), limit)
              && exists x :: Step(w, x, limit) && x.history.held == [] && x.discarded == w.discarded + |w.history.held|
  {
    var received := Does(w, limit, Push(f));
    assert Receives(w, received, limit, f);
    if w.phase == LoggingOn {
      var x := Does(w, limit, Discard).(phase := Pumping, discarded := w.discarded + |w.history.held|, since := |w.history.pushed|);
      assert SessionOpens(w, x, limit);
    } else if w.phase == Pumping && w.history.held != [] {
      var x := Does(w, limit, Pop).(played := w.played + [Played(w.history.held[0], w.since)]);
      assert PumpTakes(w, x, limit);
    } else if w.phase == Waiting {
      var x := Does(w, limit, Discard).(discarded := w.discarded + |w.history.held|);
      assert DrainsWhileWaiting(w, x, limit);
    }
  }
}
