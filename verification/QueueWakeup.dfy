/**
 The same queue under any number of goroutines. Each call is its locked section
 and, after the lock is given up, the signal it may owe; between the two any
 other call may run.
 */
module QueueWakeup {
  import opened AudioTypes
  import opened FrameQueue

  type Thread = nat

  /**
   waking holds the calls that have unlocked and not yet signalled; reading
   holds the readers that have received and not yet called Pop or Discard.
   ops is the order in which the locked sections ran.
   */
  datatype World = World(history: History, ops: seq<Op>, token: bool, waking: set<Thread>, reading: set<Thread>)

  const FRESH := World(EMPTY, [], false, {}, {})

  ghost function Locked(w: World, limit: Limit, op: Op): World
  {
    w.(history := Apply(w.history, limit, op), ops := w.ops + [op])
  }

  ghost predicate Free(w: World, t: Thread) {
    t !in w.waking && t !in w.reading
  }

  ghost predicate Pushes(w: World, x: World, limit: Limit, t: Thread, f: Frame)
  {
    Free(w, t) && x == Locked(w, limit, Push(f)).(waking := w.waking + {t})
  }

  /** A send into the one place of the channel, or nothing if it is taken. */
  ghost predicate Signals(w: World, x: World, t: Thread) {
    t in w.waking && x == w.(token := true, waking := w.waking - {t})
  }

  ghost predicate Receives(w: World, x: World, t: Thread) {
    Free(w, t) && w.token && x == w.(token := false, reading := w.reading + {t})
  }

  /** Pop owes a signal when it leaves frames behind. */
  ghost predicate Pops(w: World, x: World, limit: Limit, t: Thread)
  {
    && t !in w.waking
    && var after := Locked(w, limit, Pop).(reading := w.reading - {t});
       x == if after.history.held != [] then after.(waking := w.waking + {t}) else after
  }

  ghost predicate Discards(w: World, x: World, limit: Limit, t: Thread)
  {
    t !in w.waking && x == Locked(w, limit, Discard).(reading := w.reading - {t})
  }

  ghost predicate StepOf(w: World, x: World, limit: Limit, t: Thread)
  {
    || (exists f :: Pushes(w, x, limit, t, f))
    || Signals(w, x, t)
    || Receives(w, x, t)
    || Pops(w, x, limit, t)
    || Discards(w, x, limit, t)
  }

  ghost predicate Step(w: World, x: World, limit: Limit)
  {
    exists t: Thread :: StepOf(w, x, limit, t)
  }

  ghost predicate Run(run: seq<World>, limit: Limit)
  {
    && |run| > 0 && run[0] == FRESH
    && forall i :: 0 <= i < |run| - 1 ==> Step(run[i], run[i + 1], limit)
  }

  /** A frame is never left with nobody told of it. */
  ghost predicate NoLostWakeup(w: World) {
    w.history.held != [] ==> w.token || w.waking != {} || w.reading != {}
  }

  ghost predicate Inv(w: World, limit: Limit)
  {
    NoLostWakeup(w) && w.history == After(limit, w.ops)
  }

  lemma LockedIsNext(w: World, limit: Limit, op: Op)
    requires w.history == After(limit, w.ops)
    ensures Locked(w, limit, op).history == After(limit, Locked(w, limit, op).ops)
  {
    assert (w.ops + [op])[..|w.ops|] == w.ops;
  }

  lemma StepInv(w: World, x: World, limit: Limit)
    requires Inv(w, limit) && Step(w, x, limit)
    ensures Inv(x, limit)
  {
    var t: Thread :| StepOf(w, x, limit, t);
    if f :| Pushes(w, x, limit, t, f) {
      LockedIsNext(w, limit, Push(f));
      assert t in x.waking;
    } else if Receives(w, x, t) {
      assert t in x.reading;
    } else if Pops(w, x, limit, t) {
      LockedIsNext(w, limit, Pop);
      assert x.history.held != [] ==> t in x.waking;
    } else if Discards(w, x, limit, t) {
      LockedIsNext(w, limit, Discard);
    }
  }

  /** In every interleaving, and whatever has run is some order of whole calls. */
  lemma {:induction false} EveryRunInv(run: seq<World>, limit: Limit, i: nat)
    requires Run(run, limit) && i < |run|
    ensures NoLostWakeup(run[i]) && run[i].history == After(limit, run[i].ops)
  {
    if i > 0 {
      EveryRunInv(run, limit, i - 1);
      StepInv(run[i - 1], run[i], limit);
    }
  }

  /** So what the sequential queue promises holds of every interleaving. */
  lemma InterleavingsAreSound(run: seq<World>, limit: Limit, i: nat)
    requires Run(run, limit) && i < |run|
    ensures Conserved(run[i].history) && Ordered(run[i].history, limit)
  {
    EveryRunInv(run, limit, i);
    EveryRunConserves(limit, run[i].ops);
    EveryRunIsOrdered(limit, run[i].ops);
  }

  // ---- a reader that takes one frame each time it is told sees every frame

  /** Receive, pop, and signal if frames are left. */
  ghost function Round(w: World, limit: Limit): World
  {
    var after := Locked(w.(token := false), limit, Pop);
    if after.history.held != [] then after.(token := true) else after
  }

  lemma RoundIsSteps(w: World, limit: Limit, t: Thread) returns (run: seq<World>)
    requires w.token && w.waking == {} == w.reading
    ensures 3 <= |run| <= 4 && run[0] == w && run[|run| - 1] == Round(w, limit)
    ensures forall i :: 0 <= i < |run| - 1 ==> Step(run[i], run[i + 1], limit)
  {
    var received := w.(token := false, reading := {t});
    assert Receives(w, received, t) && StepOf(w, received, limit, t);
    var after := Locked(received, limit, Pop).(reading := {});
    if after.history.held != [] {
      var owed := after.(waking := {t});
      var done := after.(token := true);
      assert received.reading - {t} == {} && received.waking + {t} == {t} && owed.waking - {t} == {};
      assert Pops(received, owed, limit, t) && Signals(owed, done, t);
      assert StepOf(received, owed, limit, t) && StepOf(owed, done, limit, t);
      run := [w, received, owed, done];
    } else {
      assert received.reading - {t} == {};
      assert Pops(received, after, limit, t) && StepOf(received, after, limit, t);
      run := [w, received, after];
    }
  }

  ghost function Rounds(w: World, limit: Limit, n: nat): World
    decreases n
  {
    if n == 0 then w else Rounds(Round(w, limit), limit, n - 1)
  }

  /** From any quiet point of any run, n rounds hand over the n frames held, in order. */
  lemma {:induction false} ReaderSeesEveryFrame(w: World, limit: Limit)
    requires NoLostWakeup(w) && w.waking == {} == w.reading
    ensures var end := Rounds(w, limit, |w.history.held|);
            end.history.held == [] && end.history.popped == w.history.popped + w.history.held
    ensures forall n :: 0 <= n < |w.history.held| ==> Rounds(w, limit, n).token
    decreases |w.history.held|
  {
    if w.history.held != [] {
      var next := Round(w, limit);
      ReaderSeesEveryFrame(next, limit);
      assert w.history.popped + [w.history.held[0]] + w.history.held[1..] == w.history.popped + w.history.held;
      forall n | 0 <= n < |w.history.held|
        ensures Rounds(w, limit, n).token
      {
        if n > 0 {
          assert Rounds(w, limit, n) == Rounds(next, limit, n - 1);
        }
      }
    }
  }

  /** A goroutine with no call under way may push, and its signal is then owed. */
  lemma AnyoneMayPush(w: World, limit: Limit, t: Thread, f: Frame)
    requires Free(w, t)
    ensures exists x :: Step(w, x, limit) && x.ops == w.ops + [Push(f)] && x.history == Apply(w.history, limit, Push(f)) && t in x.waking
    ensures exists x :: Step(w, x, limit) && x.ops == w.ops + [Discard] && x.history == Apply(w.history, limit, Discard)
  {
    var x := Locked(w, limit, Push(f)).(waking := w.waking + {t});
    assert Pushes(w, x, limit, t, f) && StepOf(w, x, limit, t);
    var y := Locked(w, limit, Discard).(reading := w.reading - {t});
    assert Discards(w, y, limit, t) && StepOf(w, y, limit, t);
  }
}
