/**
 The writer that records finished P25 calls: any number of goroutines calling
 write and stop, one worker, a mutex, a buffered channel and a channel closed
 when the worker is done. Every step a goroutine takes between two points where
 another may run is a step here.
 */
module CallWriter {
  import opened Wrappers

  type Thread = nat
  type Call = nat // which call it is; its contents are never looked at

  datatype Pc =
    | Idle
    | WantWrite(c: Call)
    | Checking(c: Call)   // in write, holding the mutex
    | Sending(c: Call)    // stopped was false
    | WriteDone           // about to unlock
    | WantStop
    | Stopping            // in stop, holding the mutex
    | Closing             // has set stopped
    | StopDone            // about to unlock
    | Awaiting            // waits for written to be closed
    | Stopped             // stop has returned

  datatype Worker = Receiving | Recording(c: Call) | Finished

  /** accepted and recorded list the calls put in the channel and those passed to record. */
  datatype World = World(
    pcs: map<Thread, Pc>, mutex: Option<Thread>,
    queue: seq<Call>, closed: bool, stopped: bool, panicked: bool,
    worker: Worker, written: bool,
    accepted: seq<Call>, recorded: seq<Call>)

  const FRESH := World(map[], None, [], false, false, false, Receiving, false, [], [])

  function PcOf(w: World, t: Thread): Pc {
    if t in w.pcs then w.pcs[t] else Idle
  }

  function At(w: World, t: Thread, pc: Pc): World {
    w.(pcs := w.pcs[t := pc])
  }

  // ---- what the goroutines and the worker do

  ghost predicate Begins(w: World, x: World, t: Thread) {
    PcOf(w, t) in {Idle, Stopped} && (x == At(w, t, WantStop) || exists c :: x == At(w, t, WantWrite(c)))
  }

  ghost predicate Locks(w: World, x: World, t: Thread) {
    && w.mutex == None
    && match PcOf(w, t)
       case WantWrite(c) => x == At(w, t, Checking(c)).(mutex := Some(t))
       case WantStop => x == At(w, t, Stopping).(mutex := Some(t))
       case _ => false
  }

  /** A select with a default: a send if there is room or a waiting receiver, else nothing. */
  ghost predicate Sends(w: World, x: World, room: nat, t: Thread) {
    && PcOf(w, t).Sending?
    && var c := PcOf(w, t).c;
       if w.closed then x == At(w, t, WriteDone).(panicked := true)
       else
         || (|w.queue| < room && x == At(w, t, WriteDone).(queue := w.queue + [c], accepted := w.accepted + [c]))
         || (room == 0 && w.worker == Receiving && x == At(w, t, WriteDone).(worker := Recording(c), accepted := w.accepted + [c]))
         || (|w.queue| >= room && x == At(w, t, WriteDone))
  }

  /** The steps of the holder of the mutex. */
  ghost predicate HolderSteps(w: World, x: World, room: nat, t: Thread) {
    match PcOf(w, t)
    case Checking(c) => x == At(w, t, if w.stopped then WriteDone else Sending(c))
    case Sending(_) => Sends(w, x, room, t)
    case WriteDone => x == At(w, t, Idle).(mutex := None)
    case Stopping => x == if w.stopped then At(w, t, StopDone) else At(w, t, Closing).(stopped := true)
    case Closing => x == At(w, t, StopDone).(closed := true, panicked := w.panicked || w.closed)
    case StopDone => x == At(w, t, Awaiting).(mutex := None)
    case _ => false
  }

  ghost predicate Returns(w: World, x: World, t: Thread) {
    PcOf(w, t) == Awaiting && w.written && x == At(w, t, Stopped)
  }

  /** range writes: what is queued is received even after the close. */
  ghost predicate Works(w: World, x: World) {
    match w.worker
    case Receiving =>
      if w.queue != [] then x == w.(worker := Recording(w.queue[0]), queue := w.queue[1..])
      else w.closed && x == w.(worker := Finished, written := true)
    case Recording(c) => x == w.(worker := Receiving, recorded := w.recorded + [c])
    case Finished => false
  }

  ghost predicate ThreadStep(w: World, x: World, room: nat, t: Thread) {
    Begins(w, x, t) || Locks(w, x, t) || HolderSteps(w, x, room, t) || Returns(w, x, t)
  }

  ghost predicate Step(w: World, x: World, room: nat) {
    Works(w, x) || exists t: Thread :: ThreadStep(w, x, room, t)
  }

  ghost predicate Run(run: seq<World>, room: nat) {
    && |run| > 0 && run[0] == FRESH
    && forall i :: 0 <= i < |run| - 1 ==> Step(run[i], run[i + 1], room)
  }

  // ---- the invariant

  predicate Holds(pc: Pc) {
    pc.Checking? || pc.Sending? || pc.WriteDone? || pc.Stopping? || pc.Closing? || pc.StopDone?
  }

  function InHand(w: World): seq<Call> {
    if w.worker.Recording? then [w.worker.c] else []
  }

  ghost predicate ThreadInv(w: World, t: Thread) {
    && (Holds(PcOf(w, t)) <==> w.mutex == Some(t))
    && (PcOf(w, t).Sending? ==> !w.stopped)
    && (PcOf(w, t) == Closing ==> w.stopped && !w.closed)
    && (PcOf(w, t) in {StopDone, Awaiting, Stopped} ==> w.stopped)
    && (PcOf(w, t) == Stopped ==> w.written)
  }

  ghost predicate Inv(w: World, room: nat) {
    && (forall t: Thread :: ThreadInv(w, t))
    && !w.panicked
    && (w.closed ==> w.stopped)
    && (w.stopped && !w.closed ==> w.mutex.Some? && PcOf(w, w.mutex.value) == Closing)
    && |w.queue| <= room
    && w.accepted == w.recorded + InHand(w) + w.queue
    && (w.written <==> w.worker == Finished)
    && (w.worker == Finished ==> w.closed && w.queue == [])
  }

  lemma WorkInv(w: World, x: World, room: nat)
    requires Inv(w, room) && Works(w, x)
    ensures Inv(x, room)
  {
    forall t: Thread ensures ThreadInv(x, t) {
      assert ThreadInv(w, t);
    }
  }

  lemma OutsideInv(w: World, x: World, room: nat, t: Thread)
    requires Inv(w, room) && (Begins(w, x, t) || Locks(w, x, t) || Returns(w, x, t))
    ensures Inv(x, room)
  {
    assert ThreadInv(w, t);
    forall u: Thread ensures ThreadInv(x, u) {
      assert ThreadInv(w, u);
    }
    if w.mutex.Some? {
      assert ThreadInv(w, w.mutex.value);
    }
  }

  lemma HolderInv(w: World, x: World, room: nat, t: Thread)
    requires Inv(w, room) && HolderSteps(w, x, room, t)
    ensures Inv(x, room)
  {
    assert ThreadInv(w, t);
    forall u: Thread ensures ThreadInv(x, u) {
      assert ThreadInv(w, u);
    }
  }

  lemma {:induction false} EveryRunInv(run: seq<World>, room: nat, i: nat)
    requires Run(run, room) && i < |run|
    ensures Inv(run[i], room)
  {
    if i > 0 {
      EveryRunInv(run, room, i - 1);
      var w, x := run[i - 1], run[i];
      if Works(w, x) {
        WorkInv(w, x, room);
      } else {
        var t: Thread :| ThreadStep(w, x, room, t);
        if HolderSteps(w, x, room, t) {
          HolderInv(w, x, room, t);
        } else {
          OutsideInv(w, x, room, t);
        }
      }
    }
  }

  // ---- the results

  /** No send meets a closed channel, and the channel is closed once. */
  lemma NeverPanics(run: seq<World>, room: nat, i: nat)
    requires Run(run, room) && i < |run|
    ensures !run[i].panicked
  {
    EveryRunInv(run, room, i);
  }

  /** Calls reach record in the order they were accepted, each of them once. */
  lemma RecordedInOrder(run: seq<World>, room: nat, i: nat)
    requires Run(run, room) && i < |run|
    ensures run[i].recorded <= run[i].accepted
    ensures run[i].accepted[|run[i].recorded|..] == InHand(run[i]) + run[i].queue
  {
    EveryRunInv(run, room, i);
  }

  /** When any stop returns, all that was accepted has been passed to record. */
  lemma StopReturnsAfterTheLast(run: seq<World>, room: nat, i: nat, t: Thread)
    requires Run(run, room) && i < |run| && PcOf(run[i], t) == Stopped
    ensures run[i].recorded == run[i].accepted
  {
    EveryRunInv(run, room, i);
    assert ThreadInv(run[i], t);
  }

  lemma StepAfterStopped(w: World, x: World, room: nat)
    requires Inv(w, room) && Step(w, x, room) && w.stopped
    ensures x.stopped && x.accepted == w.accepted
  {
    if !Works(w, x) {
      var t: Thread :| ThreadStep(w, x, room, t);
      assert ThreadInv(w, t);
    }
  }

  lemma StoppedStays(run: seq<World>, room: nat, j: nat)
    requires Run(run, room) && j + 1 < |run| && run[j].stopped
    ensures run[j + 1].stopped && run[j + 1].accepted == run[j].accepted
  {
    EveryRunInv(run, room, j);
    StepAfterStopped(run[j], run[j + 1], room);
  }

  /** Nothing is accepted after stopping. */
  lemma {:induction false} NothingAcceptedAfterStopping(run: seq<World>, room: nat, i: nat, j: nat)
    requires Run(run, room) && i <= j < |run| && run[i].stopped
    ensures run[j].stopped && run[j].accepted == run[i].accepted
    decreases j - i
  {
    if i < j {
      StoppedStays(run, room, i);
      NothingAcceptedAfterStopping(run, room, i + 1, j);
    }
  }

  /** How many steps the holder of the mutex takes before it gives it up. */
  function StepsToUnlock(pc: Pc): nat {
    match pc
    case Checking(_) => 3
    case Sending(_) => 2
    case WriteDone => 1
    case Stopping => 3
    case Closing => 2
    case StopDone => 1
    case _ => 0
  }

  /** Holding the mutex, neither write nor stop ever waits: not on the queue, and not on the worker. */
  lemma HolderNeverWaits(w: World, room: nat, t: Thread) returns (x: World)
    requires Inv(w, room) && w.mutex == Some(t)
    ensures HolderSteps(w, x, room, t)
    ensures StepsToUnlock(PcOf(x, t)) < StepsToUnlock(PcOf(w, t))
    ensures StepsToUnlock(PcOf(x, t)) == 0 <==> x.mutex == None
  {
    assert ThreadInv(w, t);
    match PcOf(w, t)
    case Checking(c) => x := At(w, t, if w.stopped then WriteDone else Sending(c));
    case Sending(c) =>
      x := if |w.queue| < room then At(w, t, WriteDone).(queue := w.queue + [c], accepted := w.accepted + [c])
      else At(w, t, WriteDone);
    case WriteDone => x := At(w, t, Idle).(mutex := None);
    case Stopping => x := if w.stopped then At(w, t, StopDone) else At(w, t, Closing).(stopped := true);
    case Closing => x := At(w, t, StopDone).(closed := true, panicked := w.panicked || w.closed);
    case StopDone => x := At(w, t, Awaiting).(mutex := None);
  }

  /** What the worker has left to do once the channel is closed. */
  function WorkLeft(w: World): nat {
    2 * |w.queue| + match w.worker { case Receiving => 1 case Recording(_) => 2 case Finished => 0 }
  }

  /** After the close the worker can always go on, and every step brings it nearer the end stop waits for. */
  lemma WorkerFinishes(w: World, room: nat) returns (x: World)
    requires Inv(w, room) && w.closed && !w.written
    ensures Works(w, x) && WorkLeft(x) < WorkLeft(w)
  {
    match w.worker
    case Receiving =>
      x := if w.queue != [] then w.(worker := Recording(w.queue[0]), queue := w.queue[1..])
      else w.(worker := Finished, written := true);
    case Recording(c) => x := w.(worker := Receiving, recorded := w.recorded + [c]);
  }

  /** A call is accepted exactly when nothing has been stopped and there is room, or a worker waiting, for it. */
  lemma AcceptedExactlyWhen(w: World, x: World, room: nat, t: Thread)
    requires Inv(w, room) && HolderSteps(w, x, room, t)
    ensures (PcOf(w, t).Checking? && w.stopped ==> PcOf(x, t) == WriteDone) && (PcOf(w, t).Checking? && !w.stopped ==> PcOf(x, t) == Sending(PcOf(w, t).c))
    ensures PcOf(w, t).Sending? && |w.queue| < room ==> x.accepted == w.accepted + [PcOf(w, t).c]
    ensures x.accepted != w.accepted ==>
              && PcOf(w, t).Sending? && !w.stopped && x.accepted == w.accepted + [PcOf(w, t).c]
              && (|w.queue| < room || (room == 0 && w.worker == Receiving))
  {
    assert ThreadInv(w, t);
  }

  /** Any goroutine may call write or stop, takes a free mutex, and returns from stop when the worker is done. */
  lemma EveryCallGoesOn(w: World, room: nat, t: Thread, c: Call)
    ensures PcOf(w, t) == Idle ==> Step(w, At(w, t, WantWrite(c)), room) && Step(w, At(w, t, WantStop), room)
    ensures w.mutex == None && PcOf(w, t) == WantWrite(c) ==> Step(w, At(w, t, Checking(c)).(mutex := Some(t)), room)
    ensures w.mutex == None && PcOf(w, t) == WantStop ==> Step(w, At(w, t, Stopping).(mutex := Some(t)), room)
    ensures PcOf(w, t) == Awaiting && w.written ==> Step(w, At(w, t, Stopped), room)
  {
    assert PcOf(w, t) == Idle ==> Begins(w, At(w, t, WantWrite(c)), t) && Begins(w, At(w, t, WantStop), t);
    assert PcOf(w, t) == Awaiting && w.written ==> ThreadStep(w, At(w, t, Stopped), room, t);
    assert w.mutex == None && PcOf(w, t) == WantWrite(c) ==> ThreadStep(w, At(w, t, Checking(c)).(mutex := Some(t)), room, t);
    assert w.mutex == None && PcOf(w, t) == WantStop ==> ThreadStep(w, At(w, t, Stopping).(mutex := Some(t)), room, t);
    assert PcOf(w, t) == Idle ==> ThreadStep(w, At(w, t, WantWrite(c)), room, t) && ThreadStep(w, At(w, t, WantStop), room, t);
  }
}
