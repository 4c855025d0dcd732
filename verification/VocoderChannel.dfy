/**
 One vocoder client shared by any number of goroutines, and a chip behind a link
 that may delay and lose. A reply carries nothing that says which request it
 answers, so attribution is a property of the protocol and not of the packets.
 */
module VocoderChannel {
  import opened Wrappers

  type Thread = nat

  /** What an exchange is for. */
  datatype Purpose = Rate | Init | Audio | Other

  datatype Pc =
    | Idle
    | Wants(what: Purpose)             // about to lock and send
    | Awaits(what: Purpose, request: nat) // holds the lock, has sent
    | Failing(mark: bool)              // an acquire that failed; mark when the answer itself was wrong

  datatype Reply = Reply(to: nat, accepted: bool)

  datatype Event =
    | Took(t: Thread)
    | Sent(t: Thread, what: Purpose, request: nat)
    | Received(t: Thread, what: Purpose, request: nat, reply: Reply, broken: bool)
    | Gave(t: Thread)

  /** calls holds the threads whose Acquire has succeeded and who have not released. */
  datatype World = World(
    holder: Option<Thread>, broken: bool, closed: bool, mutex: Option<Thread>,
    pcs: map<Thread, Pc>, calls: set<Thread>,
    toChip: seq<nat>, toClient: seq<Reply>, sent: nat,
    log: seq<Event>)

  const OPENED := World(None, false, false, None, map[], {}, [], [], 0, [])

  function PcOf(w: World, t: Thread): Pc {
    if t in w.pcs then w.pcs[t] else Idle
  }

  function At(w: World, t: Thread, pc: Pc): World {
    w.(pcs := w.pcs[t := pc])
  }

  function Logged(w: World, e: Event): World {
    w.(log := w.log + [e])
  }

  // ---- what a goroutine does

  /** The compare-and-swap of Acquire, which does nothing where there is a holder. */
  ghost predicate Takes(w: World, x: World, t: Thread) {
    && PcOf(w, t) == Idle && t !in w.calls
    && if w.holder.None? then x == Logged(At(w, t, Wants(Rate)).(holder := Some(t)), Took(t)) else x == w
  }

  /** Encode or Decode by a call that holds the channel; the client only checks that somebody does. */
  ghost predicate Offers(w: World, x: World, t: Thread) {
    && PcOf(w, t) == Idle && t in w.calls
    && x == if w.holder.Some? then At(w, t, Wants(Audio)) else w
  }

  /** AskForDecoderFlags needs no hold. */
  ghost predicate Asks(w: World, x: World, t: Thread) {
    PcOf(w, t) == Idle && x == At(w, t, Wants(Other))
  }

  function Failed(w: World, t: Thread, what: Purpose): World {
    At(w.(broken := true), t, if what == Rate || what == Init then Failing(false) else Idle)
  }

  ghost function OnTheWire(w: World, t: Thread, what: Purpose): World {
    Logged(At(w, t, Awaits(what, w.sent)).(mutex := Some(t), toChip := w.toChip + [w.sent], sent := w.sent + 1),
           Sent(t, what, w.sent))
  }

  /** A deadline that cannot be set, or a write that fails, marks the client inside the lock. */
  ghost predicate Sends(w: World, x: World, t: Thread) {
    && PcOf(w, t).Wants? && w.mutex.None?
    && var what := PcOf(w, t).what;
       || x == Failed(w, t, what)
       || (!w.closed
           && x == OnTheWire(w, t, what))
  }

  /** The deadline passes, or the connection is closed under the read. */
  ghost predicate TimesOut(w: World, x: World, t: Thread) {
    PcOf(w, t).Awaits? && x == Failed(w, t, PcOf(w, t).what).(mutex := None)
  }

  function After(w: World, t: Thread, what: Purpose, reply: Reply): World {
    match what
    case Rate => At(w, t, if reply.accepted then Wants(Init) else Failing(true))
    case Init => At(w, t, Idle).(calls := w.calls + {t})
    case _ => At(w, t, Idle)
  }

  /** Whatever datagram is next is taken for the reply. */
  ghost predicate Receives(w: World, x: World, t: Thread) {
    && PcOf(w, t).Awaits? && w.toClient != [] && !w.closed
    && var what, request, reply := PcOf(w, t).what, PcOf(w, t).request, w.toClient[0];
       x == Logged(After(w.(mutex := None, toClient := w.toClient[1..]), t, what, reply),
                   Received(t, what, request, reply, w.broken))
  }

  /** The failing acquire clears the holder, whoever that is by now. */
  ghost predicate GivesUp(w: World, x: World, t: Thread) {
    && PcOf(w, t).Failing?
    && x == Logged(At(w, t, Idle).(holder := None, broken := w.broken || PcOf(w, t).mark), Gave(t))
  }

  ghost predicate Releases(w: World, x: World, t: Thread) {
    PcOf(w, t) == Idle && t in w.calls && x == Logged(w.(holder := None, calls := w.calls - {t}), Gave(t))
  }

  ghost predicate ThreadStep(w: World, x: World, t: Thread) {
    || Takes(w, x, t) || Offers(w, x, t) || Asks(w, x, t) || Sends(w, x, t)
    || TimesOut(w, x, t) || Receives(w, x, t) || GivesUp(w, x, t) || Releases(w, x, t)
  }

  // ---- what the chip, the link and the supervisor do

  /** The chip answers each packet once, in the order they came. */
  ghost predicate Answers(w: World, x: World) {
    w.toChip != [] && exists accepted :: x == w.(toChip := w.toChip[1..], toClient := w.toClient + [Reply(w.toChip[0], accepted)])
  }

  ghost predicate Loses(w: World, x: World) {
    || (exists i :: 0 <= i < |w.toChip| && x == w.(toChip := w.toChip[..i] + w.toChip[i + 1..]))
    || (exists i :: 0 <= i < |w.toClient| && x == w.(toClient := w.toClient[..i] + w.toClient[i + 1..]))
  }

  /** Close first releases, as if it held the channel, and then closes the socket. */
  ghost predicate CloseReleases(w: World, x: World) {
    x == w.(holder := None)
  }

  ghost predicate SocketCloses(w: World, x: World) {
    x == w.(closed := true)
  }

  /** Every step but the supervisor's release. */
  ghost predicate Step(w: World, x: World) {
    Answers(w, x) || Loses(w, x) || SocketCloses(w, x) || exists t: Thread :: ThreadStep(w, x, t)
  }

  ghost predicate Run(run: seq<World>) {
    && |run| > 0 && run[0] == OPENED
    && forall i :: 0 <= i < |run| - 1 ==> Step(run[i], run[i + 1]) || CloseReleases(run[i], run[i + 1])
  }

  /** The release inside Close takes the channel from nobody, or from a client whose socket is closed already. */
  ghost predicate TakesFromNobody(w: World, x: World) {
    CloseReleases(w, x) && (w.holder.None? || w.closed)
  }

  ghost predicate Harmless(run: seq<World>) {
    forall i :: 0 <= i < |run| - 1 ==> Step(run[i], run[i + 1]) || TakesFromNobody(run[i], run[i + 1])
  }

  // ---- attribution

  /** The numbers on the wire that are not yet answered or read. */
  function Outstanding(w: World): nat {
    |w.toChip| + |w.toClient|
  }

  /** The lock is held exactly by the thread that awaits a reply. */
  ghost predicate LockInv(w: World) {
    forall t: Thread :: PcOf(w, t).Awaits? <==> w.mutex == Some(t)
  }

  /** The wire carries at most the one request that is awaited. */
  ghost predicate Quiet(w: World) {
    if w.mutex.None? then Outstanding(w) == 0
    else
      && PcOf(w, w.mutex.value).Awaits?
      && Outstanding(w) <= 1
      && (forall i :: 0 <= i < |w.toChip| ==> w.toChip[i] == PcOf(w, w.mutex.value).request)
      && (forall i :: 0 <= i < |w.toClient| ==> w.toClient[i].to == PcOf(w, w.mutex.value).request)
  }

  ghost predicate Attributed(log: seq<Event>) {
    forall k :: 0 <= k < |log| && log[k].Received? && !log[k].broken ==> log[k].reply.to == log[k].request
  }

  ghost predicate WireInv(w: World) {
    LockInv(w) && (!w.broken ==> Quiet(w)) && Attributed(w.log)
  }

  /** The log with at most one more event, which is no answer. */
  ghost predicate NoNewAnswer(w: World, x: World) {
    x.log == w.log || (|x.log| == |w.log| + 1 && x.log[..|w.log|] == w.log && !x.log[|w.log|].Received?)
  }

  lemma SameAnswers(w: World, x: World)
    requires NoNewAnswer(w, x)
    ensures forall k :: 0 <= k < |x.log| && x.log[k].Received? ==> k < |w.log| && x.log[k] == w.log[k]
  {
    forall k | 0 <= k < |w.log| ensures k < |x.log| && x.log[k] == w.log[k] {
      assert x.log[..|w.log|][k] == x.log[k];
    }
  }

  /** A step outside the lock: the thread's own pc, and nothing on the wire. */
  ghost predicate Outside(w: World, x: World, t: Thread) {
    && !PcOf(w, t).Awaits? && !PcOf(x, t).Awaits?
    && (forall u: Thread :: u != t ==> PcOf(x, u) == PcOf(w, u))
    && x.mutex == w.mutex && x.toChip == w.toChip && x.toClient == w.toClient && x.sent == w.sent
    && (!x.broken ==> !w.broken)
    && NoNewAnswer(w, x)
  }

  /** What a thread's step is, as far as the wire is concerned. */
  lemma ThreadKinds(w: World, x: World, t: Thread)
    requires ThreadStep(w, x, t)
    ensures || Outside(w, x, t)
            || (PcOf(w, t).Wants? && w.mutex.None? && x == OnTheWire(w, t, PcOf(w, t).what))
            || TimesOut(w, x, t)
            || Receives(w, x, t)
  {
    if Takes(w, x, t) || Offers(w, x, t) || Asks(w, x, t) {
    } else if GivesUp(w, x, t) || Releases(w, x, t) {
    } else if Sends(w, x, t) && x == Failed(w, t, PcOf(w, t).what) {
    }
  }

  lemma OutsideKeepsWire(w: World, x: World, t: Thread)
    requires WireInv(w) && Outside(w, x, t)
    ensures WireInv(x)
  {
    forall u: Thread ensures PcOf(x, u).Awaits? <==> x.mutex == Some(u) {
      assert PcOf(w, u).Awaits? <==> w.mutex == Some(u);
    }
    SameAnswers(w, x);
  }

  lemma SentKeepsWire(w: World, t: Thread)
    requires WireInv(w) && PcOf(w, t).Wants? && w.mutex.None?
    ensures WireInv(OnTheWire(w, t, PcOf(w, t).what))
  {
    var x := OnTheWire(w, t, PcOf(w, t).what);
    forall u: Thread ensures PcOf(x, u).Awaits? <==> x.mutex == Some(u) {
      assert PcOf(w, u).Awaits? <==> w.mutex == Some(u);
    }
    SameAnswers(w, x);
  }

  lemma TimesOutKeepsWire(w: World, x: World, t: Thread)
    requires WireInv(w) && TimesOut(w, x, t)
    ensures WireInv(x)
  {
    forall u: Thread ensures PcOf(x, u).Awaits? <==> x.mutex == Some(u) {
      assert PcOf(w, u).Awaits? <==> w.mutex == Some(u);
    }
  }

  lemma ReceivesKeepsWire(w: World, x: World, t: Thread)
    requires WireInv(w) && Receives(w, x, t)
    ensures WireInv(x)
  {
    forall u: Thread ensures PcOf(x, u).Awaits? <==> x.mutex == Some(u) {
      assert PcOf(w, u).Awaits? <==> w.mutex == Some(u);
    }
    assert w.mutex == Some(t);
  }

  lemma ThreadKeepsWire(w: World, x: World, t: Thread)
    requires WireInv(w) && ThreadStep(w, x, t)
    ensures WireInv(x)
  {
    ThreadKinds(w, x, t);
    if Outside(w, x, t) {
      OutsideKeepsWire(w, x, t);
    } else if TimesOut(w, x, t) {
      TimesOutKeepsWire(w, x, t);
    } else if Receives(w, x, t) {
      ReceivesKeepsWire(w, x, t);
    } else {
      SentKeepsWire(w, t);
    }
  }

  /** Steps that touch no goroutine and no lock. */
  lemma SameThreadsKeepLock(w: World, x: World)
    requires LockInv(w) && x.pcs == w.pcs && x.mutex == w.mutex
    ensures LockInv(x)
  {
    forall u: Thread ensures PcOf(x, u).Awaits? <==> x.mutex == Some(u) {
      assert PcOf(w, u).Awaits? <==> w.mutex == Some(u);
    }
  }

  lemma AnswersKeepWire(w: World, x: World)
    requires WireInv(w) && Answers(w, x)
    ensures WireInv(x)
  {
    SameThreadsKeepLock(w, x);
  }

  lemma LosesKeepWire(w: World, x: World)
    requires WireInv(w) && Loses(w, x)
    ensures WireInv(x)
  {
    SameThreadsKeepLock(w, x);
    if !w.broken {
      assert Outstanding(w) <= 1;
    }
  }

  lemma CloseKeepsWire(w: World, x: World)
    requires WireInv(w) && (SocketCloses(w, x) || CloseReleases(w, x))
    ensures WireInv(x)
  {
    SameThreadsKeepLock(w, x);
  }

  lemma {:induction false} EveryRunKeepsWire(run: seq<World>, i: nat)
    requires Run(run) && i < |run|
    ensures WireInv(run[i])
  {
    if i > 0 {
      EveryRunKeepsWire(run, i - 1);
      var w, x := run[i - 1], run[i];
      if t: Thread :| ThreadStep(w, x, t) {
        ThreadKeepsWire(w, x, t);
      } else if Answers(w, x) {
        AnswersKeepWire(w, x);
      } else if Loses(w, x) {
        LosesKeepWire(w, x);
      } else {
        CloseKeepsWire(w, x);
      }
    }
  }

  /** A reply taken by a client that had not failed answers the request it was taken for. */
  lemma RepliesAreAttributed(run: seq<World>, i: nat, k: nat)
    requires Run(run) && i < |run| && k < |run[i].log| && run[i].log[k].Received? && !run[i].log[k].broken
    ensures run[i].log[k].reply.to == run[i].log[k].request
  {
    EveryRunKeepsWire(run, i);
  }

  // ---- one call at a time, and ready before its first frame

  /** How far the call that holds the channel has come, told from the log alone. */
  datatype Progress =
    | NoCall
    | Begun(t: Thread)
    | RateSent(t: Thread, request: nat)
    | RateSet(t: Thread)
    | InitSent(t: Thread, request: nat)
    | Ready(t: Thread)

  function Next(p: Progress, e: Event): Progress {
    match e
    case Took(t) => Begun(t)
    case Sent(t, Rate, request) => if p == Begun(t) then RateSent(t, request) else p
    case Received(t, Rate, request, reply, _) => if p == RateSent(t, request) && reply.accepted then RateSet(t) else p
    case Sent(t, Init, request) => if p == RateSet(t) then InitSent(t, request) else p
    case Received(t, Init, request, _, _) => if p == InitSent(t, request) then Ready(t) else p
    case Gave(_) => NoCall
    case _ => p
  }

  function ProgressOf(log: seq<Event>): Progress {
    if log == [] then NoCall else Next(ProgressOf(log[..|log| - 1]), log[|log| - 1])
  }

  ghost predicate FramesAreReady(log: seq<Event>) {
    forall k :: 0 <= k < |log| && log[k].Sent? && log[k].what == Audio ==> ProgressOf(log[..k]) == Ready(log[k].t)
  }

  predicate Acquiring(pc: Pc) {
    match pc
    case Wants(what) => what == Rate || what == Init
    case Awaits(what, _) => what == Rate || what == Init
    case Failing(_) => true
    case Idle => false
  }

  /** A purpose together with what the log says of the call that has it. */
  predicate Fits(pc: Pc, t: Thread, p: Progress) {
    match pc
    case Wants(Rate) => p == Begun(t)
    case Awaits(Rate, request) => p == RateSent(t, request)
    case Wants(Init) => p == RateSet(t)
    case Awaits(Init, request) => p == InitSent(t, request)
    case _ => true
  }

  ghost predicate CallInv(w: World) {
    && (forall t: Thread :: Acquiring(PcOf(w, t)) || t in w.calls <==> w.holder == Some(t))
    && (forall t: Thread :: !(Acquiring(PcOf(w, t)) && t in w.calls))
    && (forall t: Thread :: Fits(PcOf(w, t), t, ProgressOf(w.log)))
    && (forall t: Thread :: t in w.calls ==> ProgressOf(w.log) == Ready(t))
    && (forall t: Thread :: PcOf(w, t) == Wants(Audio) || (PcOf(w, t).Awaits? && PcOf(w, t).what == Audio) ==> t in w.calls)
    && FramesAreReady(w.log)
  }

  lemma LogOneMore(log: seq<Event>, e: Event)
    requires FramesAreReady(log)
    requires e.Sent? && e.what == Audio ==> ProgressOf(log) == Ready(e.t)
    ensures ProgressOf(log + [e]) == Next(ProgressOf(log), e)
    ensures FramesAreReady(log + [e])
  {
    var all := log + [e];
    assert all[..|log|] == log;
    forall k | 0 <= k < |all| && all[k].Sent? && all[k].what == Audio
      ensures ProgressOf(all[..k]) == Ready(all[k].t)
    {
      assert k < |log| ==> all[k] == log[k] && all[..k] == log[..k];
    }
  }

  /** What the invariant says of the thread that steps, and of all the others. */
  lemma CallFacts(w: World, t: Thread)
    requires CallInv(w)
    ensures Acquiring(PcOf(w, t)) || t in w.calls <==> w.holder == Some(t)
    ensures !(Acquiring(PcOf(w, t)) && t in w.calls)
    ensures Fits(PcOf(w, t), t, ProgressOf(w.log))
    ensures t in w.calls ==> ProgressOf(w.log) == Ready(t)
    ensures PcOf(w, t) == Wants(Audio) || (PcOf(w, t).Awaits? && PcOf(w, t).what == Audio) ==> t in w.calls
    ensures w.holder == Some(t) ==> forall u: Thread :: u != t ==> !Acquiring(PcOf(w, u)) && u !in w.calls
  {
    forall u: Thread | u != t && w.holder == Some(t)
      ensures !Acquiring(PcOf(w, u)) && u !in w.calls
    {
      assert Acquiring(PcOf(w, u)) || u in w.calls <==> w.holder == Some(u);
    }
  }

  lemma TakesKeepsCalls(w: World, x: World, t: Thread)
    requires CallInv(w) && Takes(w, x, t)
    ensures CallInv(x)
  {
    CallFacts(w, t);
    if w.holder.None? {
      LogOneMore(w.log, Took(t));
      forall u: Thread ensures !Acquiring(PcOf(w, u)) && u !in w.calls {
        CallFacts(w, u);
      }
    }
  }

  lemma OffersKeepsCalls(w: World, x: World, t: Thread)
    requires CallInv(w) && (Offers(w, x, t) || Asks(w, x, t))
    ensures CallInv(x)
  {
    CallFacts(w, t);
  }

  lemma FailedKeepsCalls(w: World, t: Thread, what: Purpose)
    requires CallInv(w) && (PcOf(w, t) == Wants(what) || (PcOf(w, t).Awaits? && PcOf(w, t).what == what))
    ensures CallInv(Failed(w, t, what))
  {
    CallFacts(w, t);
  }

  lemma SentKeepsCalls(w: World, t: Thread, what: Purpose)
    requires CallInv(w) && PcOf(w, t) == Wants(what)
    ensures CallInv(OnTheWire(w, t, what))
  {
    var x := OnTheWire(w, t, what);
    CallFacts(w, t);
    LogOneMore(w.log, Sent(t, what, w.sent));
    forall u: Thread | u != t ensures PcOf(x, u) == PcOf(w, u) {
      CallFacts(w, u);
    }
  }

  lemma TimesOutKeepsCalls(w: World, x: World, t: Thread)
    requires CallInv(w) && TimesOut(w, x, t)
    ensures CallInv(x)
  {
    FailedKeepsCalls(w, t, PcOf(w, t).what);
  }

  lemma ReceivesKeepsCalls(w: World, x: World, t: Thread)
    requires CallInv(w) && Receives(w, x, t)
    ensures CallInv(x)
  {
    CallFacts(w, t);
    LogOneMore(w.log, Received(t, PcOf(w, t).what, PcOf(w, t).request, w.toClient[0], w.broken));
  }

  lemma GivesUpKeepsCalls(w: World, x: World, t: Thread)
    requires CallInv(w) && GivesUp(w, x, t)
    ensures CallInv(x)
  {
    CallFacts(w, t);
    LogOneMore(w.log, Gave(t));
  }

  lemma ReleasesKeepsCalls(w: World, x: World, t: Thread)
    requires CallInv(w) && Releases(w, x, t)
    ensures CallInv(x)
  {
    CallFacts(w, t);
    LogOneMore(w.log, Gave(t));
  }

  lemma ThreadKeepsCalls(w: World, x: World, t: Thread)
    requires CallInv(w) && ThreadStep(w, x, t)
    ensures CallInv(x)
  {
    if Takes(w, x, t) {
      TakesKeepsCalls(w, x, t);
    } else if Offers(w, x, t) || Asks(w, x, t) {
      OffersKeepsCalls(w, x, t);
    } else if Sends(w, x, t) {
      var what := PcOf(w, t).what;
      if x == Failed(w, t, what) {
        FailedKeepsCalls(w, t, what);
      } else {
        SentKeepsCalls(w, t, what);
      }
    } else if TimesOut(w, x, t) {
      TimesOutKeepsCalls(w, x, t);
    } else if Receives(w, x, t) {
      ReceivesKeepsCalls(w, x, t);
    } else if GivesUp(w, x, t) {
      GivesUpKeepsCalls(w, x, t);
    } else {
      ReleasesKeepsCalls(w, x, t);
    }
  }

  ghost predicate AtMostOne(calls: set<Thread>) {
    forall t, u :: t in calls && u in calls ==> t == u
  }

  /** Once the socket is closed who holds the channel no longer matters: nobody can come to have it. */
  ghost predicate OneCallInv(w: World) {
    AtMostOne(w.calls) && FramesAreReady(w.log) && (!w.closed ==> CallInv(w))
  }

  lemma CallInvMeansOne(w: World)
    requires CallInv(w)
    ensures OneCallInv(w)
  {
    forall t, u | t in w.calls && u in w.calls ensures t == u {
      CallFacts(w, t);
      CallFacts(w, u);
    }
  }

  lemma ClosedStaysClosed(w: World, x: World)
    requires w.closed && OneCallInv(w) && (Step(w, x) || CloseReleases(w, x))
    ensures x.closed && OneCallInv(x)
  {
    if t: Thread :| ThreadStep(w, x, t) {
      ClosedThread(w, x, t);
    }
  }

  lemma ClosedThread(w: World, x: World, t: Thread)
    requires w.closed && OneCallInv(w) && ThreadStep(w, x, t)
    ensures x.closed && OneCallInv(x)
  {
    LogOneMore(w.log, Took(t));
    LogOneMore(w.log, Gave(t));
    assert x.calls <= w.calls && (x.log == w.log || x.log == w.log + [Took(t)] || x.log == w.log + [Gave(t)]);
  }

  /** Steps of the chip and the link leave every goroutine where it was. */
  lemma ElsewhereKeepsCalls(w: World, x: World)
    requires CallInv(w) && x.pcs == w.pcs && x.calls == w.calls && x.holder == w.holder && x.log == w.log
    ensures CallInv(x)
  {
    forall u: Thread ensures PcOf(x, u) == PcOf(w, u) {
    }
  }

  lemma {:induction false} EveryRunKeepsCalls(run: seq<World>, i: nat)
    requires Run(run) && Harmless(run) && i < |run|
    ensures OneCallInv(run[i])
  {
    if i == 0 {
      CallInvMeansOne(OPENED);
    } else {
      EveryRunKeepsCalls(run, i - 1);
      var w, x := run[i - 1], run[i];
      if w.closed {
        ClosedStaysClosed(w, x);
      } else {
        if t: Thread :| ThreadStep(w, x, t) {
          ThreadKeepsCalls(w, x, t);
        } else {
          ElsewhereKeepsCalls(w, x);
        }
        CallInvMeansOne(x);
      }
    }
  }

  /** At most one call has the channel, and while the socket is open it is the holder. */
  lemma OneCallAtATime(run: seq<World>, i: nat, t: Thread, u: Thread)
    requires Run(run) && Harmless(run) && i < |run|
    requires t in run[i].calls && u in run[i].calls
    ensures t == u && (!run[i].closed ==> run[i].holder == Some(t))
  {
    EveryRunKeepsCalls(run, i);
    if !run[i].closed {
      CallFacts(run[i], t);
    }
  }

  /** The places in a log of a call taking hold, its two exchanges, and the frame they come before. */
  datatype Setup = Setup(took: nat, rateSent: nat, rateSet: nat, initSent: nat, ready: nat)

  predicate IsTake(log: seq<Event>, t: Thread, a: nat) {
    a < |log| && log[a] == Took(t)
  }

  /** A request sent by this call and the answer it took for it. */
  predicate IsExchange(log: seq<Event>, t: Thread, what: Purpose, sent: nat, received: nat) {
    && sent < received < |log|
    && log[sent].Sent? && log[sent].t == t && log[sent].what == what
    && log[received].Received? && log[received].t == t && log[received].what == what
    && log[received].request == log[sent].request
  }

  /** No call takes or gives the channel after this place. */
  predicate Undisturbed(log: seq<Event>, a: nat) {
    forall k :: a < k < |log| ==> !log[k].Took? && !log[k].Gave?
  }

  predicate IsSetup(log: seq<Event>, t: Thread, s: Setup) {
    && IsTake(log, t, s.took) && Undisturbed(log, s.took)
    && s.took < s.rateSent && s.rateSet < s.initSent
    && IsExchange(log, t, Rate, s.rateSent, s.rateSet) && log[s.rateSet].reply.accepted
    && IsExchange(log, t, Init, s.initSent, s.ready)
  }

  /**
   Every frame follows, within its own call, a rate that was sent and accepted
   and an init sent after that and answered; and while the client was not
   marked each of the two answers was the answer to its own request.
   */
  lemma FramesFollowRateAndInit(run: seq<World>, i: nat, k: nat) returns (s: Setup)
    requires Run(run) && Harmless(run) && i < |run|
    requires k < |run[i].log| && run[i].log[k].Sent? && run[i].log[k].what == Audio
    ensures IsSetup(run[i].log[..k], run[i].log[k].t, s)
    ensures !run[i].log[s.rateSet].broken ==> run[i].log[s.rateSet].reply.to == run[i].log[s.rateSent].request
    ensures !run[i].log[s.ready].broken ==> run[i].log[s.ready].reply.to == run[i].log[s.initSent].request
  {
    EveryRunKeepsCalls(run, i);
    s := ReadyMeans(run[i].log[..k], run[i].log[k].t);
    EveryRunKeepsWire(run, i);
  }

  /** What readiness means, told from the log alone. */
  lemma {:induction false} ReadyMeans(log: seq<Event>, t: Thread) returns (s: Setup)
    requires ProgressOf(log) == Ready(t)
    ensures IsSetup(log, t, s)
  {
    var front, last := log[..|log| - 1], log[|log| - 1];
    if ProgressOf(front) == Ready(t) {
      s := ReadyMeans(front, t);
    } else {
      var a, b, c, d := InitSentMeans(front, t, last.request);
      s := Setup(a, b, c, d, |log| - 1);
    }
  }

  lemma {:induction false} InitSentMeans(log: seq<Event>, t: Thread, request: nat) returns (a: nat, b: nat, c: nat, d: nat)
    requires ProgressOf(log) == InitSent(t, request)
    ensures IsTake(log, t, a) && Undisturbed(log, a) && a < b && c < d < |log|
    ensures IsExchange(log, t, Rate, b, c) && log[c].reply.accepted && log[d] == Sent(t, Init, request)
  {
    var front := log[..|log| - 1];
    if ProgressOf(front) == InitSent(t, request) {
      a, b, c, d := InitSentMeans(front, t, request);
    } else {
      a, b, c := RateSetMeans(front, t);
      d := |log| - 1;
    }
  }

  lemma {:induction false} RateSetMeans(log: seq<Event>, t: Thread) returns (a: nat, b: nat, c: nat)
    requires ProgressOf(log) == RateSet(t)
    ensures IsTake(log, t, a) && Undisturbed(log, a) && a < b
    ensures IsExchange(log, t, Rate, b, c) && log[c].reply.accepted
  {
    var front, last := log[..|log| - 1], log[|log| - 1];
    if ProgressOf(front) == RateSet(t) {
      a, b, c := RateSetMeans(front, t);
    } else {
      a, b := RateSentMeans(front, t, last.request);
      c := |log| - 1;
    }
  }

  lemma {:induction false} RateSentMeans(log: seq<Event>, t: Thread, request: nat) returns (a: nat, b: nat)
    requires ProgressOf(log) == RateSent(t, request)
    ensures IsTake(log, t, a) && Undisturbed(log, a) && a < b < |log| && log[b] == Sent(t, Rate, request)
  {
    var front := log[..|log| - 1];
    if ProgressOf(front) == RateSent(t, request) {
      a, b := RateSentMeans(front, t, request);
    } else {
      a := BegunMeans(front, t);
      b := |log| - 1;
    }
  }

  lemma {:induction false} BegunMeans(log: seq<Event>, t: Thread) returns (a: nat)
    requires ProgressOf(log) == Begun(t)
    ensures IsTake(log, t, a) && Undisturbed(log, a)
  {
    var front, last := log[..|log| - 1], log[|log| - 1];
    if last.Took? {
      a := |log| - 1;
    } else {
      a := BegunMeans(front, t);
    }
  }

  // ---- a rate that was refused

  ghost predicate RefusedIn(log: seq<Event>) {
    exists k :: 0 <= k < |log| && log[k].Received? && log[k].what == Rate && !log[k].reply.accepted
  }

  /** The client is marked, or the call that was refused is about to mark it. */
  ghost predicate MarkInv(w: World) {
    RefusedIn(w.log) ==> w.broken || exists t: Thread :: PcOf(w, t) == Failing(true)
  }

  lemma ThreadKeepsMark(w: World, x: World, t: Thread)
    requires MarkInv(w) && ThreadStep(w, x, t)
    ensures MarkInv(x)
  {
    ThreadKinds(w, x, t);
    if Receives(w, x, t) && PcOf(w, t).what == Rate && !w.toClient[0].accepted {
      assert PcOf(x, t) == Failing(true);
    } else if RefusedIn(x.log) && !x.broken {
      var k :| 0 <= k < |x.log| && x.log[k].Received? && x.log[k].what == Rate && !x.log[k].reply.accepted;
      StillRefused(w, x, t, k);
      var u: Thread :| PcOf(w, u) == Failing(true);
      assert u == t || PcOf(x, u) == PcOf(w, u);
    }
  }

  lemma StillRefused(w: World, x: World, t: Thread, k: nat)
    requires ThreadStep(w, x, t) && k < |x.log|
    requires x.log[k].Received? && x.log[k].what == Rate && !x.log[k].reply.accepted
    requires !(Receives(w, x, t) && PcOf(w, t).what == Rate && !w.toClient[0].accepted)
    ensures RefusedIn(w.log)
  {
    ThreadKinds(w, x, t);
    assert k < |w.log| ==> x.log[k] == w.log[k];
    if k < |w.log| {
      assert w.log[k].Received?;
    }
  }

  /** Once a rate has been refused and no call is failing, the client is marked broken. */
  lemma {:induction false} RefusedRateMarks(run: seq<World>, i: nat)
    requires Run(run) && i < |run|
    ensures MarkInv(run[i])
  {
    if i > 0 {
      RefusedRateMarks(run, i - 1);
      var w, x := run[i - 1], run[i];
      if t: Thread :| ThreadStep(w, x, t) {
        ThreadKeepsMark(w, x, t);
      } else {
        assert x.log == w.log && x.broken == w.broken && x.pcs == w.pcs;
        forall u: Thread ensures PcOf(x, u) == PcOf(w, u) {
        }
      }
    }
  }
}
