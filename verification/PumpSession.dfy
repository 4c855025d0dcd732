/**
 A whole session: Zello's messages in the order they were sent, the one reader
 that splits them over two channels, and the pump choosing freely among what is
 ready. Steps interleave in every way the select statement allows.
 */
module PumpSession {
  import opened Sequences
  import opened AudioTypes
  import opened Bytes
  import opened Pump

  const AUDIO_ROOM := 64
  const EVENT_ROOM := 16

  datatype Message =
    | Audio(stream: Word)
    | StreamStart(stream: Word)
    | StreamStop(stream: Word)
    | OtherEvent

  /** What the reader has closed so far, in the order its deferred calls run. */
  datatype Ending = Reading | AudioClosed | EventsClosed | Done

  datatype Place = Selecting | Draining(stop: nat) | Returned

  /**
   read is how many messages the reader has taken; audio and events hold the
   places of what is queued; dropped holds what a full channel refused.
   */
  datatype Session = Session(
    read: nat, audio: seq<nat>, events: seq<nat>, dropped: set<nat>, ending: Ending,
    place: Place, pump: State, now: int, lastTick: int)

  ghost predicate Initial(s: Session) {
    s.read == 0 && s.audio == [] && s.events == [] && s.dropped == {} && s.ending == Reading
    && s.place == Selecting && s.pump == START && s.lastTick == s.now
  }

  function StreamOf(m: Message): Word {
    match m
    case Audio(stream) => stream
    case StreamStart(stream) => stream
    case StreamStop(stream) => stream
    case OtherEvent => 0
  }

  function PacketAt(script: seq<Message>, at: nat): Packet {
    Packet(at, if at < |script| then StreamOf(script[at]) else 0)
  }

  // ---- the reader

  /** One message goes to its channel, or is dropped because the channel is full. */
  ghost predicate ReadMessage(script: seq<Message>, s: Session, t: Session) {
    && s.ending == Reading && s.read < |script|
    && (if script[s.read].Audio? then
          if |s.audio| < AUDIO_ROOM then t == s.(read := s.read + 1, audio := s.audio + [s.read])
          else t == s.(read := s.read + 1, dropped := s.dropped + {s.read})
        else
          if |s.events| < EVENT_ROOM then t == s.(read := s.read + 1, events := s.events + [s.read])
          else t == s.(read := s.read + 1, dropped := s.dropped + {s.read}))
  }

  /** The connection may end anywhere; the channels close in turn. */
  ghost predicate CloseNext(s: Session, t: Session) {
    match s.ending
    case Reading => t == s.(ending := AudioClosed)
    case AudioClosed => t == s.(ending := EventsClosed)
    case EventsClosed => t == s.(ending := Done)
    case Done => false
  }

  // ---- the pump

  ghost predicate TakesFrame(s: Session, t: Session) {
    s.place == Selecting && exists f: Frame, works :: t == s.(pump := TakeFrame(s.pump, f, s.now, works))
  }

  ghost predicate Plays(script: seq<Message>, s: Session, t: Session) {
    s.audio != [] && t == s.(audio := s.audio[1..], pump := Play(s.pump, PacketAt(script, s.audio[0]), s.now))
  }

  ghost predicate TakesEvent(script: seq<Message>, s: Session, t: Session) {
    && s.place == Selecting && s.events != []
    && t == s.(events := s.events[1..],
               place := if s.events[0] < |script| && script[s.events[0]].StreamStop? then Draining(s.events[0]) else Selecting)
  }

  /** One turn of the drain: play what is queued; empty, closed or not, is the end of it. */
  ghost predicate Drains(script: seq<Message>, s: Session, t: Session) {
    && s.place.Draining?
    && (if s.audio != [] then Plays(script, s, t)
        else t == s.(place := Selecting, pump := ActOnStop(s.pump, PacketAt(script, s.place.stop), s.now)))
  }

  ghost predicate Ticks(s: Session, t: Session) {
    s.place == Selecting && t == s.(pump := Tick(s.pump, s.now), lastTick := s.now)
  }

  /** The context ends, or a channel is found closed. */
  ghost predicate Returns(s: Session, t: Session, cancelled: bool) {
    && s.place == Selecting
    && (cancelled || s.ending == Done || (s.ending != Reading && s.audio == [])
        || (s.ending in {EventsClosed, Done} && s.events == []))
    && t == s.(place := Returned, pump := Return(s.pump, s.now))
  }

  /** Time passes, but never past a tick that is due. */
  ghost predicate Waits(s: Session, t: Session) {
    s.place != Returned && s.now <= t.now <= s.lastTick + PUMP_TICK && t == s.(now := t.now)
  }

  ghost predicate Step(script: seq<Message>, s: Session, t: Session) {
    || ReadMessage(script, s, t)
    || CloseNext(s, t)
    || TakesFrame(s, t)
    || (s.place == Selecting && Plays(script, s, t))
    || TakesEvent(script, s, t)
    || Drains(script, s, t)
    || Ticks(s, t)
    || (exists cancelled :: Returns(s, t, cancelled))
    || Waits(s, t)
  }

  ghost predicate Run(script: seq<Message>, run: seq<Session>) {
    && |run| > 0 && Initial(run[0])
    && forall i :: 0 <= i < |run| - 1 ==> Step(script, run[i], run[i + 1])
  }

  // ---- ordering

  ghost predicate PlayedIn(calls: seq<Call>, at: nat) {
    exists k :: 0 <= k < |calls| && calls[k].ZelloPacket? && calls[k].p.at == at
  }

  /** Where every packet read so far is, and in what order they leave. */
  ghost predicate InTransit(script: seq<Message>, s: Session) {
    && s.read <= |script|
    && Increasing(s.audio)
    && (forall i :: 0 <= i < |s.audio| ==> s.audio[i] < s.read)
    && (forall i :: 0 <= i < |s.events| ==> s.events[i] < s.read)
    && (s.place.Draining? ==> s.place.stop < s.read)
    && (forall at :: 0 <= at < s.read && script[at].Audio? ==>
          at in s.dropped || at in s.audio || PlayedIn(s.pump.calls, at))
  }

  /** A stop that has been acted on is behind every packet still to come. */
  ghost predicate Settled(script: seq<Message>, s: Session, stop: nat) {
    && stop < s.read
    && (forall i :: 0 <= i < |s.audio| ==> stop < s.audio[i])
  }

  /** At the mark, everything before the stop has been played or dropped; after it, only later packets. */
  ghost predicate MarkHolds(script: seq<Message>, s: Session, k: nat)
    requires k < |s.pump.calls| && s.pump.calls[k].StopHandled?
  {
    var stop := s.pump.calls[k].stop;
    && Settled(script, s, stop)
    && (forall j :: k < j < |s.pump.calls| && s.pump.calls[j].ZelloPacket? ==> stop < s.pump.calls[j].p.at)
    && (forall at :: 0 <= at < stop && at < |script| && script[at].Audio? ==>
          at in s.dropped || PlayedIn(s.pump.calls[..k], at))
  }

  ghost predicate MarksHold(script: seq<Message>, s: Session) {
    forall k :: 0 <= k < |s.pump.calls| && s.pump.calls[k].StopHandled? ==> MarkHolds(script, s, k)
  }

  ghost predicate Inv(script: seq<Message>, s: Session) {
    && InTransit(script, s)
    && MarksHold(script, s)
    && Agrees(s.pump, s.now, s.lastTick)
    && (s.place == Returned ==> !ZelloOpen(s.pump.calls) && !RadioOpen(s.pump.calls))
  }

  /** Calls that play nothing and handle no stop leave the ordering alone. */
  ghost predicate QuietSince(before: seq<Call>, after: seq<Call>) {
    && |before| <= |after| && after[..|before|] == before
    && forall k :: |before| <= k < |after| ==> !after[k].ZelloPacket? && !after[k].StopHandled?
  }

  lemma QuietKeepsOrder(script: seq<Message>, s: Session, t: Session)
    requires InTransit(script, s) && MarksHold(script, s)
    requires t.read == s.read && t.audio == s.audio && t.dropped == s.dropped
    requires forall i :: 0 <= i < |t.events| ==> t.events[i] in s.events
    requires t.place.Draining? ==> t.place == s.place || t.place.stop in s.events
    requires QuietSince(s.pump.calls, t.pump.calls)
    ensures InTransit(script, t) && MarksHold(script, t)
  {
    var before, after := s.pump.calls, t.pump.calls;
    forall at | PlayedIn(before, at) ensures PlayedIn(after, at) {
      var k :| 0 <= k < |before| && before[k].ZelloPacket? && before[k].p.at == at;
      assert after[k] == before[k];
    }
    forall k | 0 <= k < |after| && after[k].StopHandled?
      ensures MarkHolds(script, t, k)
    {
      assert k < |before| && after[k] == before[k] && after[..k] == before[..k];
      assert MarkHolds(script, s, k);
      assert forall j :: 0 <= j < |before| ==> after[j] == before[j];
    }
  }

  lemma PlayKeepsOrder(script: seq<Message>, s: Session, t: Session)
    requires InTransit(script, s) && MarksHold(script, s) && Plays(script, s, t)
    ensures InTransit(script, t) && MarksHold(script, t)
  {
    var before, after := s.pump.calls, t.pump.calls;
    var first := s.audio[0];
    assert after[|before|] == ZelloPacket(PacketAt(script, first), s.now);
    forall at | PlayedIn(before, at) || at == first ensures PlayedIn(after, at) {
      if PlayedIn(before, at) {
        var k :| 0 <= k < |before| && before[k].ZelloPacket? && before[k].p.at == at;
        assert after[k] == before[k];
      }
    }
    forall at | at in s.audio ensures at == first || at in t.audio {
      var i :| 0 <= i < |s.audio| && s.audio[i] == at;
      if i > 0 {
        assert t.audio[i - 1] == at;
      }
    }
    forall k | 0 <= k < |after| && after[k].StopHandled?
      ensures MarkHolds(script, t, k)
    {
      assert k < |before| && after[k] == before[k] && after[..k] == before[..k];
      assert MarkHolds(script, s, k);
      assert forall j :: 0 <= j < |before| ==> after[j] == before[j];
    }
  }

  lemma ReadKeepsOrder(script: seq<Message>, s: Session, t: Session)
    requires InTransit(script, s) && MarksHold(script, s) && ReadMessage(script, s, t)
    ensures InTransit(script, t) && MarksHold(script, t)
  {
    forall at | at in s.audio ensures at in t.audio {
      var i :| 0 <= i < |s.audio| && s.audio[i] == at;
      assert t.audio[i] == at;
    }
    if script[s.read].Audio? && |s.audio| < AUDIO_ROOM {
      assert t.audio[|s.audio|] == s.read;
    }
    forall k | 0 <= k < |t.pump.calls| && t.pump.calls[k].StopHandled?
      ensures MarkHolds(script, t, k)
    {
      assert MarkHolds(script, s, k);
    }
  }

  /** The drain ends on an empty channel: everything read has been played or dropped. */
  lemma HandledKeepsOrder(script: seq<Message>, s: Session, t: Session)
    requires InTransit(script, s) && MarksHold(script, s)
    requires s.place.Draining? && s.audio == []
    requires t == s.(place := Selecting, pump := Log(s.pump, StopHandled(s.place.stop)))
    ensures InTransit(script, t) && MarksHold(script, t)
  {
    var before, after := s.pump.calls, t.pump.calls;
    forall at | PlayedIn(before, at) ensures PlayedIn(after, at) {
      var k :| 0 <= k < |before| && before[k].ZelloPacket? && before[k].p.at == at;
      assert after[k] == before[k];
    }
    forall k | 0 <= k < |after| && after[k].StopHandled?
      ensures MarkHolds(script, t, k)
    {
      if k == |before| {
        assert after[..k] == before;
      } else {
        assert after[k] == before[k] && after[..k] == before[..k];
        assert MarkHolds(script, s, k);
        assert forall j :: 0 <= j < |before| ==> after[j] == before[j];
      }
    }
  }

  /** An arm of the select that plays nothing, handles no stop and opens nothing toward QSP. */
  ghost predicate QuietArm(s: State, t: State) {
    QuietSince(s.calls, t.calls) && (t.toRadio ==> s.toRadio && t.zelloStream == s.zelloStream)
  }

  lemma FrameIsQuiet(s: State, f: Frame, now: int, works: bool)
    ensures QuietArm(s, TakeFrame(s, f, now, works))
  {
  }

  lemma TickIsQuiet(s: State, now: int)
    ensures QuietArm(s, Tick(s, now))
  {
  }

  lemma ReturnIsQuiet(s: State, now: int)
    ensures QuietArm(s, Return(s, now))
  {
  }

  lemma StopRadioIsQuiet(s: State, now: int)
    ensures QuietArm(s, StopRadio(s, now))
  {
  }

  lemma PumpStepIsQuiet(s: Session, t: Session)
    requires TakesFrame(s, t) || Ticks(s, t) || exists cancelled :: Returns(s, t, cancelled)
    ensures QuietArm(s.pump, t.pump)
  {
    if TakesFrame(s, t) {
      var f: Frame, works :| t == s.(pump := TakeFrame(s.pump, f, s.now, works));
      FrameIsQuiet(s.pump, f, s.now, works);
    } else if Ticks(s, t) {
      TickIsQuiet(s.pump, s.now);
    } else {
      ReturnIsQuiet(s.pump, s.now);
    }
  }

  lemma PumpStepInv(script: seq<Message>, s: Session, t: Session)
    requires Inv(script, s) && (TakesFrame(s, t) || Ticks(s, t) || exists cancelled :: Returns(s, t, cancelled))
    ensures Inv(script, t)
  {
    PumpStepIsQuiet(s, t);
    if TakesFrame(s, t) {
      var f: Frame, works :| t == s.(pump := TakeFrame(s.pump, f, s.now, works));
      FrameAgrees(s.pump, f, s.now, works, s.lastTick);
    } else if Ticks(s, t) {
      TickAgrees(s.pump, s.now, s.lastTick);
    } else {
      ReturnAgrees(s.pump, s.now, s.lastTick);
    }
    QuietKeepsOrder(script, s, t);
  }

  lemma DrainStepInv(script: seq<Message>, s: Session, t: Session)
    requires Inv(script, s) && Drains(script, s, t)
    ensures Inv(script, t)
  {
    if s.audio != [] {
      PlayKeepsOrder(script, s, t);
      PlayAgrees(s.pump, PacketAt(script, s.audio[0]), s.now, s.lastTick);
    } else {
      var stop := PacketAt(script, s.place.stop);
      var marked := s.(place := Selecting, pump := Log(s.pump, StopHandled(stop.at)));
      HandledKeepsOrder(script, s, marked);
      StopRadioIsQuiet(marked.pump, s.now);
      QuietKeepsOrder(script, marked, t);
      ActOnStopAgrees(s.pump, stop, s.now, s.lastTick);
    }
  }

  lemma StepInv(script: seq<Message>, s: Session, t: Session)
    requires Inv(script, s) && Step(script, s, t)
    ensures Inv(script, t)
  {
    if ReadMessage(script, s, t) {
      ReadKeepsOrder(script, s, t);
    } else if s.place == Selecting && Plays(script, s, t) {
      PlayKeepsOrder(script, s, t);
      PlayAgrees(s.pump, PacketAt(script, s.audio[0]), s.now, s.lastTick);
    } else if Drains(script, s, t) {
      DrainStepInv(script, s, t);
    } else if CloseNext(s, t) || TakesEvent(script, s, t) || Waits(s, t) {
      QuietKeepsOrder(script, s, t);
    } else {
      PumpStepInv(script, s, t);
    }
  }

  lemma {:induction false} RunInv(script: seq<Message>, run: seq<Session>, i: nat)
    requires Run(script, run) && i < |run|
    ensures Inv(script, run[i])
  {
    if i == 0 {
    } else {
      RunInv(script, run, i - 1);
      StepInv(script, run[i - 1], run[i]);
    }
  }

  // ---- the results

  /** Once a stop has been acted on, every packet sent before it has been played, unless it was dropped. */
  lemma PlayedBeforeStop(script: seq<Message>, run: seq<Session>, i: nat, k: nat, at: nat)
    requires Run(script, run) && i < |run|
    requires k < |run[i].pump.calls| && run[i].pump.calls[k].StopHandled?
    requires at < run[i].pump.calls[k].stop && at < |script| && script[at].Audio?
    ensures at in run[i].dropped || PlayedIn(run[i].pump.calls[..k], at)
  {
    RunInv(script, run, i);
    assert MarkHolds(script, run[i], k);
  }

  /** A stream that sends nothing after its stop is never played again. */
  lemma NeverPlayedAfterStop(script: seq<Message>, run: seq<Session>, i: nat, k: nat, j: nat)
    requires Run(script, run) && i < |run|
    requires k < j < |run[i].pump.calls| && run[i].pump.calls[k].StopHandled? && run[i].pump.calls[j].ZelloPacket?
    ensures run[i].pump.calls[k].stop < run[i].pump.calls[j].p.at
  {
    RunInv(script, run, i);
    assert MarkHolds(script, run[i], k);
  }

  /** Every stop in the trace is a stop the source sent, and packets carry the stream they were sent on. */
  ghost predicate Truthful(script: seq<Message>, s: Session) {
    && (forall i :: 0 <= i < |s.audio| ==> s.audio[i] < |script| && script[s.audio[i]].Audio?)
    && (s.place.Draining? ==> s.place.stop < |script| && script[s.place.stop].StreamStop?)
    && (forall k :: 0 <= k < |s.pump.calls| ==>
          match s.pump.calls[k]
          case ZelloPacket(p, _) => p.at < |script| && script[p.at] == Audio(p.stream)
          case StopHandled(stop) => stop < |script| && script[stop].StreamStop?
          case _ => true)
  }

  lemma {:induction false} RunTruthful(script: seq<Message>, run: seq<Session>, i: nat)
    requires Run(script, run) && i < |run|
    ensures Truthful(script, run[i])
  {
    if i > 0 {
      RunTruthful(script, run, i - 1);
      StepTruthful(script, run[i - 1], run[i]);
    }
  }

  lemma QuietKeepsTruth(script: seq<Message>, s: Session, t: Session)
    requires Truthful(script, s) && QuietSince(s.pump.calls, t.pump.calls)
    requires forall i :: 0 <= i < |t.audio| ==> t.audio[i] < |script| && script[t.audio[i]].Audio?
    requires t.place.Draining? ==> t.place == s.place || (t.place.stop < |script| && script[t.place.stop].StreamStop?)
    ensures Truthful(script, t)
  {
    var before, after := s.pump.calls, t.pump.calls;
    forall k | 0 <= k < |after|
      ensures k < |before| ==> after[k] == before[k]
    {
      if k < |before| {
        assert after[k] == after[..|before|][k];
      }
    }
  }

  lemma StepTruthful(script: seq<Message>, s: Session, t: Session)
    requires Truthful(script, s) && Step(script, s, t)
    ensures Truthful(script, t)
  {
    if s.place != Returned && Plays(script, s, t) {
    } else if Drains(script, s, t) {
      var marked := s.(place := Selecting, pump := Log(s.pump, StopHandled(s.place.stop)));
      StopRadioIsQuiet(marked.pump, s.now);
      QuietKeepsTruth(script, marked, t);
    } else if TakesFrame(s, t) || Ticks(s, t) || exists cancelled :: Returns(s, t, cancelled) {
      PumpStepIsQuiet(s, t);
      QuietKeepsTruth(script, s, t);
    } else {
      QuietKeepsTruth(script, s, t);
    }
  }

  /** The promise the drain was written for, in the source's own terms. */
  lemma NoPlayAfterHandledStop(script: seq<Message>, run: seq<Session>, i: nat, k: nat, j: nat)
    requires Run(script, run) && i < |run|
    requires k < j < |run[i].pump.calls| && run[i].pump.calls[k].StopHandled?
    requires var stop := run[i].pump.calls[k].stop;
             stop < |script| && forall at :: stop < at < |script| ==> script[at] != Audio(StreamOf(script[stop]))
    ensures var stop := run[i].pump.calls[k].stop;
            run[i].pump.calls[j].ZelloPacket? ==> run[i].pump.calls[j].p.stream != StreamOf(script[stop])
  {
    RunTruthful(script, run, i);
    if run[i].pump.calls[j].ZelloPacket? {
      NeverPlayedAfterStop(script, run, i, k, j);
    }
  }

  /** The transmission open after a handled stop is of another stream, or began with a later packet. */
  ghost predicate Ended(script: seq<Message>, s: Session) {
    forall k :: 0 <= k < |s.pump.calls| && s.pump.calls[k].StopHandled? ==>
      var stop := s.pump.calls[k].stop;
      s.pump.toRadio && s.pump.zelloStream == PacketAt(script, stop).stream ==>
        Latest(s.pump.calls).Some? && Latest(s.pump.calls).value.ZelloPacket? && stop < Latest(s.pump.calls).value.p.at
  }

  lemma QuietLatest(before: seq<Call>, after: seq<Call>)
    requires QuietSince(before, after)
    ensures Latest(after) == Latest(before)
    decreases |after| - |before|
  {
    if |before| < |after| {
      var shorter := after[..|after| - 1];
      assert shorter[..|before|] == before;
      QuietLatest(before, shorter);
    } else {
      assert after == before;
    }
  }

  lemma QuietKeepsEnded(script: seq<Message>, s: Session, t: Session)
    requires Ended(script, s) && QuietSince(s.pump.calls, t.pump.calls)
    requires t.pump.toRadio ==> s.pump.toRadio && t.pump.zelloStream == s.pump.zelloStream
    ensures Ended(script, t)
  {
    QuietLatest(s.pump.calls, t.pump.calls);
    forall k | 0 <= k < |t.pump.calls| && t.pump.calls[k].StopHandled?
      ensures k < |s.pump.calls| && s.pump.calls[k] == t.pump.calls[k]
    {
      assert k < |s.pump.calls|;
      assert s.pump.calls[k] == t.pump.calls[..|s.pump.calls|][k];
    }
  }

  lemma PlayKeepsEnded(script: seq<Message>, s: Session, t: Session)
    requires MarksHold(script, s) && Ended(script, s) && Plays(script, s, t)
    ensures Ended(script, t)
  {
    Snoc(s.pump.calls, ZelloPacket(PacketAt(script, s.audio[0]), s.now));
    forall k | 0 <= k < |t.pump.calls| && t.pump.calls[k].StopHandled?
      ensures t.pump.calls[k].stop < s.audio[0]
    {
      assert s.pump.calls[k] == t.pump.calls[k] && MarkHolds(script, s, k);
    }
  }

  lemma HandledKeepsEnded(script: seq<Message>, s: Session, t: Session)
    requires Ended(script, s) && s.place.Draining?
    requires t == s.(place := Selecting, pump := ActOnStop(s.pump, PacketAt(script, s.place.stop), s.now))
    ensures Ended(script, t)
  {
    var marked := Log(s.pump, StopHandled(s.place.stop));
    Snoc(s.pump.calls, StopHandled(s.place.stop));
    StopRadioIsQuiet(marked, s.now);
    QuietLatest(marked.calls, t.pump.calls);
    forall k | 0 <= k < |t.pump.calls| && t.pump.calls[k].StopHandled? && k != |s.pump.calls|
      ensures k < |s.pump.calls| && s.pump.calls[k] == t.pump.calls[k]
    {
    }
  }

  lemma StepEnded(script: seq<Message>, s: Session, t: Session)
    requires Inv(script, s) && Ended(script, s) && Step(script, s, t)
    ensures Ended(script, t)
  {
    if s.place != Returned && Plays(script, s, t) {
      PlayKeepsEnded(script, s, t);
    } else if Drains(script, s, t) {
      HandledKeepsEnded(script, s, t);
    } else if TakesFrame(s, t) || Ticks(s, t) || exists cancelled :: Returns(s, t, cancelled) {
      PumpStepIsQuiet(s, t);
      QuietKeepsEnded(script, s, t);
    } else {
      assert t.pump == s.pump;
    }
  }

  lemma {:induction false} RunEnded(script: seq<Message>, run: seq<Session>, i: nat)
    requires Run(script, run) && i < |run|
    ensures Ended(script, run[i])
  {
    if i > 0 {
      RunEnded(script, run, i - 1);
      RunInv(script, run, i - 1);
      StepEnded(script, run[i - 1], run[i]);
    }
  }

  /** A stream that has stopped for good is not the one being transmitted toward QSP. */
  lemma StoppedStreamIsNotOpen(script: seq<Message>, run: seq<Session>, i: nat, k: nat)
    requires Run(script, run) && i < |run|
    requires k < |run[i].pump.calls| && run[i].pump.calls[k].StopHandled?
    requires var stop := run[i].pump.calls[k].stop;
             stop < |script| && forall at :: stop < at < |script| ==> script[at] != Audio(StreamOf(script[stop]))
    ensures run[i].pump.toRadio ==> run[i].pump.zelloStream != StreamOf(script[run[i].pump.calls[k].stop])
  {
    RunEnded(script, run, i);
    RunInv(script, run, i);
    RunTruthful(script, run, i);
    if run[i].pump.toRadio {
      LatestIsACall(run[i].pump.calls);
    }
  }

  lemma {:induction false} LatestIsACall(calls: seq<Call>)
    requires Latest(calls).Some?
    ensures exists k :: 0 <= k < |calls| && calls[k] == Latest(calls).value
  {
    if !calls[|calls| - 1].ZelloPacket? {
      LatestIsACall(calls[..|calls| - 1]);
    }
  }

  /** Frames only inside a keyed transmission; stops only for the latest stream, and on time. */
  lemma CallsAreBracketed(script: seq<Message>, run: seq<Session>, i: nat)
    requires Run(script, run) && i < |run|
    ensures Bracketed(run[i].pump.calls)
    ensures run[i].place == Returned ==> !ZelloOpen(run[i].pump.calls) && !RadioOpen(run[i].pump.calls)
  {
    RunInv(script, run, i);
  }

  /** A stream that has gone silent is open no longer than its timeout and one tick, which QSP outlasts. */
  lemma SilenceIsEnded(script: seq<Message>, run: seq<Session>, i: nat)
    requires Run(script, run) && i < |run| && RadioOpen(run[i].pump.calls)
    ensures Latest(run[i].pump.calls).Some? && Latest(run[i].pump.calls).value.ZelloPacket?
    ensures run[i].now <= Latest(run[i].pump.calls).value.time + ZELLO_IDLE + PUMP_TICK
    ensures run[i].now <= Latest(run[i].pump.calls).value.time + STREAM_TIMEOUT - 500
  {
    RunInv(script, run, i);
  }

  // ---- the drain ends

  /** Messages still to be read count twice: once to read, once to play. */
  function Work(script: seq<Message>, s: Session): int {
    2 * (|script| - s.read) + |s.audio| + if s.place.Draining? then 1 else 0
  }

  /** A drain can always take a turn, whether or not the channel has been closed. */
  lemma DrainNeverStalls(script: seq<Message>, s: Session) returns (t: Session)
    requires s.place.Draining?
    ensures Drains(script, s, t) && (s.audio == [] ==> t.place == Selecting)
  {
    t := if s.audio != []
    then s.(audio := s.audio[1..], pump := Play(s.pump, PacketAt(script, s.audio[0]), s.now))
    else s.(place := Selecting, pump := ActOnStop(s.pump, PacketAt(script, s.place.stop), s.now));
  }

  /** How many of the steps of a stretch are turns of the drain. */
  ghost function Turns(script: seq<Message>, run: seq<Session>): nat {
    if |run| < 2 then 0
    else (if Drains(script, run[0], run[1]) then 1 else 0) + Turns(script, run[1..])
  }

  /** However fast the reader adds packets, a drain takes no more turns than there is work. */
  lemma {:induction false} DrainIsBounded(script: seq<Message>, run: seq<Session>)
    requires |run| > 0 && run[0].read <= |script|
    requires forall i :: 0 <= i < |run| - 1 ==> run[i].place.Draining? && Step(script, run[i], run[i + 1])
    ensures Turns(script, run) <= Work(script, run[0])
  {
    if |run| >= 2 {
      assert run[1].read <= |script|;
      var rest := run[1..];
      forall i | 0 <= i < |rest| - 1
        ensures rest[i].place.Draining? && Step(script, rest[i], rest[i + 1])
      {
        assert rest[i] == run[i + 1] && rest[i + 1] == run[i + 2];
      }
      DrainIsBounded(script, rest);
    }
  }

  // ---- nothing is dropped without cause, and no stop is forgotten

  /** The channel the next message is for has no room left. */
  ghost predicate Full(script: seq<Message>, s: Session) {
    && s.read < |script|
    && if script[s.read].Audio? then |s.audio| >= AUDIO_ROOM else |s.events| >= EVENT_ROOM
  }

  /** A message that was dropped was read when its channel was full. */
  lemma {:induction false} EveryDropWasFull(script: seq<Message>, run: seq<Session>, i: nat, at: nat) returns (j: nat)
    requires Run(script, run) && i < |run| && at in run[i].dropped
    ensures j < i && run[j].read == at && Full(script, run[j])
  {
    if at in run[i - 1].dropped {
      j := EveryDropWasFull(script, run, i - 1, at);
    } else {
      j := i - 1;
    }
  }

  ghost predicate HandledIn(calls: seq<Call>, at: nat) {
    exists k :: 0 <= k < |calls| && calls[k] == StopHandled(at)
  }

  /** Where every stop read so far is; and they are handled in the order they were sent. */
  ghost predicate StopsInTransit(script: seq<Message>, s: Session) {
    && s.read <= |script|
    && Increasing(s.events)
    && (forall i :: 0 <= i < |s.events| ==> s.events[i] < s.read)
    && (s.place.Draining? ==> s.place.stop < s.read && forall i :: 0 <= i < |s.events| ==> s.place.stop < s.events[i])
    && (forall at :: 0 <= at < s.read && script[at].StreamStop? ==>
          at in s.dropped || at in s.events || s.place == Draining(at) || HandledIn(s.pump.calls, at))
    && (forall k :: 0 <= k < |s.pump.calls| && s.pump.calls[k].StopHandled? ==> Passed(s, s.pump.calls[k].stop))
    && (forall k, l :: 0 <= k < l < |s.pump.calls| && s.pump.calls[k].StopHandled? && s.pump.calls[l].StopHandled? ==>
          s.pump.calls[k].stop < s.pump.calls[l].stop)
  }

  /** Every stop still to be handled was sent after this one. */
  ghost predicate Passed(s: Session, stop: nat) {
    && stop < s.read
    && (s.place.Draining? ==> stop < s.place.stop)
    && forall i :: 0 <= i < |s.events| ==> stop < s.events[i]
  }

  /** Calls with no handled stop among the new ones. */
  ghost predicate NoStopSince(before: seq<Call>, after: seq<Call>) {
    && |before| <= |after| && after[..|before|] == before
    && forall k :: |before| <= k < |after| ==> !after[k].StopHandled?
  }

  lemma NoStopKeepsStops(script: seq<Message>, s: Session, t: Session)
    requires StopsInTransit(script, s) && NoStopSince(s.pump.calls, t.pump.calls)
    requires t.read == s.read && t.events == s.events && t.dropped == s.dropped
    requires t.place == s.place || (!s.place.Draining? && !t.place.Draining?)
    ensures StopsInTransit(script, t)
  {
    var before, after := s.pump.calls, t.pump.calls;
    forall k | 0 <= k < |before| ensures after[k] == before[k] {
      assert after[..|before|][k] == before[k];
    }
    forall k | 0 <= k < |after| && after[k].StopHandled? ensures k < |before| && Passed(t, after[k].stop) {
      assert Passed(s, before[k].stop);
    }
    forall at | HandledIn(before, at) ensures HandledIn(after, at) {
      var k :| 0 <= k < |before| && before[k] == StopHandled(at);
      assert after[k] == StopHandled(at);
    }
  }

  lemma ReadKeepsStops(script: seq<Message>, s: Session, t: Session)
    requires StopsInTransit(script, s) && ReadMessage(script, s, t)
    ensures StopsInTransit(script, t)
  {
    forall at | at in s.events ensures at in t.events {
      var i :| 0 <= i < |s.events| && s.events[i] == at;
      assert t.events[i] == at;
    }
    if !script[s.read].Audio? && |s.events| < EVENT_ROOM {
      assert t.events[|s.events|] == s.read;
    }
    forall k | 0 <= k < |t.pump.calls| && t.pump.calls[k].StopHandled? ensures Passed(t, t.pump.calls[k].stop) {
      assert Passed(s, s.pump.calls[k].stop);
    }
  }

  lemma EventKeepsStops(script: seq<Message>, s: Session, t: Session)
    requires StopsInTransit(script, s) && TakesEvent(script, s, t)
    ensures StopsInTransit(script, t)
  {
    forall at | at in s.events ensures at == s.events[0] || at in t.events {
      var i :| 0 <= i < |s.events| && s.events[i] == at;
      if i > 0 {
        assert t.events[i - 1] == at;
      }
    }
    forall k | 0 <= k < |t.pump.calls| && t.pump.calls[k].StopHandled? ensures Passed(t, t.pump.calls[k].stop) {
      assert Passed(s, s.pump.calls[k].stop);
    }
  }

  lemma HandledKeepsStops(script: seq<Message>, s: Session, t: Session)
    requires StopsInTransit(script, s) && s.place.Draining?
    requires t == s.(place := Selecting, pump := Log(s.pump, StopHandled(s.place.stop)))
    ensures StopsInTransit(script, t)
  {
    var before, after := s.pump.calls, t.pump.calls;
    assert after[|before|] == StopHandled(s.place.stop);
    forall at | HandledIn(before, at) ensures HandledIn(after, at) {
      var k :| 0 <= k < |before| && before[k] == StopHandled(at);
      assert after[k] == StopHandled(at);
    }
    forall k | 0 <= k < |before| && before[k].StopHandled? ensures Passed(t, before[k].stop) && before[k].stop < s.place.stop {
      assert Passed(s, before[k].stop);
    }
  }

  lemma StepKeepsStops(script: seq<Message>, s: Session, t: Session)
    requires StopsInTransit(script, s) && Step(script, s, t)
    ensures StopsInTransit(script, t)
  {
    if ReadMessage(script, s, t) {
      ReadKeepsStops(script, s, t);
    } else if TakesEvent(script, s, t) {
      EventKeepsStops(script, s, t);
    } else if s.place != Returned && Plays(script, s, t) {
      NoStopKeepsStops(script, s, t);
    } else if Drains(script, s, t) {
      var marked := s.(place := Selecting, pump := Log(s.pump, StopHandled(s.place.stop)));
      HandledKeepsStops(script, s, marked);
      StopRadioIsQuiet(marked.pump, s.now);
      NoStopKeepsStops(script, marked, t);
    } else if TakesFrame(s, t) || Ticks(s, t) || exists cancelled :: Returns(s, t, cancelled) {
      PumpStepIsQuiet(s, t);
      NoStopKeepsStops(script, s, t);
    } else {
      NoStopKeepsStops(script, s, t);
    }
  }

  /** Every stop that has been read is queued, being drained for, handled, or was dropped by a full channel. */
  lemma {:induction false} NoStopIsForgotten(script: seq<Message>, run: seq<Session>, i: nat)
    requires Run(script, run) && i < |run|
    ensures StopsInTransit(script, run[i])
  {
    if i > 0 {
      NoStopIsForgotten(script, run, i - 1);
      StepKeepsStops(script, run[i - 1], run[i]);
    }
  }

  /** Every arm of the select can be taken whenever it is ready, whatever else is. */
  lemma EveryArmCanBeTaken(script: seq<Message>, s: Session, f: Frame, works: bool)
    requires s.place == Selecting
    ensures Step(script, s, s.(pump := TakeFrame(s.pump, f, s.now, works)))
    ensures Step(script, s, s.(pump := Tick(s.pump, s.now), lastTick := s.now))
    ensures Step(script, s, s.(place := Returned, pump := Return(s.pump, s.now)))
    ensures s.audio != [] ==>
              Step(script, s, s.(audio := s.audio[1..], pump := Play(s.pump, PacketAt(script, s.audio[0]), s.now)))
    ensures s.events != [] ==>
              exists t :: Step(script, s, t) && t.events == s.events[1..] && t.pump == s.pump && t.audio == s.audio
                && (s.events[0] < |script| && script[s.events[0]].StreamStop? ==> t.place == Draining(s.events[0]))
  {
    assert TakesFrame(s, s.(pump := TakeFrame(s.pump, f, s.now, works)));
    assert Returns(s, s.(place := Returned, pump := Return(s.pump, s.now)), true);
    if s.events != [] {
      var t := s.(events := s.events[1..],
                  place := if s.events[0] < |script| && script[s.events[0]].StreamStop? then Draining(s.events[0]) else Selecting);
      assert TakesEvent(script, s, t);
    }
  }

  /** The reader goes on reading whatever the pump does, and is never made to wait. */
  lemma ReaderNeverWaits(script: seq<Message>, s: Session) returns (t: Session)
    requires s.ending == Reading && s.read < |script|
    ensures Step(script, s, t) && t.read == s.read + 1 && t.pump == s.pump && t.place == s.place
    ensures s.read in t.dropped || s.read in t.audio || s.read in t.events
  {
    var at := s.read;
    if script[at].Audio? {
      t := if |s.audio| < AUDIO_ROOM then s.(read := at + 1, audio := s.audio + [at]) else s.(read := at + 1, dropped := s.dropped + {at});
    } else {
      t := if |s.events| < EVENT_ROOM then s.(read := at + 1, events := s.events + [at]) else s.(read := at + 1, dropped := s.dropped + {at});
    }
    assert ReadMessage(script, s, t);
  }
}
