/**
 The Zello connector's pump: one goroutine that selects over frames from QSP,
 audio and events from Zello, and a ticker, and calls the bridge. The state is
 the pump's own variables; every bridge call goes on a trace.
 */
module Pump {
  import opened Wrappers
  import opened AudioTypes
  import opened Bytes

  // Durations, in milliseconds.
  const IDLE := 2000
  const ZELLO_IDLE := 1000
  const PUMP_TICK := 500
  const STREAM_TIMEOUT := 2000

  /** A packet from Zello: its place among everything Zello sent, and its stream. */
  datatype Packet = Packet(at: nat, stream: Word)

  /** A bridge call with its time, or the mark left when a frame is taken or a stop has been acted on. */
  datatype Call =
    | FrameTaken(time: int)
    | RadioKeyup(ok: bool)
    | RadioFrame
    | RadioRelease
    | ZelloPacket(p: Packet, time: int)
    | ZelloStreamStopped(stream: Word, time: int)
    | StopHandled(stop: nat)

  datatype State = State(
    toZello: bool, lastUSRP: int,
    toRadio: bool, zelloStream: Word, lastZelloAudio: int,
    calls: seq<Call>)

  const START := State(false, 0, false, 0, 0, [])

  // ---- what each arm of the select does to the variables and the trace

  function Log(s: State, c: Call): State {
    s.(calls := s.calls + [c])
  }

  function Release(s: State): State {
    if s.toZello then Log(s, RadioRelease).(toZello := false) else s
  }

  function StopRadio(s: State, now: int): State {
    if s.toRadio then Log(s, ZelloStreamStopped(s.zelloStream, now)).(toRadio := false) else s
  }

  function Play(s: State, p: Packet, now: int): State {
    Log(s, ZelloPacket(p, now)).(lastZelloAudio := now, zelloStream := p.stream, toRadio := true)
  }

  /** A failed keyup leaves the direction as it was. */
  function Keyup(s: State, works: bool): State {
    Log(s, RadioKeyup(works)).(toZello := s.toZello || works)
  }

  function TakeFrame(s: State, f: Frame, now: int, keyupWorks: bool): State {
    var s := Log(s, FrameTaken(now)).(lastUSRP := now);
    if !f.ptt then Release(s)
    else if f.samples == [] then Keyup(s, keyupWorks)
    else if s.toZello then Log(s, RadioFrame)
    else if keyupWorks then Log(Keyup(s, true), RadioFrame)
    else Keyup(s, false)
  }

  function Tick(s: State, now: int): State {
    var s := if s.toZello && now - s.lastUSRP > IDLE then Release(s) else s;
    if s.toRadio && now - s.lastZelloAudio > ZELLO_IDLE then StopRadio(s, now) else s
  }

  /** What follows the drain: the stop ends the stream being played, or nothing. */
  function ActOnStop(s: State, stop: Packet, now: int): State {
    var s := Log(s, StopHandled(stop.at));
    if s.toRadio && stop.stream == s.zelloStream then StopRadio(s, now) else s
  }

  function PlayAll(s: State, queued: seq<Packet>, now: int): State
    decreases |queued|
  {
    if queued == [] then s else PlayAll(Play(s, queued[0], now), queued[1..], now)
  }

  /** Returning releases the radio side and stops the stream toward QSP. */
  function Return(s: State, now: int): State {
    StopRadio(Release(s), now)
  }

  /** A receiving end of one of the session's channels. */
  class Channel {
    var queued: seq<Packet>
    var closed: bool

    constructor (queued: seq<Packet>, closed: bool)
      ensures this.queued == queued && this.closed == closed
    {
      this.queued, this.closed := queued, closed;
    }
  }

  /** The pump's variables and closures. */
  class Connector {
    var toZello: bool
    var lastUSRP: int
    var toRadio: bool
    var zelloStream: Word
    var lastZelloAudio: int
    ghost var calls: seq<Call>

    ghost function View(): State
      reads this
    {
      State(toZello, lastUSRP, toRadio, zelloStream, lastZelloAudio, calls)
    }

    constructor ()
      ensures View() == START
    {
      toZello, lastUSRP, toRadio, zelloStream, lastZelloAudio, calls := false, 0, false, 0, 0, [];
    }

    method DoRelease()
      modifies this
      ensures View() == Release(old(View()))
    {
      if toZello {
        calls := calls + [RadioRelease];
        toZello := false;
      }
    }

    method DoStopRadio(now: int)
      modifies this
      ensures View() == StopRadio(old(View()), now)
    {
      if toRadio {
        calls := calls + [ZelloStreamStopped(zelloStream, now)];
        toRadio := false;
      }
    }

    method DoPlay(p: Packet, now: int)
      modifies this
      ensures View() == Play(old(View()), p, now)
    {
      lastZelloAudio := now;
      zelloStream, toRadio := p.stream, true;
      calls := calls + [ZelloPacket(p, now)];
    }

    /** keyupWorks is what the bridge answers, should it be asked to key up. */
    method DoFrame(f: Frame, now: int, keyupWorks: bool)
      modifies this
      ensures View() == TakeFrame(old(View()), f, now, keyupWorks)
    {
      lastUSRP := now;
      calls := calls + [FrameTaken(now)];
      if !f.ptt {
        DoRelease();
      } else if |f.samples| == 0 {
        calls := calls + [RadioKeyup(keyupWorks)];
        if !keyupWorks {
          return;
        }
        toZello := true;
      } else {
        if !toZello {
          calls := calls + [RadioKeyup(keyupWorks)];
          if !keyupWorks {
            return;
          }
          toZello := true;
        }
        calls := calls + [RadioFrame];
      }
    }

    method DoTick(now: int)
      modifies this
      ensures View() == Tick(old(View()), now)
    {
      if toZello && now - lastUSRP > IDLE {
        DoRelease();
      }
      if toRadio && now - lastZelloAudio > ZELLO_IDLE {
        DoStopRadio(now);
      }
    }

    /** The stop arm, with the drain run against a reader that is not adding to the channel. */
    method DoStop(stop: Packet, audio: Channel, now: int)
      modifies this, audio`queued
      ensures audio.queued == []
      ensures View() == ActOnStop(PlayAll(old(View()), old(audio.queued), now), stop, now)
    {
      while true
        invariant PlayAll(View(), audio.queued, now) == PlayAll(old(View()), old(audio.queued), now)
        decreases |audio.queued|
      {
        if audio.queued != [] {
          var p := audio.queued[0];
          audio.queued := audio.queued[1..];
          DoPlay(p, now);
        } else if audio.closed {
          break; // receiving from a closed channel never blocks, so the loop has to leave here
        } else {
          break;
        }
      }
      calls := calls + [StopHandled(stop.at)];
      if toRadio && stop.stream == zelloStream {
        DoStopRadio(now);
      }
    }

    method DoReturn(now: int)
      modifies this
      ensures View() == Return(old(View()), now)
      ensures !toZello && !toRadio
    {
      DoRelease();
      DoStopRadio(now);
    }
  }

  // ---- what the trace says, read on its own

  /** A stream toward Zello is open after these calls. */
  function ZelloOpen(calls: seq<Call>): bool {
    if calls == [] then false
    else
      match calls[|calls| - 1]
      case RadioKeyup(ok) => ok || ZelloOpen(calls[..|calls| - 1])
      case RadioRelease => false
      case _ => ZelloOpen(calls[..|calls| - 1])
  }

  /** A transmission toward QSP is open after these calls. */
  function RadioOpen(calls: seq<Call>): bool {
    if calls == [] then false
    else
      match calls[|calls| - 1]
      case ZelloPacket(_, _) => true
      case ZelloStreamStopped(_, _) => false
      case _ => RadioOpen(calls[..|calls| - 1])
  }

  /** The latest packet played, with its time. */
  function Latest(calls: seq<Call>): Option<Call> {
    if calls == [] then None
    else if calls[|calls| - 1].ZelloPacket? then Some(calls[|calls| - 1])
    else Latest(calls[..|calls| - 1])
  }

  /** When the latest frame was taken. */
  function LatestFrame(calls: seq<Call>): Option<int> {
    if calls == [] then None
    else if calls[|calls| - 1].FrameTaken? then Some(calls[|calls| - 1].time)
    else LatestFrame(calls[..|calls| - 1])
  }

  /** What must hold of a call, given the calls before it. */
  ghost predicate InOrder(before: seq<Call>, c: Call) {
    match c
    case RadioFrame => ZelloOpen(before)
    case RadioRelease => ZelloOpen(before)
    case ZelloStreamStopped(stream, time) =>
      && RadioOpen(before)
      && Latest(before).Some? && Latest(before).value.ZelloPacket?
      && Latest(before).value.p.stream == stream
      && Latest(before).value.time <= time <= Latest(before).value.time + ZELLO_IDLE + PUMP_TICK
    case _ => true
  }

  ghost predicate Bracketed(calls: seq<Call>) {
    forall k :: 0 <= k < |calls| ==> InOrder(calls[..k], calls[k])
  }

  lemma BracketedSnoc(calls: seq<Call>, c: Call)
    requires Bracketed(calls) && InOrder(calls, c)
    ensures Bracketed(calls + [c])
  {
    var all := calls + [c];
    forall k | 0 <= k < |all|
      ensures InOrder(all[..k], all[k])
    {
      assert all[..k] == calls[..k];
      if k == |calls| {
        assert calls[..k] == calls;
      }
    }
  }

  /** The variables say what the trace says; lastTick is when the ticker was last served. */
  ghost predicate Agrees(s: State, now: int, lastTick: int) {
    && Bracketed(s.calls)
    && s.toZello == ZelloOpen(s.calls)
    && s.toRadio == RadioOpen(s.calls)
    && lastTick <= now <= lastTick + PUMP_TICK
    && (s.toRadio ==>
          && Latest(s.calls).Some? && Latest(s.calls).value.ZelloPacket?
          && Latest(s.calls).value.p.stream == s.zelloStream
          && Latest(s.calls).value.time == s.lastZelloAudio <= now
          && lastTick <= s.lastZelloAudio + ZELLO_IDLE)
    && (s.toZello ==> LatestFrame(s.calls) == Some(s.lastUSRP) && s.lastUSRP <= now && lastTick <= s.lastUSRP + IDLE)
  }

  /** Reading the trace one call further. */
  lemma Snoc(calls: seq<Call>, c: Call)
    ensures ZelloOpen(calls + [c]) == (match c case RadioKeyup(ok) => ok || ZelloOpen(calls) case RadioRelease => false case _ => ZelloOpen(calls))
    ensures RadioOpen(calls + [c]) == (match c case ZelloPacket(_, _) => true case ZelloStreamStopped(_, _) => false case _ => RadioOpen(calls))
    ensures Latest(calls + [c]) == if c.ZelloPacket? then Some(c) else Latest(calls)
    ensures LatestFrame(calls + [c]) == if c.FrameTaken? then Some(c.time) else LatestFrame(calls)
  {
    assert (calls + [c])[..|calls|] == calls;
  }

  lemma ReleaseAgrees(s: State, now: int, lastTick: int)
    requires Agrees(s, now, lastTick)
    ensures Agrees(Release(s), now, lastTick)
  {
    if s.toZello {
      Snoc(s.calls, RadioRelease);
      BracketedSnoc(s.calls, RadioRelease);
    }
  }

  lemma StopRadioAgrees(s: State, now: int, lastTick: int)
    requires Agrees(s, now, lastTick)
    ensures Agrees(StopRadio(s, now), now, lastTick)
  {
    if s.toRadio {
      Snoc(s.calls, ZelloStreamStopped(s.zelloStream, now));
      BracketedSnoc(s.calls, ZelloStreamStopped(s.zelloStream, now));
    }
  }

  lemma PlayAgrees(s: State, p: Packet, now: int, lastTick: int)
    requires Agrees(s, now, lastTick)
    ensures Agrees(Play(s, p, now), now, lastTick)
  {
    Snoc(s.calls, ZelloPacket(p, now));
    BracketedSnoc(s.calls, ZelloPacket(p, now));
  }

  lemma KeyupAgrees(s: State, works: bool, now: int, lastTick: int)
    requires Agrees(s, now, lastTick) && s.lastUSRP == now && LatestFrame(s.calls) == Some(now)
    ensures Agrees(Keyup(s, works), now, lastTick)
  {
    Snoc(s.calls, RadioKeyup(works));
    BracketedSnoc(s.calls, RadioKeyup(works));
  }

  lemma FrameAgrees(s: State, f: Frame, now: int, keyupWorks: bool, lastTick: int)
    requires Agrees(s, now, lastTick)
    ensures Agrees(TakeFrame(s, f, now, keyupWorks), now, lastTick)
  {
    var t := Log(s, FrameTaken(now)).(lastUSRP := now);
    Snoc(s.calls, FrameTaken(now));
    BracketedSnoc(s.calls, FrameTaken(now));
    if !f.ptt {
      ReleaseAgrees(t, now, lastTick);
    } else if f.samples == [] {
      KeyupAgrees(t, keyupWorks, now, lastTick);
    } else {
      var u := if t.toZello then t else Keyup(t, keyupWorks);
      KeyupAgrees(t, keyupWorks, now, lastTick);
      if u.toZello {
        Snoc(u.calls, RadioFrame);
        BracketedSnoc(u.calls, RadioFrame);
      }
    }
  }

  /** A tick leaves nothing open that has been quiet too long. */
  lemma TickAgrees(s: State, now: int, lastTick: int)
    requires Agrees(s, now, lastTick)
    ensures Agrees(Tick(s, now), now, now)
  {
    ReleaseAgrees(s, now, lastTick);
    var t := if s.toZello && now - s.lastUSRP > IDLE then Release(s) else s;
    StopRadioAgrees(t, now, lastTick);
  }

  lemma ActOnStopAgrees(s: State, stop: Packet, now: int, lastTick: int)
    requires Agrees(s, now, lastTick)
    ensures Agrees(ActOnStop(s, stop, now), now, lastTick)
  {
    Snoc(s.calls, StopHandled(stop.at));
    BracketedSnoc(s.calls, StopHandled(stop.at));
    StopRadioAgrees(Log(s, StopHandled(stop.at)), now, lastTick);
  }

  lemma ReturnAgrees(s: State, now: int, lastTick: int)
    requires Agrees(s, now, lastTick)
    ensures Agrees(Return(s, now), now, lastTick)
    ensures !ZelloOpen(Return(s, now).calls) && !RadioOpen(Return(s, now).calls)
  {
    ReleaseAgrees(s, now, lastTick);
    StopRadioAgrees(Release(s), now, lastTick);
  }

  // ---- exactly what each arm calls, told from the trace alone

  ghost function When(c: bool, call: Call): seq<Call> {
    if c then [call] else []
  }

  /** No frame of a transmission is held back, and nothing else is called. */
  lemma FrameReachesTheBridge(s: State, f: Frame, now: int, keyupWorks: bool, lastTick: int)
    requires Agrees(s, now, lastTick)
    ensures var open, calls := ZelloOpen(s.calls), TakeFrame(s, f, now, keyupWorks).calls;
            if !f.ptt then calls == s.calls + [FrameTaken(now)] + When(open, RadioRelease)
            else
              calls == s.calls + [FrameTaken(now)] + When(f.samples == [] || !open, RadioKeyup(keyupWorks))
                                                   + When(f.samples != [] && (open || keyupWorks), RadioFrame)
    ensures ZelloOpen(TakeFrame(s, f, now, keyupWorks).calls) <==> f.ptt && (ZelloOpen(s.calls) || keyupWorks)
    ensures RadioOpen(TakeFrame(s, f, now, keyupWorks).calls) <==> RadioOpen(s.calls)
  {
    FrameAgrees(s, f, now, keyupWorks, lastTick);
  }

  /** A tick ends what has been quiet too long, and leaves everything else as it was. */
  lemma TickEndsOnlyTheQuiet(s: State, now: int, lastTick: int)
    requires Agrees(s, now, lastTick)
    ensures ZelloOpen(Tick(s, now).calls) <==> ZelloOpen(s.calls) && now - LatestFrame(s.calls).value <= IDLE
    ensures RadioOpen(Tick(s, now).calls) <==> RadioOpen(s.calls) && now - Latest(s.calls).value.time <= ZELLO_IDLE
    ensures Tick(s, now).calls
         == s.calls
          + When(ZelloOpen(s.calls) && now - LatestFrame(s.calls).value > IDLE, RadioRelease)
          + When(RadioOpen(s.calls) && now - Latest(s.calls).value.time > ZELLO_IDLE, ZelloStreamStopped(s.zelloStream, now))
    ensures RadioOpen(s.calls) ==> s.zelloStream == Latest(s.calls).value.p.stream
  {
    TickAgrees(s, now, lastTick);
  }

  /** A handled stop ends its own stream; another stream, and the radio side, stay as they were. */
  lemma StopEndsOnlyItsStream(s: State, stop: Packet, now: int, lastTick: int)
    requires Agrees(s, now, lastTick)
    ensures var ends := RadioOpen(s.calls) && Latest(s.calls).value.p.stream == stop.stream;
            && ActOnStop(s, stop, now).calls
               == s.calls + [StopHandled(stop.at)] + When(ends, ZelloStreamStopped(stop.stream, now))
            && (RadioOpen(ActOnStop(s, stop, now).calls) <==> RadioOpen(s.calls) && !ends)
    ensures ZelloOpen(ActOnStop(s, stop, now).calls) <==> ZelloOpen(s.calls)
  {
    ActOnStopAgrees(s, stop, now, lastTick);
    Snoc(s.calls, StopHandled(stop.at));
    Snoc(s.calls + [StopHandled(stop.at)], ZelloStreamStopped(stop.stream, now));
  }

  /** A packet is played at once and opens its stream. */
  lemma PlayOpens(s: State, p: Packet, now: int)
    ensures Play(s, p, now).calls == s.calls + [ZelloPacket(p, now)]
    ensures RadioOpen(Play(s, p, now).calls) && Latest(Play(s, p, now).calls) == Some(ZelloPacket(p, now))
    ensures ZelloOpen(Play(s, p, now).calls) <==> ZelloOpen(s.calls)
  {
    Snoc(s.calls, ZelloPacket(p, now));
  }

  /** Draining plays every packet queued, in order, and calls nothing else. */
  lemma {:induction false} PlayAllCalls(s: State, queued: seq<Packet>, now: int)
    ensures PlayAll(s, queued, now).calls
         == s.calls + seq(|queued|, i requires 0 <= i < |queued| => ZelloPacket(queued[i], now))
    decreases |queued|
  {
    if queued != [] {
      PlayAllCalls(Play(s, queued[0], now), queued[1..], now);
    }
  }
}
