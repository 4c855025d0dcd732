/**
 Where the two promises of the shared vocoder end: exactly which release inside
 Close lets a second call in, and exactly when a request can be given a reply
 that answers another.
 */
module VocoderLimits {
  import opened Wrappers
  import opened VocoderChannel

  /** Steps of callers, chip, link and socket. */
  ghost predicate Path(path: seq<World>) {
    |path| > 0 && forall i :: 0 <= i < |path| - 1 ==> Step(path[i], path[i + 1])
  }

  /** The same with releases inside Close anywhere among them. */
  ghost predicate Walk(path: seq<World>) {
    |path| > 0 && forall i :: 0 <= i < |path| - 1 ==> Step(path[i], path[i + 1]) || CloseReleases(path[i], path[i + 1])
  }

  function Last(path: seq<World>): World
    requires path != []
  {
    path[|path| - 1]
  }

  lemma ThreadExtends(path: seq<World>, x: World, t: Thread) returns (longer: seq<World>)
    requires Path(path) && ThreadStep(Last(path), x, t)
    ensures Path(longer) && longer[0] == path[0] && Last(longer) == x
  {
    assert Step(Last(path), x);
    longer := path + [x];
  }

  lemma RunGoesOnWith(run: seq<World>, path: seq<World>)
    requires Run(run) && Walk(path) && Last(run) == path[0]
    ensures Run(run + path[1..]) && Last(run + path[1..]) == Last(path)
  {
    if |path| > 1 {
    }
  }

  // ---- a goroutine nobody has heard of

  lemma {:induction false} BoundOf(s: set<Thread>) returns (n: nat)
    ensures forall t :: t in s ==> t < n
  {
    if s == {} {
      n := 0;
    } else {
      var t :| t in s;
      var m := BoundOf(s - {t});
      n := if m <= t then t + 1 else m;
      assert forall u :: u in s ==> u == t || u in s - {t};
    }
  }

  lemma SomebodyElse(w: World, t: Thread) returns (u: Thread)
    ensures u != t && PcOf(w, u) == Idle && u !in w.calls
  {
    var n := BoundOf(w.pcs.Keys + w.calls + {t});
    assert n !in w.pcs.Keys + w.calls + {t};
    u := n;
  }

  // ---- the wire and the lock are cleared

  ghost predicate Clear(w: World) {
    w.mutex.None? && !w.closed && w.toChip == [] && w.toClient == []
  }

  lemma {:induction false} WireClears(path: seq<World>) returns (longer: seq<World>)
    requires Path(path)
    ensures Path(longer) && longer[0] == path[0] && Last(longer) == Last(path).(toChip := [], toClient := [])
    decreases Outstanding(Last(path))
  {
    var w := Last(path);
    if w.toChip == [] && w.toClient == [] {
      longer := path;
    } else {
      var x := if w.toChip != [] then w.(toChip := w.toChip[1..]) else w.(toClient := w.toClient[1..]);
      assert w.toChip != [] ==> w.toChip[..0] + w.toChip[0 + 1..] == w.toChip[1..];
      assert w.toClient != [] ==> w.toClient[..0] + w.toClient[0 + 1..] == w.toClient[1..];
      assert Loses(w, x);
      longer := WireClears(path + [x]);
    }
  }

  /** A deadline passes, and what is left on the wire is lost. */
  lemma AllClears(path: seq<World>) returns (longer: seq<World>)
    requires Path(path) && LockInv(Last(path)) && !Last(path).closed
    ensures Path(longer) && longer[0] == path[0]
    ensures var w, x := Last(path), Last(longer);
            && Clear(x) && x.holder == w.holder && x.calls == w.calls
            && forall t: Thread :: Acquiring(PcOf(x, t)) == Acquiring(PcOf(w, t)) && !PcOf(x, t).Awaits?
  {
    var w := Last(path);
    longer := path;
    if a: Thread :| w.mutex == Some(a) {
      assert PcOf(w, a).Awaits?;
      longer := ThreadExtends(longer, Failed(w, a, PcOf(w, a).what).(mutex := None), a);
    }
    longer := WireClears(longer);
    forall t: Thread
      ensures Acquiring(PcOf(Last(longer), t)) == Acquiring(PcOf(w, t)) && !PcOf(Last(longer), t).Awaits?
    {
      assert PcOf(w, t).Awaits? <==> w.mutex == Some(t);
    }
  }

  // ---- a call that goes well

  /** One exchange on a clear wire: send, answer, receive. */
  lemma ExchangeGoesWell(path: seq<World>, t: Thread, what: Purpose) returns (longer: seq<World>)
    requires Path(path) && Clear(Last(path)) && PcOf(Last(path), t) == Wants(what)
    ensures Path(longer) && longer[0] == path[0]
    ensures var w := Last(path);
            var reply := Reply(w.sent, true);
            Last(longer) == Logged(After(OnTheWire(w, t, what).(mutex := None, toChip := [], toClient := []), t, what, reply),
                                   Received(t, what, w.sent, reply, w.broken))
  {
    var w := Last(path);
    var sent := OnTheWire(w, t, what);
    longer := ThreadExtends(path, sent, t);
    var reply := Reply(w.sent, true);
    var answered := sent.(toChip := sent.toChip[1..], toClient := sent.toClient + [Reply(sent.toChip[0], true)]);
    assert Answers(sent, answered);
    longer := longer + [answered];
    assert answered.toClient == [reply] && answered.toClient[1..] == [];
    var received := Logged(After(answered.(mutex := None, toClient := []), t, what, reply), Received(t, what, w.sent, reply, w.broken));
    assert Receives(answered, received, t);
    longer := ThreadExtends(longer, received, t);
  }

  lemma AcquireGoesWell(path: seq<World>, t: Thread) returns (longer: seq<World>)
    requires Path(path) && Clear(Last(path))
    requires Last(path).holder.None? && PcOf(Last(path), t) == Idle && t !in Last(path).calls
    ensures Path(longer) && longer[0] == path[0]
    ensures var w, x := Last(path), Last(longer);
            Clear(x) && x.calls == w.calls + {t} && forall u: Thread :: u != t ==> PcOf(x, u) == PcOf(w, u)
  {
    var w := Last(path);
    var took := Logged(At(w, t, Wants(Rate)).(holder := Some(t)), Took(t));
    longer := ThreadExtends(path, took, t);
    longer := ExchangeGoesWell(longer, t, Rate);
    longer := ExchangeGoesWell(longer, t, Init);
  }

  // ---- the release inside Close

  /** A call that has the channel is joined by another. */
  lemma JoinedByAnother(path: seq<World>, t: Thread) returns (longer: seq<World>)
    requires Path(path) && Clear(Last(path)) && Last(path).holder.None? && t in Last(path).calls
    ensures Path(longer) && longer[0] == path[0] && !AtMostOne(Last(longer).calls)
  {
    var u := SomebodyElse(Last(path), t);
    longer := AcquireGoesWell(path, u);
    assert t in Last(longer).calls && u in Last(longer).calls;
  }

  /** A call still acquiring fails after another has come in, and clears the other's hold. */
  lemma FailsAfterAnother(path: seq<World>, t: Thread) returns (longer: seq<World>)
    requires Path(path) && Clear(Last(path)) && Last(path).holder.None? && PcOf(Last(path), t).Failing?
    ensures Path(longer) && longer[0] == path[0] && !AtMostOne(Last(longer).calls)
  {
    var u := SomebodyElse(Last(path), t);
    longer := AcquireGoesWell(path, u);
    var w := Last(longer);
    assert PcOf(w, t) == PcOf(Last(path), t);
    longer := ThreadExtends(longer, Logged(At(w, t, Idle).(holder := None, broken := w.broken || PcOf(w, t).mark), Gave(t)), t);
    longer := JoinedByAnother(longer, u);
  }

  /** The channel is taken from somebody over an open socket: a second call can come to have it. */
  lemma ASecondCallGetsIn(w: World, t: Thread) returns (path: seq<World>)
    requires LockInv(w) && !w.closed && (t in w.calls || Acquiring(PcOf(w, t)))
    ensures Path(path) && path[0] == w.(holder := None) && !AtMostOne(Last(path).calls)
  {
    var x := w.(holder := None);
    SameThreadsKeepLock(w, x);
    assert PcOf(x, t) == PcOf(w, t);
    path := AllClears([x]);
    var y := Last(path);
    if t in y.calls {
      path := JoinedByAnother(path, t);
    } else {
      if PcOf(y, t).Wants? {
        path := ThreadExtends(path, Failed(y, t, PcOf(y, t).what), t);
      }
      path := FailsAfterAnother(path, t);
    }
  }

  lemma HarmlessGoesOn(run: seq<World>, path: seq<World>)
    requires Run(run) && Harmless(run) && Path(path) && TakesFromNobody(Last(run), path[0])
    ensures Run(run + path) && Harmless(run + path)
  {
  }

  /**
   After releases that took the channel from nobody, one more leads to two calls
   at once exactly when it finds a holder and the socket is still open.
   */
  lemma ReleaseDoesHarmExactlyWhen(run: seq<World>)
    requires Run(run) && Harmless(run)
    ensures (exists path :: Path(path) && path[0] == Last(run).(holder := None) && !AtMostOne(Last(path).calls))
       <==> Last(run).holder.Some? && !Last(run).closed
  {
    var w := Last(run);
    if w.holder.Some? && !w.closed {
      EveryRunKeepsCalls(run, |run| - 1);
      EveryRunKeepsWire(run, |run| - 1);
      CallFacts(w, w.holder.value);
      var path := ASecondCallGetsIn(w, w.holder.value);
    } else {
      forall path | Path(path) && path[0] == w.(holder := None)
        ensures AtMostOne(Last(path).calls)
      {
        HarmlessGoesOn(run, path);
        EveryRunKeepsCalls(run + path, |run + path| - 1);
      }
    }
  }

  /** The shortest such run: a call acquires, the supervisor closes, another call acquires. */
  lemma CloseLetsASecondCallIn() returns (run: seq<World>)
    ensures Run(run) && !AtMostOne(Last(run).calls)
  {
    assert PcOf(OPENED, 0) == Idle;
    var first := AcquireGoesWell([OPENED], 0);
    EveryRunKeepsWire(first, |first| - 1);
    var second := ASecondCallGetsIn(Last(first), 0);
    run := first + second;
  }

  // ---- the reply to the next request

  /** Every reply taken for this request answers it. */
  ghost predicate OnlyOwn(log: seq<Event>, request: nat) {
    forall k :: 0 <= k < |log| && log[k].Received? && log[k].request == request ==> log[k].reply.to == request
  }

  ghost predicate OnTheWireOnly(w: World, request: nat) {
    && (forall i :: 0 <= i < |w.toChip| ==> w.toChip[i] == request)
    && (forall i :: 0 <= i < |w.toClient| ==> w.toClient[i].to == request)
  }

  /** Numbers are given out in order and never again. */
  ghost predicate NumbersInv(w: World) {
    && (forall t: Thread :: PcOf(w, t).Awaits? ==> PcOf(w, t).request < w.sent)
    && (forall i :: 0 <= i < |w.toChip| ==> w.toChip[i] < w.sent)
    && (forall i :: 0 <= i < |w.toClient| ==> w.toClient[i].to < w.sent)
    && (forall k :: 0 <= k < |w.log| && w.log[k].Received? ==> w.log[k].request < w.sent)
  }

  lemma StepKeepsNumbers(w: World, x: World)
    requires NumbersInv(w) && (Step(w, x) || CloseReleases(w, x))
    ensures NumbersInv(x)
  {
    if t: Thread :| ThreadStep(w, x, t) {
      ThreadKeepsNumbers(w, x, t);
    } else {
      assert x.pcs == w.pcs && x.log == w.log && x.sent == w.sent;
      forall u: Thread ensures PcOf(x, u) == PcOf(w, u) {
      }
    }
  }

  lemma ThreadKeepsNumbers(w: World, x: World, t: Thread)
    requires NumbersInv(w) && ThreadStep(w, x, t)
    ensures NumbersInv(x)
  {
    ThreadKinds(w, x, t);
    if Outside(w, x, t) {
      SameAnswers(w, x);
    } else if Receives(w, x, t) {
      ReceivesKeepsNumbers(w, x, t);
    } else if TimesOut(w, x, t) {
      TimesOutKeepsNumbers(w, x, t);
    } else {
      SentKeepsNumbers(w, t, PcOf(w, t).what);
    }
  }

  lemma SentKeepsNumbers(w: World, t: Thread, what: Purpose)
    requires NumbersInv(w)
    ensures NumbersInv(OnTheWire(w, t, what))
  {
    var x := OnTheWire(w, t, what);
    SameAnswers(w, x);
    forall u: Thread | PcOf(x, u).Awaits? ensures u == t || PcOf(x, u) == PcOf(w, u) {
    }
  }

  lemma TimesOutKeepsNumbers(w: World, x: World, t: Thread)
    requires NumbersInv(w) && TimesOut(w, x, t)
    ensures NumbersInv(x)
  {
    forall u: Thread | PcOf(x, u).Awaits? ensures PcOf(x, u) == PcOf(w, u) {
    }
  }

  lemma ReceivesKeepsNumbers(w: World, x: World, t: Thread)
    requires NumbersInv(w) && Receives(w, x, t)
    ensures NumbersInv(x)
  {
    assert PcOf(w, t).request < w.sent;
    forall u: Thread | PcOf(x, u).Awaits? ensures PcOf(x, u) == PcOf(w, u) {
    }
  }

  lemma {:induction false} EveryRunKeepsNumbers(run: seq<World>, i: nat)
    requires Run(run) && i < |run|
    ensures NumbersInv(run[i])
  {
    if i > 0 {
      EveryRunKeepsNumbers(run, i - 1);
      StepKeepsNumbers(run[i - 1], run[i]);
    }
  }

  /** Before the request is sent nothing is under way; while it is awaited the wire has nothing else. */
  ghost predicate Alone(w: World, request: nat) {
    && LockInv(w) && OnlyOwn(w.log, request) && request <= w.sent
    && (w.sent == request ==> w.mutex.None? && Outstanding(w) == 0)
    && (forall t: Thread :: PcOf(w, t).Awaits? && PcOf(w, t).request == request ==> OnTheWireOnly(w, request))
  }

  lemma ThreadKeepsAlone(w: World, x: World, t: Thread, request: nat)
    requires Alone(w, request) && NumbersInv(w) && ThreadStep(w, x, t) && LockInv(x)
    ensures Alone(x, request)
  {
    ThreadKinds(w, x, t);
    assert PcOf(w, t).Awaits? <==> w.mutex == Some(t);
    if Outside(w, x, t) {
      SameAnswers(w, x);
    } else if Receives(w, x, t) {
      ReceivesKeepsAlone(w, x, t, request);
    } else if TimesOut(w, x, t) {
      TimesOutKeepsAlone(w, x, t, request);
    } else {
      SentKeepsAlone(w, t, PcOf(w, t).what, request);
    }
  }

  lemma SentKeepsAlone(w: World, t: Thread, what: Purpose, request: nat)
    requires Alone(w, request) && NumbersInv(w) && w.mutex.None? && LockInv(OnTheWire(w, t, what))
    ensures Alone(OnTheWire(w, t, what), request)
  {
    var x := OnTheWire(w, t, what);
    SameAnswers(w, x);
    forall u: Thread | PcOf(x, u).Awaits? ensures u == t && PcOf(x, u).request == w.sent {
      assert PcOf(x, u).Awaits? <==> x.mutex == Some(u);
    }
  }

  lemma TimesOutKeepsAlone(w: World, x: World, t: Thread, request: nat)
    requires Alone(w, request) && NumbersInv(w) && TimesOut(w, x, t) && LockInv(x)
    ensures Alone(x, request)
  {
    assert PcOf(w, t).request < w.sent;
    forall u: Thread ensures !PcOf(x, u).Awaits? {
      assert PcOf(x, u).Awaits? <==> x.mutex == Some(u);
    }
  }

  lemma ReceivesKeepsAlone(w: World, x: World, t: Thread, request: nat)
    requires Alone(w, request) && NumbersInv(w) && Receives(w, x, t) && LockInv(x)
    ensures Alone(x, request)
  {
    assert PcOf(w, t).request < w.sent;
    forall u: Thread ensures !PcOf(x, u).Awaits? {
      assert PcOf(x, u).Awaits? <==> x.mutex == Some(u);
    }
  }

  lemma ElsewhereKeepsAlone(w: World, x: World, request: nat)
    requires Alone(w, request) && (Answers(w, x) || Loses(w, x) || SocketCloses(w, x) || CloseReleases(w, x))
    ensures Alone(x, request)
  {
    SameThreadsKeepLock(w, x);
    assert Outstanding(x) <= Outstanding(w);
    forall u: Thread ensures PcOf(x, u) == PcOf(w, u) {
    }
  }

  lemma {:induction false} StaysAlone(run: seq<World>, path: seq<World>, i: nat)
    requires Run(run) && Walk(path) && path[0] == Last(run) && i < |path|
    requires Last(run).mutex.None? && Outstanding(Last(run)) == 0
    ensures Alone(path[i], Last(run).sent) && WireInv(path[i]) && NumbersInv(path[i])
  {
    RunGoesOnWith(run, path[..i + 1]);
    var all := run + path[..i + 1][1..];
    EveryRunKeepsWire(all, |all| - 1);
    EveryRunKeepsNumbers(all, |all| - 1);
    if i > 0 {
      StaysAlone(run, path, i - 1);
      var w, x := path[i - 1], path[i];
      if t: Thread :| ThreadStep(w, x, t) {
        ThreadKeepsAlone(w, x, t, Last(run).sent);
      } else {
        ElsewhereKeepsAlone(w, x, Last(run).sent);
      }
    }
  }

  /** Something is still under way: the next request can be given that. */
  lemma StaleReplyIsTaken(w: World) returns (path: seq<World>)
    requires NumbersInv(w) && w.mutex.None? && !w.closed && Outstanding(w) > 0
    ensures Path(path) && path[0] == w && !OnlyOwn(Last(path).log, w.sent) && Last(path).broken == w.broken
  {
    var t := SomebodyElse(w, 0);
    var a := At(w, t, Wants(Other));
    path := ThreadExtends([w], a, t);
    var b := OnTheWire(a, t, Other);
    path := ThreadExtends(path, b, t);
    if b.toClient == [] {
      var c := b.(toChip := b.toChip[1..], toClient := b.toClient + [Reply(b.toChip[0], true)]);
      assert Answers(b, c);
      path := path + [c];
    }
    var c := Last(path);
    var d := Logged(After(c.(mutex := None, toClient := c.toClient[1..]), t, Other, c.toClient[0]),
                    Received(t, Other, w.sent, c.toClient[0], c.broken));
    assert Receives(c, d, t);
    path := ThreadExtends(path, d, t);
    assert d.log[|d.log| - 1] == Received(t, Other, w.sent, c.toClient[0], c.broken);
  }

  /**
   Marked or not, the next request of a client nobody is using can be given a
   reply that answers another exactly when something is still under way.
   */
  lemma NextReplyCanBeStaleExactlyWhen(run: seq<World>)
    requires Run(run) && Last(run).mutex.None? && !Last(run).closed
    ensures (exists path :: Walk(path) && path[0] == Last(run) && !OnlyOwn(Last(path).log, Last(run).sent))
       <==> Outstanding(Last(run)) > 0
  {
    var w := Last(run);
    if Outstanding(w) > 0 {
      EveryRunKeepsNumbers(run, |run| - 1);
      var path := StaleReplyIsTaken(w);
      assert Walk(path);
    } else {
      forall path | Walk(path) && path[0] == w
        ensures OnlyOwn(Last(path).log, w.sent)
      {
        StaysAlone(run, path, |path| - 1);
      }
    }
  }

  /** A request whose deadline passes before the chip answers it. */
  lemma AnswerComesLate(t: Thread) returns (run: seq<World>)
    ensures Path(run) && run[0] == OPENED
    ensures Last(run) == OPENED.(broken := true, pcs := map[t := Idle], toChip := [0], sent := 1, log := [Sent(t, Other, 0)])
  {
    var a := At(OPENED, t, Wants(Other));
    run := ThreadExtends([OPENED], a, t);
    var b := OnTheWire(a, t, Other);
    run := ThreadExtends(run, b, t);
    var c := Failed(b, t, Other).(mutex := None);
    run := ThreadExtends(run, c, t);
  }

  /** A reply that comes after its deadline is taken for the next request; only the mark tells. */
  lemma LateReplyIsTakenForTheNext() returns (run: seq<World>)
    ensures Run(run) && !OnlyOwn(Last(run).log, 1) && Last(run).broken
  {
    var late := AnswerComesLate(0);
    EveryRunKeepsNumbers(late, |late| - 1);
    var path := StaleReplyIsTaken(Last(late));
    RunGoesOnWith(late, path);
    run := late + path[1..];
  }
}
