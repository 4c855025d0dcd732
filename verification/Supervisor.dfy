/** The life of one supervised vocoder: opened, checked, and reopened when it stops answering. */
module Supervisor {
  import opened AmbeClient

  class Channel {
    var client: Client?
    var failing: bool // lastErr is set
    var attempts: nat

    constructor ()
      ensures client == null && !failing && attempts == 0
    {
      client, failing, attempts := null, false, 0;
    }

    /** Opening is not tried while a client is there; found is what Open gave, or null for its error. */
    method OpenOnce(found: Client?) returns (ok: bool)
      modifies this
      ensures old(client) != null ==> ok && client == old(client) && attempts == old(attempts) && failing == old(failing)
      ensures old(client) == null ==>
                ok == (found != null) && client == found && attempts == old(attempts) + 1 && failing == (found == null)
    {
      if client != null {
        return true;
      }
      attempts := attempts + 1;
      if found == null {
        failing := true;
        return false;
      }
      client, failing := found, false;
      return true;
    }

    /** The client is closed and let go. */
    method Close()
      requires client == null || client.Valid()
      modifies this`client, if client == null then {} else {client}
      ensures client == null
      ensures old(client) != null ==>
                && old(client).Valid() && old(client).holder.None? && old(client).closed
                && old(client).broken == old(client.broken) && old(client).sent == old(client.sent)
    {
      if client != null {
        client.Close();
        client := null;
      }
    }

    /** One turn of the keeping loop; warn is the line that is not repeated. */
    method Turn(found: Client?) returns (warn: bool)
      requires client == null || client.Valid()
      requires found != null ==> found != client && !found.broken && found.Valid()
      modifies this, if client == null then {} else {client}
      ensures client != null ==> !client.broken && client.Valid()
      ensures client == if old(client) != null && !old(client.broken) then old(client) else found
      ensures Look(client, attempts) == AfterTurn(old(Look(client, attempts)), found != null)
      ensures warn == Warns(old(Look(client, attempts)), found != null)
      ensures old(client) != null && old(client.broken) ==> old(client).holder.None? && old(client).closed && old(client).broken
      ensures old(client) != null && !old(client.broken) ==> old(client).closed == old(client.closed)
    {
      var broken := client != null && client.broken;
      if broken {
        Close();
        attempts := 0;
      }
      var ok := OpenOnce(found);
      warn := !ok && attempts == 1;
    }

    /** Callers get a working client or none. */
    method ClientFor() returns (c: Client?)
      ensures c == if client != null && client.broken then null else client
      ensures c != null ==> !c.broken
    {
      if client != null && client.broken {
        return null;
      }
      return client;
    }
  }

  // ---- what a turn does, for whole runs

  datatype Sight = Absent | Working | Broken
  datatype State = State(sight: Sight, attempts: nat)

  function Look(client: Client?, attempts: nat): State
    reads client
  {
    State(if client == null then Absent else if client.broken then Broken else Working, attempts)
  }

  function Reset(s: State): State {
    if s.sight == Broken then State(Absent, 0) else s
  }

  function AfterTurn(s: State, opens: bool): State {
    var r := Reset(s);
    if r.sight == Working then r else State(if opens then Working else Absent, r.attempts + 1)
  }

  predicate Warns(s: State, opens: bool) {
    var r := Reset(s);
    r.sight == Absent && !opens && r.attempts == 0
  }

  /** Before each turn the client may have broken; after it, opening has gone well or not. */
  datatype Round = Round(breaks: bool, opens: bool)

  function Before(s: State, r: Round): State {
    if r.breaks && s.sight == Working then s.(sight := Broken) else s
  }

  function StateAfter(rounds: seq<Round>): State {
    if rounds == [] then State(Absent, 0)
    else
      var r := rounds[|rounds| - 1];
      AfterTurn(Before(StateAfter(rounds[..|rounds| - 1]), r), r.opens)
  }

  predicate WarnsAt(rounds: seq<Round>, i: nat)
    requires i < |rounds|
  {
    Warns(Before(StateAfter(rounds[..i]), rounds[i]), rounds[i].opens)
  }

  lemma {:induction false} OneAttemptAtLeast(rounds: seq<Round>)
    ensures StateAfter(rounds).sight != Broken
    ensures rounds != [] ==> StateAfter(rounds).attempts > 0
  {
    if rounds != [] {
      OneAttemptAtLeast(rounds[..|rounds| - 1]);
    }
  }

  /** A client that has been replaced broke first, and has been closed with nobody holding it. */
  ghost predicate Replaced(c: Client)
    reads c
  {
    c.broken && c.closed && c.holder.None?
  }

  ghost predicate Fresh(c: Client)
    reads c
  {
    c.Valid() && !c.broken && !c.closed
  }

  ghost function Clients(finds: seq<Client?>): set<Client> {
    set i | 0 <= i < |finds| && finds[i] != null :: finds[i]
  }

  /** Of all clients, those taken so far in order: the last may be in use, those before it are replaced, the rest untouched. */
  ghost predicate Kept(ch: Channel, all: set<Client>, taken: seq<Client>)
    reads ch, all
  {
    && (forall k :: 0 <= k < |taken| ==> taken[k] in all)
    && (forall k :: 0 <= k < |taken| && (k < |taken| - 1 || ch.client == null) ==> Replaced(taken[k]))
    && (ch.client != null ==> taken != [] && ch.client == taken[|taken| - 1] && taken[|taken| - 1].Valid())
    && (forall c :: c in all && c !in taken ==> Fresh(c))
  }

  /** The client may break, and then the loop takes a turn. */
  method OneRound(ch: Channel, r: Round, found: Client?, ghost all: set<Client>, ghost taken: seq<Client>)
    returns (warn: bool, ghost more: seq<Client>)
    requires Kept(ch, all, taken) && r.opens == (found != null)
    requires found != null ==> found in all && found !in taken
    modifies ch, all
    ensures Kept(ch, all, more) && (more == taken || (found != null && more == taken + [found]))
    ensures Look(ch.client, ch.attempts) == AfterTurn(Before(old(Look(ch.client, ch.attempts)), r), r.opens)
    ensures warn == Warns(Before(old(Look(ch.client, ch.attempts)), r), r.opens)
    ensures ch.client != null ==> !ch.client.broken
  {
    if r.breaks && ch.client != null {
      ch.client.broken := true;
    }
    ghost var was := ch.client;
    warn := ch.Turn(found);
    more := if ch.client != null && ch.client != was then taken + [found] else taken;
  }

  /**
   keepOpen until the program ends. Between turns the client may break; finds
   are what opening gives where it is tried, and taken what it did give.
   */
  method KeepOpen(ch: Channel, rounds: seq<Round>, finds: seq<Client?>) returns (warned: seq<bool>, ghost taken: seq<Client>)
    requires ch.client == null && ch.attempts == 0 && |finds| == |rounds|
    requires forall i :: 0 <= i < |finds| ==> rounds[i].opens == (finds[i] != null)
    requires forall c :: c in Clients(finds) ==> Fresh(c)
    requires forall i, j :: 0 <= i < j < |finds| && finds[i] != null ==> finds[i] != finds[j]
    modifies ch, Clients(finds)
    ensures |warned| == |rounds| && forall i :: 0 <= i < |rounds| ==> warned[i] == WarnsAt(rounds, i)
    ensures ch.client == null
    ensures forall k :: 0 <= k < |taken| ==> taken[k].closed && taken[k].holder.None? && (k < |taken| - 1 ==> taken[k].broken)
    ensures forall c :: c in Clients(finds) && c !in taken ==> Fresh(c)
  {
    warned, taken := [], [];
    for i := 0 to |rounds|
      invariant Look(ch.client, ch.attempts) == StateAfter(rounds[..i])
      invariant Kept(ch, Clients(finds), taken)
      invariant forall j :: i <= j < |finds| && finds[j] != null ==> finds[j] !in taken
      invariant |warned| == i && forall j :: 0 <= j < i ==> warned[j] == WarnsAt(rounds, j)
    {
      assert rounds[..i + 1][..i] == rounds[..i];
      var warn;
      warn, taken := OneRound(ch, rounds[i], finds[i], Clients(finds), taken);
      warned := warned + [warn];
    }
    ch.Close();
  }

  /** Between two warnings a client has been open and has broken: an absence is reported once. */
  lemma WarnedOncePerOutage(rounds: seq<Round>, i: nat, j: nat)
    requires i < j < |rounds| && WarnsAt(rounds, i) && WarnsAt(rounds, j)
    ensures rounds[j].breaks && StateAfter(rounds[..j]).sight == Working
  {
    OneAttemptAtLeast(rounds[..j]);
  }

  /** After the first i rounds a client is open: one was found, and since then none has broken without another being found. */
  ghost predicate OpenAfter(rounds: seq<Round>, i: nat)
    requires i <= |rounds|
  {
    exists m :: 0 <= m < i && rounds[m].opens && forall q :: m < q < i ==> rounds[q].opens || !rounds[q].breaks
  }

  lemma {:induction false} WorkingMeansOpen(rounds: seq<Round>, i: nat)
    requires i <= |rounds|
    ensures StateAfter(rounds[..i]).sight == Working <==> OpenAfter(rounds, i)
    ensures StateAfter(rounds[..i]).sight != Broken
  {
    if i > 0 {
      WorkingMeansOpen(rounds, i - 1);
      assert rounds[..i][..i - 1] == rounds[..i - 1];
      if OpenAfter(rounds, i - 1) && (rounds[i - 1].opens || !rounds[i - 1].breaks) {
        var m :| 0 <= m < i - 1 && rounds[m].opens && forall q :: m < q < i - 1 ==> rounds[q].opens || !rounds[q].breaks;
        assert forall q :: m < q < i ==> rounds[q].opens || !rounds[q].breaks;
      }
      if rounds[i - 1].opens {
        assert OpenAfter(rounds, i);
      }
    }
  }

  /** A warning is given exactly for the first failed attempt of an outage: at the start, or when an open client has broken. */
  lemma WarnsExactlyAtTheFirstFailure(rounds: seq<Round>, i: nat)
    requires i < |rounds|
    ensures WarnsAt(rounds, i) <==> !rounds[i].opens && (i == 0 || (OpenAfter(rounds, i) && rounds[i].breaks))
  {
    WorkingMeansOpen(rounds, i);
    OneAttemptAtLeast(rounds[..i]);
  }
}
