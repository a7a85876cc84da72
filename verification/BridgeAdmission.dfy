/** Connection and stream admission of the raw bridge: permits taken and dropped by concurrent handlers. */
module BridgeAdmission {
  import opened Bytes

  type Peer = seq<byte>

  function Acquired(counts: map<Peer, nat>, max: nat, p: Peer): (bool, map<Peer, nat>) {
    var n := Count(counts, p);
    if n >= max then (false, counts[p := n]) else (true, counts[p := n + 1])
  }

  function Dropped(counts: map<Peer, nat>, p: Peer): map<Peer, nat> {
    if Count(counts, p) <= 1 then counts - {p} else counts[p := counts[p] - 1]
  }

  function Count(counts: map<Peer, nat>, p: Peer): nat {
    if p in counts then counts[p] else 0
  }

  /** Per-peer connection counts; each method runs under one lock. */
  class PeerConnectionAdmission {
    const maxPerPeer: nat
    var counts: map<Peer, nat>

    constructor (max: nat)
      ensures maxPerPeer == max && counts == map[]
    {
      maxPerPeer, counts := max, map[];
    }

    method Acquire(p: Peer) returns (ok: bool)
      modifies this
      ensures (ok, counts) == Acquired(old(counts), maxPerPeer, p)
    {
      if p !in counts { counts := counts[p := 0]; }
      assert counts == old(counts)[p := Count(old(counts), p)];
      if counts[p] >= maxPerPeer { return false; }
      counts := counts[p := counts[p] + 1];
      assert counts == old(counts)[p := Count(old(counts), p) + 1];
      return true;
    }

    /** The permit's destructor. */
    method DropPermit(p: Peer)
      modifies this
      ensures counts == Dropped(old(counts), p)
    {
      if p !in counts { return; }
      counts := counts[p := if counts[p] == 0 then 0 else counts[p] - 1];
      if counts[p] == 0 { counts := counts - {p}; }
    }
  }

  class Semaphore {
    var free: nat

    constructor (permits: nat)
      ensures free == permits
    {
      free := permits;
    }

    method TryAcquire() returns (ok: bool)
      modifies this
      ensures ok == (old(free) > 0)
      ensures free == if ok then old(free) - 1 else old(free)
    {
      ok := free > 0;
      if ok { free := free - 1; }
    }

    method Release()
      modifies this
      ensures free == old(free) + 1
    {
      free := free + 1;
    }
  }

  /** Takes one permit from each, or none: a half of the pair is given back. */
  method AdmitStream(streams: Semaphore, local: Semaphore) returns (admitted: bool)
    requires streams != local
    modifies streams, local
    ensures admitted == (old(streams.free) > 0 && old(local.free) > 0)
    ensures admitted ==> streams.free == old(streams.free) - 1 && local.free == old(local.free) - 1
    ensures !admitted ==> streams.free == old(streams.free) && local.free == old(local.free)
  {
    var gotGlobal := streams.TryAcquire();
    var gotLocal := local.TryAcquire();
    if gotGlobal && gotLocal { return true; }
    if gotGlobal { streams.Release(); }
    if gotLocal { local.Release(); }
    admitted := false;
  }

  // All handlers and stream tasks together. Each step is one lock or semaphore operation of one of them.
  // A handler may drop its connection permit while its tasks still hold theirs, as an aborted handler does.

  datatype Limits = Limits(connections: nat, perPeer: nat, streams: nat, perConnection: nat)

  /** How far the handler's current stream admission has come. */
  datatype Admission = Idle | TriedGlobal(global: bool) | TriedBoth(global: bool, local: bool)

  /** `Leaving` still holds the peer permit, after a refused or a dropped connection permit. */
  datatype Stage = Arrived | HasPeer | Live(admission: Admission) | Leaving | Gone

  /** `both` tasks hold a pair of stream permits; `localOnly` have dropped the global half so far. */
  datatype Connection = Connection(peer: Peer, stage: Stage, freeLocal: nat, both: nat, localOnly: nat)

  datatype Bridge = Bridge(counts: map<Peer, nat>, freeConnections: nat, freeStreams: nat, connections: seq<Connection>)

  datatype Event =
    | Arrive(peer: Peer)
    | TakePeer(i: nat) | TakeConnection(i: nat)
    | TryGlobal(i: nat) | TryLocal(i: nat) | Settle(i: nat)
    | DropGlobal(i: nat) | DropLocal(i: nat)
    | DropConnection(i: nat) | DropPeer(i: nat)

  function Start(l: Limits): Bridge {
    Bridge(map[], l.connections, l.streams, [])
  }

  predicate Enabled(s: Bridge, e: Event) {
    if e.Arrive? then true
    else
      && e.i < |s.connections|
      && var c := s.connections[e.i];
         match e
         case TakePeer(_) => c.stage == Arrived
         case TakeConnection(_) => c.stage == HasPeer
         case TryGlobal(_) => c.stage == Live(Idle)
         case TryLocal(_) => c.stage.Live? && c.stage.admission.TriedGlobal?
         case Settle(_) => c.stage.Live? && c.stage.admission.TriedBoth?
         case DropGlobal(_) => c.both > 0
         case DropLocal(_) => c.localOnly > 0
         case DropConnection(_) => c.stage == Live(Idle)
         case DropPeer(_) => c.stage == Leaving
  }

  function Step(l: Limits, s: Bridge, e: Event): Bridge
    requires Enabled(s, e)
  {
    match e
    case Arrive(p) => s.(connections := s.connections + [Connection(p, Arrived, l.perConnection, 0, 0)])
    case TakePeer(i) =>
      var (ok, counts) := Acquired(s.counts, l.perPeer, s.connections[i].peer);
      At(s.(counts := counts), i, s.connections[i].(stage := if ok then HasPeer else Gone))
    case TakeConnection(i) =>
      if s.freeConnections == 0 then At(s, i, s.connections[i].(stage := Leaving))
      else At(s.(freeConnections := s.freeConnections - 1), i, s.connections[i].(stage := Live(Idle)))
    case TryGlobal(i) =>
      var ok := s.freeStreams > 0;
      At(s.(freeStreams := if ok then s.freeStreams - 1 else 0), i, s.connections[i].(stage := Live(TriedGlobal(ok))))
    case TryLocal(i) =>
      var c := s.connections[i];
      var ok := c.freeLocal > 0;
      At(s, i, c.(freeLocal := if ok then c.freeLocal - 1 else 0,
                  stage := Live(TriedBoth(c.stage.admission.global, ok))))
    case Settle(i) =>
      var c := s.connections[i];
      var TriedBoth(g, k) := c.stage.admission;
      if g && k then At(s, i, c.(stage := Live(Idle), both := c.both + 1))
      else At(s.(freeStreams := s.freeStreams + One(g)), i, c.(stage := Live(Idle), freeLocal := c.freeLocal + One(k)))
    case DropGlobal(i) =>
      var c := s.connections[i];
      At(s.(freeStreams := s.freeStreams + 1), i, c.(both := c.both - 1, localOnly := c.localOnly + 1))
    case DropLocal(i) =>
      var c := s.connections[i];
      At(s, i, c.(localOnly := c.localOnly - 1, freeLocal := c.freeLocal + 1))
    case DropConnection(i) =>
      At(s.(freeConnections := s.freeConnections + 1), i, s.connections[i].(stage := Leaving))
    case DropPeer(i) =>
      At(s.(counts := Dropped(s.counts, s.connections[i].peer)), i, s.connections[i].(stage := Gone))
  }

  function At(s: Bridge, i: nat, c: Connection): Bridge
    requires i < |s.connections|
  {
    s.(connections := s.connections[i := c])
  }

  function One(b: bool): nat {
    if b then 1 else 0
  }

  predicate Legal(l: Limits, s: Bridge, es: seq<Event>)
    decreases |es|
  {
    es == [] || (Enabled(s, es[0]) && Legal(l, Step(l, s, es[0]), es[1..]))
  }

  function Run(l: Limits, s: Bridge, es: seq<Event>): Bridge
    requires Legal(l, s, es)
    decreases |es|
  {
    if es == [] then s else Run(l, Step(l, s, es[0]), es[1..])
  }

  // Permits held, per connection and in total.

  function PeerHeld(p: Peer): Connection -> nat {
    (c: Connection) => if c.peer == p && (c.stage.HasPeer? || c.stage.Live? || c.stage.Leaving?) then 1 else 0
  }

  function ConnectionHeld(c: Connection): nat {
    One(c.stage.Live?)
  }

  function GlobalHeld(c: Connection): nat {
    c.both + One(c.stage.Live? && !c.stage.admission.Idle? && c.stage.admission.global)
  }

  function LocalHeld(c: Connection): nat {
    c.both + c.localOnly + One(c.stage.Live? && c.stage.admission.TriedBoth? && c.stage.admission.local)
  }

  function Total(cs: seq<Connection>, held: Connection -> nat): nat
    decreases |cs|
  {
    if cs == [] then 0 else held(cs[0]) + Total(cs[1..], held)
  }

  lemma {:induction false} TotalUpdate(cs: seq<Connection>, i: nat, c: Connection, held: Connection -> nat)
    requires i < |cs|
    ensures Total(cs[i := c], held) + held(cs[i]) == Total(cs, held) + held(c)
    decreases |cs|
  {
    if i == 0 {
      assert cs[i := c][1..] == cs[1..];
    } else {
      TotalUpdate(cs[1..], i - 1, c, held);
      assert cs[i := c][1..] == cs[1..][i - 1 := c];
    }
  }

  lemma {:induction false} TotalAppend(cs: seq<Connection>, c: Connection, held: Connection -> nat)
    ensures Total(cs + [c], held) == Total(cs, held) + held(c)
    decreases |cs|
  {
    if cs == [] {
      assert cs + [c] == [c];
    } else {
      assert (cs + [c])[1..] == cs[1..] + [c];
      TotalAppend(cs[1..], c, held);
    }
  }

  lemma {:induction false} TotalAtLeast(cs: seq<Connection>, i: nat, held: Connection -> nat)
    requires i < |cs|
    ensures held(cs[i]) <= Total(cs, held)
    decreases |cs|
  {
    if i == 0 {
    } else {
      TotalAtLeast(cs[1..], i - 1, held);
    }
  }

  lemma {:induction false} TotalZero(cs: seq<Connection>, held: Connection -> nat)
    requires forall i :: 0 <= i < |cs| ==> held(cs[i]) == 0
    ensures Total(cs, held) == 0
    decreases |cs|
  {
    if cs == [] {
    } else {
      TotalZero(cs[1..], held);
    }
  }

  ghost predicate PeersCounted(l: Limits, s: Bridge) {
    && (forall p :: Count(s.counts, p) == Total(s.connections, PeerHeld(p)))
    && (forall p :: p in s.counts ==> s.counts[p] <= l.perPeer && (l.perPeer > 0 ==> s.counts[p] > 0))
  }

  /** Every permit is free or held by exactly one handler or task. */
  ghost predicate Conserved(l: Limits, s: Bridge) {
    && PeersCounted(l, s)
    && s.freeConnections + Total(s.connections, ConnectionHeld) == l.connections
    && s.freeStreams + Total(s.connections, GlobalHeld) == l.streams
    && (forall i :: 0 <= i < |s.connections| ==> LocalConserved(l, s.connections[i]))
  }

  predicate LocalConserved(l: Limits, c: Connection) {
    c.freeLocal + LocalHeld(c) == l.perConnection
  }

  lemma PeersStillCounted(l: Limits, s: Bridge, s': Bridge, i: nat, c: Connection)
    requires PeersCounted(l, s) && i < |s.connections| && s'.connections == s.connections[i := c]
    requires forall p :: Count(s'.counts, p) + PeerHeld(p)(s.connections[i]) == Count(s.counts, p) + PeerHeld(p)(c)
    requires forall p :: p in s'.counts ==> s'.counts[p] <= l.perPeer && (l.perPeer > 0 ==> s'.counts[p] > 0)
    ensures PeersCounted(l, s')
  {
    forall p
      ensures Count(s'.counts, p) == Total(s'.connections, PeerHeld(p))
    {
      TotalUpdate(s.connections, i, c, PeerHeld(p));
    }
  }

  lemma ArriveConserved(l: Limits, s: Bridge, p: Peer)
    requires Conserved(l, s)
    ensures Conserved(l, Step(l, s, Arrive(p)))
  {
    var c := Connection(p, Arrived, l.perConnection, 0, 0);
    TotalAppend(s.connections, c, ConnectionHeld);
    TotalAppend(s.connections, c, GlobalHeld);
    forall q
      ensures Count(s.counts, q) == Total(s.connections + [c], PeerHeld(q))
    {
      TotalAppend(s.connections, c, PeerHeld(q));
    }
  }

  /** A step changes the peer's count by what the connection's own permit changes. */
  lemma StepCounts(l: Limits, s: Bridge, e: Event, p: Peer)
    requires !e.Arrive? && Enabled(s, e)
    requires PeerHeld(s.connections[e.i].peer)(s.connections[e.i]) <= Count(s.counts, s.connections[e.i].peer)
    ensures var s' := Step(l, s, e);
            Count(s'.counts, p) + PeerHeld(p)(s.connections[e.i])
            == Count(s.counts, p) + PeerHeld(p)(s'.connections[e.i])
  {
  }

  lemma StepEntries(l: Limits, s: Bridge, e: Event, p: Peer)
    requires !e.Arrive? && Enabled(s, e) && p in Step(l, s, e).counts
    requires forall q :: q in s.counts ==> s.counts[q] <= l.perPeer && (l.perPeer > 0 ==> s.counts[q] > 0)
    ensures var n := Step(l, s, e).counts[p]; n <= l.perPeer && (l.perPeer > 0 ==> n > 0)
  {
  }

  lemma StepPeersCounted(l: Limits, s: Bridge, e: Event)
    requires PeersCounted(l, s) && !e.Arrive? && Enabled(s, e)
    ensures PeersCounted(l, Step(l, s, e))
  {
    var s' := Step(l, s, e);
    var c, c' := s.connections[e.i], s'.connections[e.i];
    assert s'.connections == s.connections[e.i := c'];
    hide Total, Step, Enabled;
    TotalAtLeast(s.connections, e.i, PeerHeld(c.peer));
    forall p
      ensures Count(s'.counts, p) + PeerHeld(p)(c) == Count(s.counts, p) + PeerHeld(p)(c')
    {
      StepCounts(l, s, e, p);
    }
    forall p | p in s'.counts
      ensures s'.counts[p] <= l.perPeer && (l.perPeer > 0 ==> s'.counts[p] > 0)
    {
      StepEntries(l, s, e, p);
    }
    PeersStillCounted(l, s, s', e.i, c');
  }

  lemma StepStreamsConserved(l: Limits, s: Bridge, e: Event)
    requires !e.Arrive? && Enabled(s, e)
    ensures var s' := Step(l, s, e);
            && s'.freeConnections + Total(s'.connections, ConnectionHeld)
               == s.freeConnections + Total(s.connections, ConnectionHeld)
            && s'.freeStreams + Total(s'.connections, GlobalHeld) == s.freeStreams + Total(s.connections, GlobalHeld)
            && (LocalConserved(l, s.connections[e.i]) ==> LocalConserved(l, s'.connections[e.i]))
  {
    hide Total;
    var s' := Step(l, s, e);
    assert s'.connections == s.connections[e.i := s'.connections[e.i]];
    TotalUpdate(s.connections, e.i, s'.connections[e.i], ConnectionHeld);
    TotalUpdate(s.connections, e.i, s'.connections[e.i], GlobalHeld);
  }

  lemma StepConserved(l: Limits, s: Bridge, e: Event)
    requires Conserved(l, s) && Enabled(s, e)
    ensures Conserved(l, Step(l, s, e))
  {
    hide Total, PeersCounted, LocalConserved;
    if e.Arrive? {
      ArriveConserved(l, s, e.peer);
    } else {
      StepPeersCounted(l, s, e);
      StepStreamsConserved(l, s, e);
    }
  }

  lemma {:induction false} RunConserved(l: Limits, s: Bridge, es: seq<Event>)
    requires Conserved(l, s) && Legal(l, s, es)
    ensures Conserved(l, Run(l, s, es))
    decreases |es|
  {
    if es == [] {
    } else {
      StepConserved(l, s, es[0]);
      RunConserved(l, Step(l, s, es[0]), es[1..]);
    }
  }

  lemma StartConserved(l: Limits)
    ensures Conserved(l, Start(l))
  {
  }

  /** In every reachable state the map is the live permits per peer and no limit is passed. */
  lemma AdmissionWithinLimits(l: Limits, es: seq<Event>)
    requires Legal(l, Start(l), es)
    ensures var s := Run(l, Start(l), es);
            && (forall p :: Count(s.counts, p) == Total(s.connections, PeerHeld(p)) <= l.perPeer)
            && Total(s.connections, ConnectionHeld) <= l.connections
            && Total(s.connections, GlobalHeld) <= l.streams
            && (forall i :: 0 <= i < |s.connections| ==> LocalHeld(s.connections[i]) <= l.perConnection)
  {
    StartConserved(l);
    RunConserved(l, Start(l), es);
    var s := Run(l, Start(l), es);
    assert forall i :: 0 <= i < |s.connections| ==> LocalConserved(l, s.connections[i]);
  }

  /**
   In every reachable state, a try succeeds exactly when its limit is not used up: the peer's by the connections that
   hold a permit of that peer, the connections' by the live ones, the streams' by the tasks of all connections, and a
   connection's own by its tasks. A refused peer is gone and a refused connection gives its peer permit back.
   */
  lemma AdmittedExactly(l: Limits, es: seq<Event>, e: Event)
    requires Legal(l, Start(l), es) && Enabled(Run(l, Start(l), es), e) && !e.Arrive?
    ensures var s := Run(l, Start(l), es);
            var c, d := s.connections[e.i], Step(l, s, e).connections[e.i];
            && (e.TakePeer? ==> d.stage == if Total(s.connections, PeerHeld(c.peer)) < l.perPeer then HasPeer else Gone)
            && (e.TakeConnection? ==>
                  d.stage == if Total(s.connections, ConnectionHeld) < l.connections then Live(Idle) else Leaving)
            && (e.TryGlobal? ==> d.stage == Live(TriedGlobal(Total(s.connections, GlobalHeld) < l.streams)))
            && (e.TryLocal? ==>
                  d.stage == Live(TriedBoth(c.stage.admission.global, LocalHeld(c) < l.perConnection)))
            && (e.Settle? ==>
                  d.stage == Live(Idle)
                  && d.both == c.both + One(c.stage.admission.global && c.stage.admission.local))
            && d.peer == c.peer
  {
    StartConserved(l);
    RunConserved(l, Start(l), es);
    hide Run, Legal, Total;
    assert LocalConserved(l, Run(l, Start(l), es).connections[e.i]);
  }

  /** No admission is half done and no task has dropped only one of its permits. */
  predicate Settled(c: Connection) {
    c.localOnly == 0 && (c.stage.Live? ==> c.stage.admission.Idle?)
  }

  predicate AllSettled(cs: seq<Connection>) {
    forall i :: 0 <= i < |cs| ==> Settled(cs[i])
  }

  lemma {:induction false} SettledTotals(cs: seq<Connection>)
    requires AllSettled(cs)
    ensures Total(cs, GlobalHeld) == Total(cs, LocalHeld)
    decreases |cs|
  {
    if cs == [] {
    } else {
      assert Settled(cs[0]);
      SettledTotals(cs[1..]);
    }
  }

  /** Between admissions the global permits in use are the sum of the per-connection ones. */
  lemma GlobalIsSumOfLocal(l: Limits, es: seq<Event>)
    requires Legal(l, Start(l), es)
    requires AllSettled(Run(l, Start(l), es).connections)
    ensures var s := Run(l, Start(l), es); l.streams - s.freeStreams == Total(s.connections, LocalHeld)
  {
    StartConserved(l);
    RunConserved(l, Start(l), es);
    SettledTotals(Run(l, Start(l), es).connections);
  }

  predicate Finished(c: Connection) {
    c.stage.Gone? && c.both == 0 && c.localOnly == 0
  }

  predicate AllFinished(cs: seq<Connection>) {
    forall i :: 0 <= i < |cs| ==> Finished(cs[i])
  }

  lemma FinishedHoldNothing(cs: seq<Connection>, p: Peer)
    requires AllFinished(cs)
    ensures Total(cs, ConnectionHeld) == Total(cs, GlobalHeld) == Total(cs, PeerHeld(p)) == 0
  {
    assert forall i :: 0 <= i < |cs| ==> Finished(cs[i]);
    TotalZero(cs, ConnectionHeld);
    TotalZero(cs, GlobalHeld);
    TotalZero(cs, PeerHeld(p));
  }

  lemma FinishedCountsEmpty(l: Limits, s: Bridge)
    requires PeersCounted(l, s) && AllFinished(s.connections) && l.perPeer > 0
    ensures s.counts == map[]
  {
    hide Total, AllFinished;
    forall p
      ensures p !in s.counts
    {
      FinishedHoldNothing(s.connections, p);
    }
  }

  lemma FinishedLocalFree(l: Limits, c: Connection)
    requires Finished(c) && LocalConserved(l, c)
    ensures c.freeLocal == l.perConnection
  {
  }

  /** Once every handler and task is gone, every permit is back. */
  lemma NothingLeaks(l: Limits, es: seq<Event>)
    requires Legal(l, Start(l), es) && l.perPeer > 0
    requires AllFinished(Run(l, Start(l), es).connections)
    ensures var s := Run(l, Start(l), es);
            && s == Start(l).(connections := s.connections)
            && forall i :: 0 <= i < |s.connections| ==> s.connections[i].freeLocal == l.perConnection
  {
    StartConserved(l);
    RunConserved(l, Start(l), es);
    hide Run, Legal, Total, PeersCounted, LocalConserved, Finished;
    var s := Run(l, Start(l), es);
    FinishedHoldNothing(s.connections, []);
    FinishedCountsEmpty(l, s);
    forall i | 0 <= i < |s.connections|
      ensures s.connections[i].freeLocal == l.perConnection
    {
      FinishedLocalFree(l, s.connections[i]);
    }
  }

  /** With no interference the three steps of an admission take the pair or change nothing. */
  lemma AdmissionAtOnce(l: Limits, s: Bridge, i: nat)
    requires Enabled(s, TryGlobal(i))
    ensures var s' := Step(l, Step(l, Step(l, s, TryGlobal(i)), TryLocal(i)), Settle(i));
            var c := s.connections[i];
            s' == if s.freeStreams > 0 && c.freeLocal > 0
                  then At(s.(freeStreams := s.freeStreams - 1), i, c.(freeLocal := c.freeLocal - 1, both := c.both + 1))
                  else s
  {
    var s' := Step(l, Step(l, Step(l, s, TryGlobal(i)), TryLocal(i)), Settle(i));
    assert s.connections[i := s'.connections[i]] == s'.connections;
    assert s.connections[i := s.connections[i]] == s.connections;
  }

  /** Entries stand only for peers with a live permit, exactly when the per-peer limit is not zero. */
  lemma EntriesAreLiveExactly(l: Limits)
    ensures l.perPeer > 0 <==>
            forall es, p :: Legal(l, Start(l), es) && p in Run(l, Start(l), es).counts ==>
                              Total(Run(l, Start(l), es).connections, PeerHeld(p)) > 0
  {
    if l.perPeer > 0 {
      forall es, p | Legal(l, Start(l), es) && p in Run(l, Start(l), es).counts
        ensures Total(Run(l, Start(l), es).connections, PeerHeld(p)) > 0
      {
        StartConserved(l);
        RunConserved(l, Start(l), es);
      }
    } else {
      ZeroLimitLeavesAnEntry(l, []);
    }
  }

  /** The run that leaves an empty entry when the limit is zero. */
  lemma ZeroLimitLeavesAnEntry(l: Limits, p: Peer)
    requires l.perPeer == 0
    ensures var es := [Arrive(p), TakePeer(0)];
            && Legal(l, Start(l), es) && p in Run(l, Start(l), es).counts
            && Total(Run(l, Start(l), es).connections, PeerHeld(p)) == 0
  {
    var es := [Arrive(p), TakePeer(0)];
    assert es[1..] == [TakePeer(0)] && es[1..][1..] == [];
    var s1 := Step(l, Start(l), es[0]);
    var s2 := Step(l, s1, es[1]);
    assert Legal(l, s2, []) && Legal(l, s1, [TakePeer(0)]);
    assert Run(l, Start(l), es) == s2;
    assert s2.connections == [Connection(p, Gone, l.perConnection, 0, 0)];
  }
}
