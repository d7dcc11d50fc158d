/** One connection to a peer: its state, and the calls that wait for a drain or an acknowledgement
    (src/local-peers.js); and which of a device's connections is shown. */
module LocalPeers {
  import opened Options
  import opened Rpc

  datatype Status = Connecting | Connected | Disconnected

  /** A promise; a rejected one with its error. */
  datatype Promise = Open | Resolved | Rejected(error: Error)

  datatype Error = PeerFailedConnection | DisconnectBeforeSending | DisconnectBeforeAck

  datatype AckType = InviteAck | InviteCancelAck | InviteResponseAck | ProjectJoinDetailsAck

  type InviteId = seq<nat>

  /** A promise, by its number, that resolves with the acknowledgement of one invite. */
  datatype Waiter = Waiter(deferred: nat, inviteId: InviteId)

  datatype PeerState = PeerState(
    status: Status,
    connected: Promise,
    features: seq<Feature>,
    drainedListeners: set<nat>,
    ackWaiters: map<AckType, set<Waiter>>,
    promises: map<nat, Promise>)

  const INIT := PeerState(Connecting, Open, [], {}, map[], map[])

  datatype Event =
    | Connect
    | Disconnect
    | Drained
    | WaitForDrain(deferred: nat, didWrite: bool)
    | WaitForAck(deferred: nat, ack: AckType, inviteId: InviteId)
    | ReceiveAck(ack: AckType, inviteId: InviteId)
    | ReceiveDeviceInfo(features: seq<Feature>)

  predicate SupportsAck(features: seq<Feature>) { AckFeature in features }

  /** The promises `ds` settled one way. */
  function Settle(promises: map<nat, Promise>, ds: set<nat>, outcome: Promise): map<nat, Promise>
  {
    map d | d in promises :: if d in ds then outcome else promises[d]
  }

  function Deferreds(waiters: set<Waiter>): (ds: set<nat>)
    ensures forall d :: d in ds <==> exists id :: Waiter(d, id) in waiters
  {
    set w | w in waiters :: w.deferred
  }

  /** All that wait for some acknowledgement. */
  function AllWaiting(ackWaiters: map<AckType, set<Waiter>>): (ds: set<nat>)
    ensures forall d :: d in ds <==> exists t, id :: t in ackWaiters && Waiter(d, id) in ackWaiters[t]
  {
    set t, w | t in ackWaiters && w in ackWaiters[t] :: w.deferred
  }

  function Matching(waiters: set<Waiter>, id: InviteId): set<Waiter>
  {
    set w | w in waiters && w.inviteId == id
  }

  function Next(p: PeerState, ev: Event): PeerState
  {
    match ev
    case Connect => if p.status != Connecting then p else p.(status := Connected, connected := Resolved)
    case Disconnect =>
      if p.status == Disconnected then p else
        p.(status := Disconnected,
           connected := if p.connected == Open then Rejected(PeerFailedConnection) else p.connected,
           promises := Settle(Settle(p.promises, p.drainedListeners, Rejected(DisconnectBeforeSending)),
                              AllWaiting(p.ackWaiters), Rejected(DisconnectBeforeAck)),
           drainedListeners := {}, ackWaiters := map[])
    case Drained => p.(promises := Settle(p.promises, p.drainedListeners, Resolved), drainedListeners := {})
    case WaitForDrain(d, didWrite) =>
      if didWrite || d in p.promises then p
        else p.(promises := p.promises[d := Open], drainedListeners := p.drainedListeners + {d})
    case WaitForAck(d, t, id) =>
      if !SupportsAck(p.features) || d in p.promises then p else
        p.(promises := p.promises[d := Open],
           ackWaiters := p.ackWaiters[t := (if t in p.ackWaiters then p.ackWaiters[t] else {}) + {Waiter(d, id)}])
    case ReceiveAck(t, id) =>
      if !SupportsAck(p.features) || t !in p.ackWaiters then p else
        var found := Matching(p.ackWaiters[t], id);
        p.(promises := Settle(p.promises, Deferreds(found), Resolved),
          ackWaiters := p.ackWaiters[t := p.ackWaiters[t] - found])
    case ReceiveDeviceInfo(features) => p.(features := features)
  }

  function Run(p: PeerState, events: seq<Event>): PeerState
    decreases |events|
  {
    if events == [] then p else Run(Next(p, events[0]), events[1..])
  }

  // ----- What every event keeps -----

  /** What a call waits for. */
  datatype Wait = ForDrain | ForAck(ack: AckType, inviteId: InviteId)

  predicate Registered(p: PeerState, d: nat, w: Wait)
  {
    match w
    case ForDrain => d in p.drainedListeners
    case ForAck(t, id) => t in p.ackWaiters && Waiter(d, id) in p.ackWaiters[t]
  }

  /** The open promises are exactly the registered ones, and each is registered for one thing. */
  ghost predicate Inv(p: PeerState)
  {
    && (forall d, w :: Registered(p, d, w) ==> d in p.promises && p.promises[d] == Open)
    && (forall d :: d in p.promises && p.promises[d] == Open ==> exists w :: Registered(p, d, w))
    && (forall d, w, w' :: Registered(p, d, w) && Registered(p, d, w') ==> w == w')
    && (p.connected == Open <==> p.status == Connecting)
  }

  /** What an event does to a promise that waits for `w`. */
  function Effect(w: Wait, status: Status, features: seq<Feature>, ev: Event): Promise
  {
    match ev
    case Disconnect =>
      if status == Disconnected then Open
      else Rejected(if w.ForDrain? then DisconnectBeforeSending else DisconnectBeforeAck)
    case Drained => if w.ForDrain? then Resolved else Open
    case ReceiveAck(t, id) => if AckFeature in features && w == ForAck(t, id) then Resolved else Open
    case _ => Open
  }

  /** Does the event register promise `d`, not known before, for `w`? */
  predicate Registers(p: PeerState, ev: Event, d: nat, w: Wait)
  {
    && d !in p.promises
    && match ev
       case WaitForDrain(d', didWrite) => d == d' && w == ForDrain && !didWrite
       case WaitForAck(d', t, id) => d == d' && w == ForAck(t, id) && AckFeature in p.features
       case _ => false
  }

  /** An event settles a registered promise, and takes it off the list, or leaves it registered. */
  lemma StepOf(p: PeerState, ev: Event, d: nat, w: Wait)
    requires Inv(p) && Registered(p, d, w)
    ensures var p', o := Next(p, ev), Effect(w, p.status, p.features, ev);
      d in p'.promises && p'.promises[d] == o && (Registered(p', d, w) <==> o == Open)
  {
    forall t, id | t in p.ackWaiters && Waiter(d, id) in p.ackWaiters[t] ensures w == ForAck(t, id) {
      assert Registered(p, d, ForAck(t, id));
    }
    assert d in p.drainedListeners ==> Registered(p, d, ForDrain);
  }

  lemma Newly(p: PeerState, ev: Event, d: nat, w: Wait)
    requires Inv(p)
    ensures var p' := Next(p, ev); Registered(p', d, w) ==>
      (Registered(p, d, w) && Effect(w, p.status, p.features, ev) == Open) || Registers(p, ev, d, w)
  {
  }

  /** What is registered after an event: what was and is not settled by it, and what the event registers. */
  lemma RegisteredExactly(p: PeerState, ev: Event, d: nat, w: Wait)
    requires Inv(p)
    ensures Registered(Next(p, ev), d, w) <==>
      (Registered(p, d, w) && Effect(w, p.status, p.features, ev) == Open) || Registers(p, ev, d, w)
  {
    Newly(p, ev, d, w);
    if Registered(p, d, w) { StepOf(p, ev, d, w); }
  }

  /** A settled promise stays as it is. */
  lemma SettledStays(p: PeerState, ev: Event, d: nat)
    requires Inv(p) && d in p.promises && p.promises[d] != Open
    ensures d in Next(p, ev).promises && Next(p, ev).promises[d] == p.promises[d]
  {
    assert !Registered(p, d, ForDrain);
    forall t, id | t in p.ackWaiters ensures Waiter(d, id) !in p.ackWaiters[t] {
      assert !Registered(p, d, ForAck(t, id));
    }
  }

  lemma NextInv(p: PeerState, ev: Event)
    requires Inv(p)
    ensures Inv(Next(p, ev))
  {
    var p' := Next(p, ev);
    forall d, w | Registered(p', d, w) ensures d in p'.promises && p'.promises[d] == Open {
      Newly(p, ev, d, w);
      if Registered(p, d, w) { StepOf(p, ev, d, w); }
    }
    forall d | d in p'.promises && p'.promises[d] == Open ensures exists w :: Registered(p', d, w) {
      if d in p.promises {
        if p.promises[d] != Open { SettledStays(p, ev, d); }
        var w :| Registered(p, d, w);
        StepOf(p, ev, d, w);
      } else {
        var w := if ev.WaitForDrain? then ForDrain else ForAck(ev.ack, ev.inviteId);
        assert Registered(p', d, w);
      }
    }
    forall d, w, w' | Registered(p', d, w) && Registered(p', d, w') ensures w == w' {
      Newly(p, ev, d, w);
      Newly(p, ev, d, w');
    }
  }

  lemma {:induction false} RunInv(p: PeerState, events: seq<Event>)
    requires Inv(p)
    ensures Inv(Run(p, events))
    decreases |events|
  {
    if events != [] {
      NextInv(p, events[0]);
      RunInv(Next(p, events[0]), events[1..]);
    }
  }

  // ----- The theorems -----

  function NextStatus(status: Status, ev: Event): Status
  {
    match ev
    case Connect => if status == Connecting then Connected else status
    case Disconnect => Disconnected
    case _ => status
  }

  /** What becomes of a promise that waits for `w`, told from the events alone: the first one that concerns
      it settles it. */
  function Fate(w: Wait, status: Status, features: seq<Feature>, events: seq<Event>): Promise
    decreases |events|
  {
    if events == [] then Open else
      var o := Effect(w, status, features, events[0]);
      if o != Open then o
      else Fate(w, NextStatus(status, events[0]),
        if events[0].ReceiveDeviceInfo? then events[0].features else features, events[1..])
  }

  /** Whatever else happens, every promise meets exactly its fate: it is settled once, by the first drain,
      matching acknowledgement or disconnection after it was registered, and stays open if there is none. */
  lemma {:induction false} WaitMeetsFate(p: PeerState, d: nat, w: Wait, events: seq<Event>)
    requires Inv(p) && Registered(p, d, w)
    ensures var p' := Run(p, events); d in p'.promises && p'.promises[d] == Fate(w, p.status, p.features, events)
    decreases |events|
  {
    if events != [] {
      var ev := events[0];
      StepOf(p, ev, d, w);
      NextInv(p, ev);
      if Effect(w, p.status, p.features, ev) == Open {
        WaitMeetsFate(Next(p, ev), d, w, events[1..]);
      } else {
        StaysSettled(Next(p, ev), d, events[1..]);
      }
    }
  }

  /** A promise that is settled stays as it is for ever. */
  lemma {:induction false} StaysSettled(p: PeerState, d: nat, events: seq<Event>)
    requires Inv(p) && d in p.promises && p.promises[d] != Open
    ensures d in Run(p, events).promises && Run(p, events).promises[d] == p.promises[d]
    decreases |events|
  {
    if events != [] {
      SettledStays(p, events[0], d);
      NextInv(p, events[0]);
      StaysSettled(Next(p, events[0]), d, events[1..]);
    }
  }

  /** Disconnecting leaves no promise open and nothing registered. */
  lemma DisconnectRejectsAll(events: seq<Event>)
    ensures var p := Run(INIT, events); var p' := Next(p, Disconnect);
      p.status != Disconnected ==>
        && (forall d :: d in p'.promises ==> p'.promises[d] != Open)
        && (forall d :: d in p.promises && p.promises[d] == Open ==> p'.promises[d].Rejected?)
        && p'.drainedListeners == {} && p'.ackWaiters == map[]
  {
    RunInv(INIT, events);
    var p := Run(INIT, events);
    if p.status != Disconnected {
      forall d | d in p.promises && p.promises[d] == Open ensures Next(p, Disconnect).promises[d].Rejected? {
        var w :| Registered(p, d, w);
        StepOf(p, Disconnect, d, w);
      }
    }
  }

  /** An acknowledgement resolves exactly the promises that wait for its type and invite. */
  lemma AckResolvesExactly(events: seq<Event>, t: AckType, id: InviteId, d: nat)
    ensures var p := Run(INIT, events); var p' := Next(p, ReceiveAck(t, id));
      var hit := AckFeature in p.features && Registered(p, d, ForAck(t, id));
      d in p.promises ==> d in p'.promises && p'.promises[d] == if hit then Resolved else p.promises[d]
  {
    RunInv(INIT, events);
    var p := Run(INIT, events);
    if d in p.promises {
      if p.promises[d] == Open {
        var w :| Registered(p, d, w);
        StepOf(p, ReceiveAck(t, id), d, w);
      } else {
        SettledStays(p, ReceiveAck(t, id), d);
      }
    }
  }

  /** The state only moves from connecting to connected to disconnected, or from connecting straight to
      disconnected; and the `connected` promise says which. */
  lemma {:induction false} StatusMoves(p: PeerState, events: seq<Event>)
    requires Inv(p)
    ensures var p' := Run(p, events);
      && (p.status == Connected ==> p'.status != Connecting && p'.connected == p.connected)
      && (p.status == Disconnected ==> p'.status == Disconnected && p'.connected == p.connected)
    decreases |events|
  {
    if events != [] {
      NextInv(p, events[0]);
      StatusMoves(Next(p, events[0]), events[1..]);
    }
  }

  /** Where a peer stands, over every run: disconnected once it has disconnected, and otherwise connected once it
      has connected; the `connected` promise goes by which of the two came first. */
  lemma StatusExact(events: seq<Event>)
    ensures var p := Run(INIT, events);
      && (p.status == Disconnected <==> Disconnect in events)
      && (p.status == Connected <==> Connect in events && Disconnect !in events)
      && (p.connected == Resolved <==>
            exists k :: 0 <= k < |events| && events[k] == Connect && Disconnect !in events[..k])
      && (p.connected != Resolved ==>
            p.connected == if Disconnect in events then Rejected(PeerFailedConnection) else Open)
  {
    StatusFrom(INIT, events);
  }

  lemma {:induction false} StatusFrom(p: PeerState, events: seq<Event>)
    requires Inv(p) && p.status == Connecting
    ensures var p' := Run(p, events);
      && (p'.status == Disconnected <==> Disconnect in events)
      && (p'.status == Connected <==> Connect in events && Disconnect !in events)
      && (p'.connected == Resolved <==>
            exists k :: 0 <= k < |events| && events[k] == Connect && Disconnect !in events[..k])
      && (p'.connected != Resolved ==>
            p'.connected == if Disconnect in events then Rejected(PeerFailedConnection) else Open)
    decreases |events|
  {
    if events != [] {
      var rest, p1 := events[1..], Next(p, events[0]);
      assert events == [events[0]] + rest;
      NextInv(p, events[0]);
      StatusMoves(p1, rest);
      if events[0] == Connect {
        assert events[0] == Connect && Disconnect !in events[..0];
        ConnectedFrom(p1, rest);
      } else if events[0] == Disconnect {
        assert forall k :: 0 < k < |events| ==> events[..k][0] == Disconnect;
      } else {
        StatusFrom(p1, rest);
        assert forall k :: 0 < k <= |events| ==> events[..k] == [events[0]] + rest[..k - 1];
        if k :| 0 <= k < |events| && events[k] == Connect && Disconnect !in events[..k] {
          assert rest[k - 1] == Connect && Disconnect !in rest[..k - 1];
        }
        if k :| 0 <= k < |rest| && rest[k] == Connect && Disconnect !in rest[..k] {
          assert events[k + 1] == Connect && Disconnect !in events[..k + 1];
        }
      }
    }
  }

  lemma {:induction false} ConnectedFrom(p: PeerState, events: seq<Event>)
    requires Inv(p) && p.status == Connected
    ensures Run(p, events).status == if Disconnect in events then Disconnected else Connected
    decreases |events|
  {
    if events != [] {
      var rest, p1 := events[1..], Next(p, events[0]);
      assert events == [events[0]] + rest;
      NextInv(p, events[0]);
      if events[0] == Disconnect { StatusMoves(p1, rest); } else { ConnectedFrom(p1, rest); }
    }
  }

  // ----- The class -----

  lemma SettleMore(promises: map<nat, Promise>, a: set<nat>, b: set<nat>, outcome: Promise)
    ensures Settle(Settle(promises, a, outcome), b, outcome) == Settle(promises, a + b, outcome)
  {
  }

  /** The promises of the waiters for some of the types. */
  function WaitingFor(ackWaiters: map<AckType, set<Waiter>>, types: set<AckType>): (ds: set<nat>)
    ensures forall d :: d in ds <==> exists t, id :: t in types && t in ackWaiters && Waiter(d, id) in ackWaiters[t]
  {
    set t, w | t in ackWaiters && t in types && w in ackWaiters[t] :: w.deferred
  }

  lemma WaitingForMore(ackWaiters: map<AckType, set<Waiter>>, types: set<AckType>, t: AckType)
    requires t in ackWaiters
    ensures WaitingFor(ackWaiters, types) + Deferreds(ackWaiters[t]) == WaitingFor(ackWaiters, types + {t})
  {
  }

  /** No promise is registered twice. */
  ghost predicate NoneTwice(ackWaiters: map<AckType, set<Waiter>>)
  {
    forall t, w, t', w' :: t in ackWaiters && w in ackWaiters[t] && t' in ackWaiters && w' in ackWaiters[t'] ==>
      w.deferred == w'.deferred ==> t == t' && w == w'
  }

  /** A `Peer`. Promises go by number; `promises` says how each stands. */
  class Peer {
    var status: Status
    var connected: Promise
    var features: seq<Feature>
    var drainedListeners: set<nat>
    var ackWaiters: map<AckType, set<Waiter>>
    var promises: map<nat, Promise>

    function State(): PeerState
      reads this
    {
      PeerState(status, connected, features, drainedListeners, ackWaiters, promises)
    }

    ghost predicate Valid()
      reads this
    {
      Inv(State())
    }

    constructor ()
      ensures Valid() && State() == INIT
    {
      status, connected, features, drainedListeners, ackWaiters, promises := Connecting, Open, [], {}, map[], map[];
    }

    /** Settle a promise, which no one has settled before. */
    method SettleOne(d: nat, outcome: Promise)
      requires d in promises && promises[d] == Open
      modifies this`promises
      ensures promises == Settle(old(promises), {d}, outcome)
    {
      promises := promises[d := outcome];
    }

    method HandleConnect()
      requires Valid()
      modifies this
      ensures Valid() && State() == Next(old(State()), Connect)
    {
      NextInv(State(), Connect);
      if status != Connecting { return; }
      status := Connected;
      connected := Resolved;
    }

    /** The loop over the drain listeners. */
    method SettleListeners(outcome: Promise)
      requires forall d :: d in drainedListeners ==> d in promises && promises[d] == Open
      modifies this`promises
      ensures promises == Settle(old(promises), drainedListeners, outcome)
    {
      var rest := drainedListeners;
      while rest != {}
        invariant rest <= drainedListeners && promises == Settle(old(promises), drainedListeners - rest, outcome)
        decreases rest
      {
        var listener :| listener in rest;
        SettleOne(listener, outcome);
        SettleMore(old(promises), drainedListeners - rest, {listener}, outcome);
        assert drainedListeners - rest + {listener} == drainedListeners - (rest - {listener});
        rest := rest - {listener};
      }
    }

    method HandleDrained()
      requires Valid()
      modifies this
      ensures Valid() && State() == Next(old(State()), Drained)
    {
      NextInv(State(), Drained);
      Pending();
      SettleListeners(Resolved);
      drainedListeners := {};
    }

    /** What is registered is open, and no promise is registered twice. */
    lemma Pending()
      requires Valid()
      ensures forall d :: d in drainedListeners ==> d in promises && promises[d] == Open
      ensures forall t, w :: t in ackWaiters && w in ackWaiters[t] ==>
        w.deferred in promises && promises[w.deferred] == Open && w.deferred !in drainedListeners
      ensures NoneTwice(ackWaiters)
    {
      assert forall d :: d in drainedListeners ==> Registered(State(), d, ForDrain);
      assert forall t, w :: t in ackWaiters && w in ackWaiters[t] ==>
        Registered(State(), w.deferred, ForAck(t, w.inviteId));
      forall t, w, t', w' | t in ackWaiters && w in ackWaiters[t] && t' in ackWaiters && w' in ackWaiters[t'] &&
        w.deferred == w'.deferred
        ensures t == t' && w == w'
      {
        assert Registered(State(), w.deferred, ForAck(t, w.inviteId)) &&
          Registered(State(), w.deferred, ForAck(t', w'.inviteId));
      }
    }

    /** The inner loop of `disconnect`. */
    method RejectWaiters(waiters: set<Waiter>)
      requires forall w :: w in waiters ==> w.deferred in promises && promises[w.deferred] == Open
      requires forall w, w' :: w in waiters && w' in waiters && w.deferred == w'.deferred ==> w == w'
      modifies this`promises
      ensures promises == Settle(old(promises), Deferreds(waiters), Rejected(DisconnectBeforeAck))
    {
      var rest := waiters;
      while rest != {}
        invariant rest <= waiters
        invariant promises == Settle(old(promises), Deferreds(waiters - rest), Rejected(DisconnectBeforeAck))
        decreases rest
      {
        var w :| w in rest;
        SettleOne(w.deferred, Rejected(DisconnectBeforeAck));
        SettleMore(old(promises), Deferreds(waiters - rest), {w.deferred}, Rejected(DisconnectBeforeAck));
        assert w == Waiter(w.deferred, w.inviteId);
        assert Deferreds(waiters - rest) + {w.deferred} == Deferreds(waiters - (rest - {w}));
        rest := rest - {w};
      }
      assert waiters - {} == waiters;
    }

    /** The outer one. */
    method RejectAllWaiters()
      requires forall t, w :: t in ackWaiters && w in ackWaiters[t] ==>
        w.deferred in promises && promises[w.deferred] == Open
      requires NoneTwice(ackWaiters)
      modifies this`promises
      ensures promises == Settle(old(promises), AllWaiting(ackWaiters), Rejected(DisconnectBeforeAck))
    {
      var types, rest := ackWaiters.Keys, ackWaiters.Keys;
      while rest != {}
        invariant rest <= types
        invariant promises == Settle(old(promises), WaitingFor(ackWaiters, types - rest), Rejected(DisconnectBeforeAck))
        decreases rest
      {
        var t :| t in rest;
        RejectWaiters(ackWaiters[t]);
        SettleMore(old(promises), WaitingFor(ackWaiters, types - rest), Deferreds(ackWaiters[t]),
          Rejected(DisconnectBeforeAck));
        WaitingForMore(ackWaiters, types - rest, t);
        assert types - rest + {t} == types - (rest - {t});
        rest := rest - {t};
      }
      assert WaitingFor(ackWaiters, types - {}) == AllWaiting(ackWaiters);
    }

    method HandleDisconnect()
      requires Valid()
      modifies this
      ensures Valid() && State() == Next(old(State()), Disconnect)
    {
      NextInv(State(), Disconnect);
      if status == Disconnected { return; }
      Pending();
      status := Disconnected;
      if connected == Open { connected := Rejected(PeerFailedConnection); }
      SettleListeners(Rejected(DisconnectBeforeSending));
      RejectAllWaiters();
      ackWaiters := map[];
      drainedListeners := {};
    }

    /** `waitForDrain`, with a new promise. */
    method WaitForDrainOf(d: nat, didWrite: bool)
      requires Valid() && d !in promises
      modifies this
      ensures Valid() && State() == Next(old(State()), WaitForDrain(d, didWrite))
      ensures d in drainedListeners <==> !didWrite
    {
      NextInv(State(), WaitForDrain(d, didWrite));
      Pending();
      if didWrite { return; }
      promises := promises[d := Open];
      drainedListeners := drainedListeners + {d};
    }

    /** `waitForAck`, with a new promise. */
    method WaitForAckOf(d: nat, t: AckType, inviteId: InviteId)
      requires Valid() && d !in promises
      modifies this
      ensures Valid() && State() == Next(old(State()), WaitForAck(d, t, inviteId))
      ensures t in ackWaiters && Waiter(d, inviteId) in ackWaiters[t] <==> AckFeature in features
    {
      NextInv(State(), WaitForAck(d, t, inviteId));
      Pending();
      if !SupportsAck(features) { return; }
      if t !in ackWaiters { ackWaiters := ackWaiters[t := {}]; }
      promises := promises[d := Open];
      ackWaiters := ackWaiters[t := ackWaiters[t] + {Waiter(d, inviteId)}];
      assert State() == Next(old(State()), WaitForAck(d, t, inviteId));
    }

    /** The loop of `receiveAck`: it takes waiters off the list while it goes over it. */
    method ResolveMatching(t: AckType, inviteId: InviteId)
      requires t in ackWaiters && forall w :: w in ackWaiters[t] ==>
        w.deferred in promises && promises[w.deferred] == Open
      requires forall w, w' :: w in ackWaiters[t] && w' in ackWaiters[t] && w.deferred == w'.deferred ==> w == w'
      modifies this`promises, this`ackWaiters
      ensures var found := Matching(old(ackWaiters[t]), inviteId);
        promises == Settle(old(promises), Deferreds(found), Resolved) &&
          ackWaiters == old(ackWaiters)[t := old(ackWaiters[t]) - found]
    {
      var waiters, rest := ackWaiters[t], ackWaiters[t];
      assert waiters - Matching(waiters - rest, inviteId) == waiters;
      while rest != {}
        invariant rest <= waiters && t in ackWaiters
        invariant promises == Settle(old(promises), Deferreds(Matching(waiters - rest, inviteId)), Resolved)
        invariant ackWaiters == old(ackWaiters)[t := waiters - Matching(waiters - rest, inviteId)]
        decreases rest
      {
        var w :| w in rest;
        ghost var before, after := Matching(waiters - rest, inviteId), Matching(waiters - (rest - {w}), inviteId);
        if w.inviteId == inviteId {
          SettleOne(w.deferred, Resolved);
          SettleMore(old(promises), Deferreds(before), {w.deferred}, Resolved);
          assert w == Waiter(w.deferred, w.inviteId) && after == before + {w};
          assert Deferreds(after) == Deferreds(before) + {w.deferred};
          assert waiters - before - {w} == waiters - after;
          ackWaiters := ackWaiters[t := ackWaiters[t] - {w}];
        } else {
          assert after == before;
        }
        rest := rest - {w};
      }
      assert waiters - {} == waiters;
    }

    method HandleAck(t: AckType, inviteId: InviteId)
      requires Valid()
      modifies this
      ensures Valid() && State() == Next(old(State()), ReceiveAck(t, inviteId))
    {
      NextInv(State(), ReceiveAck(t, inviteId));
      if !SupportsAck(features) { return; }
      if t !in ackWaiters { return; }
      Pending();
      ResolveMatching(t, inviteId);
    }

    method HandleDeviceInfo(features: seq<Feature>)
      requires Valid()
      modifies this
      ensures Valid() && State() == Next(old(State()), ReceiveDeviceInfo(features))
    {
      NextInv(State(), ReceiveDeviceInfo(features));
      this.features := features;
    }
  }

  // ----- Which connection of a device is shown -----

  /** The status of a connection, and the time it was reached. */
  datatype Info = Info(status: Status, at: int)

  /** The pick among connections: the oldest connected one, else the one disconnected last. */
  ghost predicate IsPick(peers: seq<Info>, k: nat)
  {
    && k < |peers| && peers[k].status != Connecting
    && (peers[k].status == Connected ==>
         forall j :: 0 <= j < |peers| && peers[j].status == Connected ==>
           if j < k then peers[k].at < peers[j].at else peers[k].at <= peers[j].at)
    && (peers[k].status == Disconnected ==>
         forall j :: 0 <= j < |peers| ==>
           peers[j].status == Disconnected && if j < k then peers[j].at < peers[k].at else peers[j].at <= peers[k].at)
  }

  /** `chooseDevicePeer`: none while any connection is being made; otherwise the pick. */
  method ChooseDevicePeer(peers: seq<Info>) returns (pick: Option<nat>)
    ensures pick.None? <==> peers == [] || exists p :: p in peers && p.status == Connecting
    ensures pick.Some? ==> IsPick(peers, pick.value)
  {
    if |peers| == 0 { return None; }
    var k := 0;
    if |peers| > 1 {
      for i := 0 to |peers|
        invariant 0 <= k < |peers| && if i == 0 then k == 0 else k < i
        invariant forall j :: 0 <= j < i ==> peers[j].status != Connecting
        invariant i > 0 ==> IsPick(peers[..i], k)
      {
        var peer, best := peers[i], peers[k];
        if peer.status == Connecting { return None; }
        if peer.status == Connected {
          if best.status != Connected {
            k := i;
          } else if peer.at < best.at {
            k := i;
          }
        } else if best.status == Disconnected && peer.at > best.at {
          k := i;
        }
      }
      assert peers[..|peers|] == peers;
    }
    if peers[k].status == Connecting { return None; }
    return Some(k);
  }
}
