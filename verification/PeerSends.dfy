/** A message that is sent to a peer and acknowledged (src/local-peers.js:327-343): first the drain is awaited
    and then, from there on, the acknowledgement. */
module PeerSends {
  import opened Options
  import opened Rpc
  import opened Sets
  import opened LocalPeers

  /** How a send ends. */
  datatype Outcome = Sent | NotConnected | Failed(error: Error)

  /** What a send awaits: a promise, by its number, or nothing. */
  datatype Stage = Draining(d: Option<nat>) | Acking(d: Option<nat>) | Done(outcome: Outcome)

  datatype Send = Send(ack: AckType, inviteId: InviteId, stage: Stage)

  datatype System = System(peer: PeerState, sends: map<nat, Send>)

  const START := System(INIT, map[])

  /** A number for a new promise. */
  ghost function Fresh(promises: map<nat, Promise>): (d: nat)
    ensures d !in promises
  {
    SomeFresh(promises);
    var d: nat :| d !in promises;
    d
  }

  lemma SomeFresh(promises: map<nat, Promise>)
    ensures exists d: nat :: d !in promises
  {
    var d := Above(promises.Keys);
    assert d !in promises;
  }

  /** How the awaited promise stands; awaiting nothing is over at once. */
  function Standing(p: PeerState, d: Option<nat>): Promise
  {
    if d.None? then Resolved else if d.value in p.promises then p.promises[d.value] else Open
  }

  /** The peer's events; a send, up to its first `await`, with what the write and the channel said; or where it
      goes on. */
  datatype Action =
    | Other(event: Event)
    | Begin(s: nat, ack: AckType, inviteId: InviteId, didWrite: bool, closed: bool)
    | Resume(s: nat)

  /** What the peer sees of an action. */
  ghost function PeerEvent(n: System, a: Action): Option<Event>
  {
    match a
    case Other(ev) => Some(ev)
    case Begin(s, _, _, didWrite, closed) =>
      if s in n.sends || n.peer.status != Connected || closed then None
      else Some(WaitForDrain(Fresh(n.peer.promises), didWrite))
    case Resume(s) =>
      if s in n.sends && n.sends[s].stage.Draining? && Standing(n.peer, n.sends[s].stage.d) == Resolved
      then Some(WaitForAck(Fresh(n.peer.promises), n.sends[s].ack, n.sends[s].inviteId))
      else None
  }

  /** What a send awaits after its next stretch. */
  ghost function NextStage(p: PeerState, stage: Stage): Stage
  {
    if stage.Done? then stage else
      match Standing(p, stage.d)
      case Open => stage
      case Rejected(e) => Done(Failed(e))
      case Resolved =>
        if stage.Acking? then Done(Sent)
        else Acking(if SupportsAck(p.features) then Some(Fresh(p.promises)) else None)
  }

  ghost function Sends(n: System, a: Action): map<nat, Send>
  {
    match a
    case Other(_) => n.sends
    case Begin(s, t, id, didWrite, closed) =>
      if s in n.sends then n.sends
      else if n.peer.status != Connected || closed then n.sends[s := Send(t, id, Done(NotConnected))]
      else n.sends[s := Send(t, id, Draining(if didWrite then None else Some(Fresh(n.peer.promises))))]
    case Resume(s) =>
      if s !in n.sends then n.sends
      else n.sends[s := n.sends[s].(stage := NextStage(n.peer, n.sends[s].stage))]
  }

  ghost function Step(n: System, a: Action): System
  {
    System(if PeerEvent(n, a).Some? then LocalPeers.Next(n.peer, PeerEvent(n, a).value) else n.peer, Sends(n, a))
  }

  ghost function RunAll(n: System, actions: seq<Action>): System
    decreases |actions|
  {
    if actions == [] then n else RunAll(Step(n, actions[0]), actions[1..])
  }

  // ----- A send, as told from the actions alone -----

  /** A send before the drain or before the acknowledgement, with what has become of that; or over. */
  datatype Progress = BeforeDrain(p: Promise) | BeforeAck(p: Promise) | Over(outcome: Outcome)

  /** That, and the peer's state and features. */
  datatype View = View(progress: Progress, status: Status, features: seq<Feature>)

  /** What the peer's event does to what a send awaits. */
  function Heard(v: View, t: AckType, id: InviteId, ev: Event): Progress
  {
    match v.progress
    case BeforeDrain(p) => if p == Open then BeforeDrain(Effect(ForDrain, v.status, v.features, ev)) else v.progress
    case BeforeAck(p) => if p == Open then BeforeAck(Effect(ForAck(t, id), v.status, v.features, ev)) else v.progress
    case Over(_) => v.progress
  }

  /** Where a send goes on. */
  function Resumed(v: View): Progress
  {
    match v.progress
    case BeforeDrain(Resolved) => BeforeAck(if AckFeature in v.features then Open else Resolved)
    case BeforeDrain(Rejected(e)) => Over(Failed(e))
    case BeforeAck(Resolved) => Over(Sent)
    case BeforeAck(Rejected(e)) => Over(Failed(e))
    case _ => v.progress
  }

  /** Send `s`, of type `t` for invite `id`, after one action. */
  function Told(v: View, s: nat, t: AckType, id: InviteId, a: Action): View
  {
    match a
    case Other(ev) =>
      View(Heard(v, t, id, ev), NextStatus(v.status, ev), if ev.ReceiveDeviceInfo? then ev.features else v.features)
    case Begin(_, _, _, _, _) => v
    case Resume(s') => if s' == s then v.(progress := Resumed(v)) else v
  }

  function Story(v: View, s: nat, t: AckType, id: InviteId, actions: seq<Action>): View
    decreases |actions|
  {
    if actions == [] then v else Story(Told(v, s, t, id, actions[0]), s, t, id, actions[1..])
  }

  // ----- What every action keeps -----

  /** A promise that waits for `w`: known, and registered as long as it is open. */
  ghost predicate Kept(p: PeerState, d: nat, w: Wait)
  {
    d in p.promises && (p.promises[d] == Open ==> Registered(p, d, w))
  }

  ghost predicate StageOk(p: PeerState, s: Send)
  {
    match s.stage
    case Draining(Some(d)) => Kept(p, d, ForDrain)
    case Acking(Some(d)) => Kept(p, d, ForAck(s.ack, s.inviteId))
    case _ => true
  }

  ghost predicate SystemOk(n: System)
  {
    Inv(n.peer) && forall s :: s in n.sends ==> StageOk(n.peer, n.sends[s])
  }

  /** A promise after an event. */
  lemma KeptNext(p: PeerState, ev: Event, d: nat, w: Wait)
    requires Inv(p) && Kept(p, d, w)
    ensures var p' := Next(p, ev);
      && Kept(p', d, w)
      && p'.promises[d] == if p.promises[d] == Open then Effect(w, p.status, p.features, ev) else p.promises[d]
  {
    if p.promises[d] == Open { StepOf(p, ev, d, w); } else { SettledStays(p, ev, d); }
  }

  lemma StageNext(p: PeerState, ev: Event, s: Send)
    requires Inv(p) && StageOk(p, s)
    ensures StageOk(Next(p, ev), s)
  {
    match s.stage
    case Draining(Some(d)) => KeptNext(p, ev, d, ForDrain);
    case Acking(Some(d)) => KeptNext(p, ev, d, ForAck(s.ack, s.inviteId));
    case _ =>
  }

  lemma StepOk(n: System, a: Action)
    requires SystemOk(n)
    ensures SystemOk(Step(n, a))
  {
    var n', ev := Step(n, a), PeerEvent(n, a);
    if ev.Some? { NextInv(n.peer, ev.value); }
    forall s | s in n'.sends ensures StageOk(n'.peer, n'.sends[s]) {
      if s in n.sends && ev.Some? { StageNext(n.peer, ev.value, n.sends[s]); }
    }
  }

  /** The story is true of the send. */
  ghost predicate Tells(n: System, s: nat, v: View)
  {
    && s in n.sends && n.peer.status == v.status && n.peer.features == v.features
    && v.progress == match n.sends[s].stage
       case Draining(d) => BeforeDrain(Standing(n.peer, d))
       case Acking(d) => BeforeAck(Standing(n.peer, d))
       case Done(o) => Over(o)
  }

  /** Whatever event the peer has, the story goes on as told. */
  lemma HeardTrue(p: PeerState, ev: Event, s: Send, v: View)
    requires Inv(p) && StageOk(p, s) && !s.stage.Done? && p.status == v.status && p.features == v.features
    requires var o := Standing(p, s.stage.d);
      v.progress == if s.stage.Draining? then BeforeDrain(o) else BeforeAck(o)
    ensures var o := Standing(Next(p, ev), s.stage.d);
      Heard(v, s.ack, s.inviteId, ev) == if s.stage.Draining? then BeforeDrain(o) else BeforeAck(o)
  {
    match s.stage
    case Draining(Some(d)) => KeptNext(p, ev, d, ForDrain);
    case Acking(Some(d)) => KeptNext(p, ev, d, ForAck(s.ack, s.inviteId));
    case _ =>
  }

  lemma PeerNext(p: PeerState, ev: Event)
    ensures Next(p, ev).status == NextStatus(p.status, ev)
    ensures Next(p, ev).features == if ev.ReceiveDeviceInfo? then ev.features else p.features
  {
  }

  lemma StepTold(n: System, s: nat, v: View, a: Action)
    requires SystemOk(n) && Tells(n, s, v)
    ensures var send := n.sends[s];
      Tells(Step(n, a), s, Told(v, s, send.ack, send.inviteId, a))
    ensures Step(n, a).sends[s].ack == n.sends[s].ack && Step(n, a).sends[s].inviteId == n.sends[s].inviteId
  {
    var ev := PeerEvent(n, a);
    if ev.Some? {
      PeerNext(n.peer, ev.value);
      if !n.sends[s].stage.Done? { HeardTrue(n.peer, ev.value, n.sends[s], v); }
    }
  }

  /** Over every run: what becomes of a send is what the actions tell. */
  lemma {:induction false} SendMeetsFate(n: System, s: nat, v: View, actions: seq<Action>)
    requires SystemOk(n) && Tells(n, s, v)
    ensures Tells(RunAll(n, actions), s, Story(v, s, n.sends[s].ack, n.sends[s].inviteId, actions))
    decreases |actions|
  {
    if actions != [] {
      StepOk(n, actions[0]);
      StepTold(n, s, v, actions[0]);
      SendMeetsFate(Step(n, actions[0]), s, Told(v, s, n.sends[s].ack, n.sends[s].inviteId, actions[0]), actions[1..]);
    }
  }

  lemma {:induction false} RunOk(n: System, actions: seq<Action>)
    requires SystemOk(n)
    ensures SystemOk(RunAll(n, actions))
    decreases |actions|
  {
    if actions != [] {
      StepOk(n, actions[0]);
      RunOk(Step(n, actions[0]), actions[1..]);
    }
  }

  /** How a send begins. */
  function Beginning(status: Status, features: seq<Feature>, didWrite: bool, closed: bool): View
  {
    View(if status != Connected || closed then Over(NotConnected) else BeforeDrain(if didWrite then Resolved else Open),
      status, features)
  }

  /** From the very start: a send is over exactly when the actions since its beginning say so, and as they say. */
  lemma SendOutcome(before: seq<Action>, s: nat, t: AckType, id: InviteId, didWrite: bool, closed: bool,
    after: seq<Action>, o: Outcome)
    ensures var n0 := RunAll(START, before);
      s !in n0.sends ==>
        var n := RunAll(Step(n0, Begin(s, t, id, didWrite, closed)), after);
        && s in n.sends
        && (n.sends[s].stage == Done(o) <==>
            Story(Beginning(n0.peer.status, n0.peer.features, didWrite, closed), s, t, id, after).progress == Over(o))
  {
    RunOk(START, before);
    var n0, begin := RunAll(START, before), Begin(s, t, id, didWrite, closed);
    if s !in n0.sends {
      StepOk(n0, begin);
      SendMeetsFate(Step(n0, begin), s, Beginning(n0.peer.status, n0.peer.features, didWrite, closed), after);
    }
  }

  // ----- When a send does not end -----

  lemma {:induction false} StoryAppend(v: View, s: nat, t: AckType, id: InviteId, xs: seq<Action>, ys: seq<Action>)
    ensures Story(v, s, t, id, xs + ys) == Story(Story(v, s, t, id, xs), s, t, id, ys)
    decreases |xs|
  {
    if xs == [] {
      assert xs + ys == ys;
    } else {
      assert (xs + ys)[1..] == xs[1..] + ys;
      StoryAppend(Told(v, s, t, id, xs[0]), s, t, id, xs[1..], ys);
    }
  }

  /** An acknowledgement that arrives before the send went on from the drain is lost: without it, the same
      becomes of the send. */
  lemma EarlyAckLost(v: View, s: nat, t: AckType, id: InviteId, xs: seq<Action>, ys: seq<Action>)
    requires Story(v, s, t, id, xs).progress.BeforeDrain?
    ensures Story(v, s, t, id, xs + ([Other(ReceiveAck(t, id))] + ys)) == Story(v, s, t, id, xs + ys)
  {
    var ack := [Other(ReceiveAck(t, id))];
    StoryAppend(v, s, t, id, xs, ack + ys);
    StoryAppend(v, s, t, id, xs, ys);
    assert (ack + ys)[1..] == ys;
  }

  /** What ends the wait for an acknowledgement. */
  predicate Ends(v: View, t: AckType, id: InviteId, a: Action)
  {
    || (a == Other(ReceiveAck(t, id)) && AckFeature in v.features)
    || (a == Other(Disconnect) && v.status != Disconnected)
  }

  /** A send that waits for its acknowledgement goes on waiting exactly as long as neither a matching one
      arrives from a peer that supports them, nor the peer disconnects that has not yet. */
  lemma {:induction false} WaitsExactly(v: View, s: nat, t: AckType, id: InviteId, actions: seq<Action>)
    requires v.progress == BeforeAck(Open)
    ensures Story(v, s, t, id, actions).progress == BeforeAck(Open) <==>
      forall k :: 0 <= k < |actions| ==> !Ends(Story(v, s, t, id, actions[..k]), t, id, actions[k])
    decreases |actions|
  {
    if actions != [] {
      var v1, rest := Told(v, s, t, id, actions[0]), actions[1..];
      assert actions[..0] == [];
      if v1.progress == BeforeAck(Open) {
        WaitsExactly(v1, s, t, id, rest);
        forall k | 0 <= k < |rest| ensures Story(v, s, t, id, actions[..k + 1]) == Story(v1, s, t, id, rest[..k]) {
          assert actions[..k + 1][1..] == rest[..k];
        }
        forall k | 0 <= k < |actions| && Ends(Story(v, s, t, id, actions[..k]), t, id, actions[k])
          ensures k > 0 && rest[k - 1] == actions[k]
        {
        }
      } else {
        SettledKept(v1, s, t, id, rest);
      }
    }
  }

  lemma {:induction false} SettledKept(v: View, s: nat, t: AckType, id: InviteId, actions: seq<Action>)
    requires !v.progress.BeforeDrain? && v.progress != BeforeAck(Open)
    ensures var v' := Story(v, s, t, id, actions); !v'.progress.BeforeDrain? && v'.progress != BeforeAck(Open)
    decreases |actions|
  {
    if actions != [] { SettledKept(Told(v, s, t, id, actions[0]), s, t, id, actions[1..]); }
  }

  /** Without a matching acknowledgement, nothing ends the wait that begins after the disconnection. */
  lemma {:induction false} NoMoreEnds(v: View, s: nat, t: AckType, id: InviteId, actions: seq<Action>)
    requires v.progress == BeforeAck(Open) && v.status == Disconnected
    requires Other(ReceiveAck(t, id)) !in actions
    ensures Story(v, s, t, id, actions).progress == BeforeAck(Open)
    decreases |actions|
  {
    if actions != [] { NoMoreEnds(Told(v, s, t, id, actions[0]), s, t, id, actions[1..]); }
  }

  /** A send whose drain comes right before the disconnection, so that it goes on after it, hangs: whatever
      happens, short of an acknowledgement that still arrives, it never ends. */
  lemma HangsForEver(features: seq<Feature>, s: nat, t: AckType, id: InviteId, actions: seq<Action>)
    requires AckFeature in features && Other(ReceiveAck(t, id)) !in actions
    ensures var v := View(BeforeDrain(Open), Connected, features);
      Story(v, s, t, id, [Other(Drained), Other(Disconnect), Resume(s)] + actions).progress == BeforeAck(Open)
  {
    var v, late := View(BeforeDrain(Open), Connected, features), [Other(Drained), Other(Disconnect), Resume(s)];
    StoryAppend(v, s, t, id, late, actions);
    var v1 := Told(v, s, t, id, late[0]);
    var v2 := Told(v1, s, t, id, late[1]);
    assert late[1..] == [late[1], late[2]] && late[1..][1..] == [late[2]];
    assert Story(v2, s, t, id, [late[2]]) == Told(v2, s, t, id, late[2]);
    NoMoreEnds(Story(v, s, t, id, late), s, t, id, actions);
  }

  // ----- The stretches as they run -----

  /** `sendInvite` and its like, up to the first `await`; `didWrite` and `closed` are what the channel said. */
  method BeginSend(peer: Peer, d: nat, didWrite: bool, closed: bool, ghost n: System, ghost s: nat, t: AckType,
    id: InviteId)
    returns (stage: Stage)
    requires peer.Valid() && n.peer == peer.State() && s !in n.sends && d == Fresh(n.peer.promises)
    modifies peer
    ensures var n' := Step(n, Begin(s, t, id, didWrite, closed));
      peer.Valid() && n'.peer == peer.State() && n'.sends == n.sends[s := Send(t, id, stage)]
  {
    if peer.status != Connected || closed { return Done(NotConnected); }
    peer.WaitForDrainOf(d, didWrite);
    stage := Draining(if didWrite then None else Some(d));
  }

  /** Where it goes on once what it awaits is settled. */
  method ResumeSend(peer: Peer, stage: Stage, d: nat, ghost n: System, ghost s: nat, t: AckType, id: InviteId)
    returns (next: Stage)
    requires peer.Valid() && n.peer == peer.State() && s in n.sends && n.sends[s] == Send(t, id, stage)
    requires !stage.Done? && Standing(peer.State(), stage.d) != Open && d == Fresh(n.peer.promises)
    modifies peer
    ensures var n' := Step(n, Resume(s));
      peer.Valid() && n'.peer == peer.State() && n'.sends == n.sends[s := Send(t, id, next)]
  {
    var outcome := if stage.d.None? then Resolved else peer.promises[stage.d.value];
    if outcome.Rejected? { return Done(Failed(outcome.error)); }
    if stage.Acking? { return Done(Sent); }
    next := Acking(if SupportsAck(peer.features) then Some(d) else None);
    peer.WaitForAckOf(d, t, id);
  }
}
