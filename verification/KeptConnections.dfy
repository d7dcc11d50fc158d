/** Which of its connections to a peer a node keeps by itself (src/discovery/local-discovery.js): in runs
    where a connection closes at an end only after that end destroyed it, and no node stops. */
module KeptConnections {
  import opened Options
  import opened LocalDiscoveries
  import opened DuplicateConnections

  /** Was the connection started by the side with the smaller key? */
  predicate Winner(me: nat, l: Link) { l.initiator == (me < l.remote) }

  /** The connections to peer `r`. */
  function To(links: map<nat, Link>, r: nat): set<nat>
  {
    set c | c in links && links[c].remote == r
  }

  function Winners(me: nat, links: map<nat, Link>, r: nat): set<nat>
  {
    set c | c in links && links[c].remote == r && Winner(me, links[c])
  }

  /** The first of `xs` to open. */
  function FirstOf(xs: set<nat>, events: seq<Event>): Option<nat>
    decreases |events|
  {
    if events == [] then None
    else if events[0].Opened? && events[0].conn in xs then Some(events[0].conn)
    else FirstOf(xs, events[1..])
  }

  function Or(first: Option<nat>, second: Option<nat>): Option<nat>
  {
    if first.Some? then first else second
  }

  /** The connection to peer `r` a node decides for: the first one to open from the side with the smaller key;
      if there is none, the first one of all. */
  function Choice(me: nat, links: map<nat, Link>, r: nat, events: seq<Event>): Option<nat>
  {
    Or(FirstOf(Winners(me, links, r), events), FirstOf(To(links, r), events))
  }

  /** The node goes on taking connections, and one to peer `r` closes only if the node itself destroyed it; what
      becomes of those to other peers does not matter. */
  predicate Own(n: Node, r: nat, ev: Event)
  {
    ev.Opened? || ev.Starting? || (ev.Closed? && (ev.conn in To(n.links, r) ==> ev.conn in n.destroyed))
  }

  ghost predicate OwnRun(n: Node, r: nat, events: seq<Event>)
    requires Inv(n, {})
    decreases |events|
  {
    events == [] || (
      && Own(n, r, events[0])
      && (NextKeeps(n, events[0]);
          OwnRun(Next(n, events[0]), r, events[1..])))
  }

  ghost predicate OwnEvents(me: nat, links: map<nat, Link>, r: nat, events: seq<Event>)
  {
    InitInv(me, links);
    OwnRun(Init(me, links), r, events)
  }

  // ----- Other peers' connections -----

  /** Nothing about peer `r` is different. */
  ghost predicate SameFor(n: Node, n': Node, r: nat)
  {
    && n'.links == n.links && n'.me == n.me && n'.listening == n.listening
    && (r in n'.connections <==> r in n.connections) && (r in n.connections ==> n'.connections[r] == n.connections[r])
    && forall c :: c in n.links && n.links[c].remote == r ==>
         && Listeners(n', c) == Listeners(n, c) && (c in n'.destroyed <==> c in n.destroyed)
         && (c in n'.seen <==> c in n.seen) && (c in n'.closed <==> c in n.closed)
  }

  /** Every connection in the map is to the peer it is listed for. */
  ghost predicate Sorted(n: Node)
  {
    forall q :: q in n.connections ==> n.connections[q] in n.links && n.links[n.connections[q]].remote == q
  }

  lemma HandleApart(n: Node, c: nat, r: nat)
    requires c in n.links && Sorted(n) && n.links[c].remote != r
    ensures SameFor(n, Handle(n, c), r) && Sorted(Handle(n, c))
  {
  }

  lemma CallApart(n: Node, c: nat, k: nat, r: nat)
    requires c in n.links && Sorted(n) && k in n.links && n.links[k].remote != r
    ensures SameFor(n, Call(n, c, Swap(k)), r) && Sorted(Call(n, c, Swap(k)))
  {
    if k !in n.flagged { HandleApart(Release(n, k), k, r); }
  }

  lemma {:induction false} FireApart(n: Node, c: nat, ls: seq<Listener>, q: nat, r: nat)
    requires c in n.links && Sorted(n) && q != r
    requires forall l :: l in ls ==> l.Swap? && l.keeping in n.links && n.links[l.keeping].remote == q
    ensures SameFor(n, Fire(n, c, ls), r)
    decreases |ls|
  {
    if ls != [] {
      CallApart(n, c, ls[0].keeping, r);
      FireApart(Call(n, c, ls[0]), c, ls[1..], q, r);
    }
  }

  lemma InvSorted(n: Node)
    requires Inv(n, {})
    ensures Sorted(n)
  {
    forall q | q in n.connections ensures n.connections[q] in n.links && n.links[n.connections[q]].remote == q {
      assert HeldOk(n, q);
    }
  }

  lemma SwapsAre(n: Node, q: nat, ls: seq<Listener>)
    requires Swaps(n, q, ls)
    ensures forall l :: l in ls ==> l.Swap? && l.keeping in n.links && n.links[l.keeping].remote == q
  {
    forall l | l in ls ensures l.Swap? && l.keeping in n.links && n.links[l.keeping].remote == q {
      var i :| 0 <= i < |ls| && ls[i] == l;
    }
  }

  lemma CloseApart(n: Node, c: nat, r: nat)
    requires Inv(n, {}) && c in n.links && c !in n.closed && n.links[c].remote != r && c in n.emitted
    ensures SameFor(n, Next(n, Closed(c)), r)
  {
    InvSorted(n);
    InvIsLinked(n, c);
    ForgetKeeps(n, c);
    var n1, ls, q := n.(closed := n.closed + {c}), Listeners(n, c), n.links[c].remote;
    var n2 := Call(n1, c, Forget);
    SwapsAre(n2, q, ls[1..]);
    FireApart(n2, c, ls[1..], q, r);
  }

  /** An event of a connection to another peer. */
  lemma NextApart(n: Node, ev: Event, r: nat)
    requires Inv(n, {}) && (ev.Opened? || ev.Closed?) && ev.conn !in To(n.links, r)
    ensures SameFor(n, Next(n, ev), r)
  {
    var c := ev.conn;
    if ev.Opened? {
      InvLinked(n, {});
      InvSorted(n);
      if c in n.links && c !in n.seen && c !in n.closed { HandleApart(n.(seen := n.seen + {c}), c, r); }
    } else if c in n.links && c !in n.closed {
      if c in n.emitted { CloseApart(n, c, r); } else { QuietApart(n, c, r); }
    }
  }

  lemma QuietApart(n: Node, c: nat, r: nat)
    requires Inv(n, {}) && c in n.links && c !in n.closed && n.links[c].remote != r && c !in n.emitted
    ensures SameFor(n, Next(n, Closed(c)), r)
  {
    InvIsLinked(n, c);
    QuietCloseKeeps(n, c);
    var n1, ls := n.(closed := n.closed + {c}), Listeners(n, c);
    assert ls == [Flag] ==> Fire(n1, c, ls) == Fire(Call(n1, c, Flag), c, []);
  }

  // ----- The invariant -----

  /** `w` is the first to be handled once the connection in the map, which lost to it, has closed. */
  predicate UpNext(n: Node, r: nat, w: nat)
  {
    && r in n.connections && n.connections[r] in n.links && !Winner(n.me, n.links[n.connections[r]])
    && var ls := Listeners(n, n.connections[r]); |ls| > 1 && ls[1] == Swap(w)
  }

  /** The node takes connections, and none to peer `r` closed from outside. */
  ghost predicate Alone(n: Node, r: nat)
  {
    Inv(n, {}) && n.me != r && n.listening && forall c :: c in To(n.links, r) && c in n.closed ==> c in n.destroyed
  }

  /** Nothing has opened yet; or just losers, and the first one is in the map; or some winner, and the first
      one is in the map or will be. What is chosen is never destroyed. */
  ghost predicate Chosen(n: Node, r: nat, w: Option<nat>, f: Option<nat>)
  {
    && (f.None? ==> w.None? && r !in n.connections && forall c :: c in To(n.links, r) ==> c !in n.seen)
    && (w.None? ==> forall c :: c in To(n.links, r) && c in n.seen ==> !Winner(n.me, n.links[c]))
    && (w.None? && f.Some? ==> HeldFor(n, r, f.value) && f.value !in n.destroyed)
    && (w.Some? ==>
        && w.value in n.seen && w.value in To(n.links, r) && Winner(n.me, n.links[w.value])
        && w.value !in n.destroyed && (HeldFor(n, r, w.value) || UpNext(n, r, w.value)))
  }

  predicate HeldFor(n: Node, r: nat, c: nat)
  {
    c in To(n.links, r) && r in n.connections && n.connections[r] == c
  }

  lemma OpenChosen(n: Node, r: nat, w: Option<nat>, f: Option<nat>, c: nat)
    requires Alone(n, r) && Chosen(n, r, w, f) && c in To(n.links, r) && c !in n.seen
    ensures var w' := Or(w, if Winner(n.me, n.links[c]) then Some(c) else None);
      Alone(Next(n, Opened(c)), r) && Chosen(Next(n, Opened(c)), r, w', Or(f, Some(c)))
  {
    NextKeeps(n, Opened(c));
    InvLinked(n, {});
    if r in n.connections { assert HeldOk(n, r); }
  }

  /** The winner `w` is in the map, and not destroyed. */
  ghost predicate Stays(n: Node, r: nat, w: nat)
  {
    InvLinkedNode(n) && HeldFor(n, r, w) && w !in n.destroyed && Winner(n.me, n.links[w]) && n.me != r
  }

  /** Whoever comes now is destroyed. */
  lemma CallStays(n: Node, c: nat, l: Listener, r: nat, w: nat)
    requires Stays(n, r, w) && c in n.links && l.Swap? && l.keeping in To(n.links, r) && l.keeping != w
    ensures var n' := Call(n, c, l);
      Stays(n', r, w) && Grows(n, n', {}, {}) && n'.listening == n.listening
  {
  }

  /** Once the winner is in the map, those that waited behind it are destroyed. */
  lemma {:induction false} FireHeld(n: Node, c: nat, ls: seq<Listener>, r: nat, w: nat)
    requires Stays(n, r, w) && c in n.links
    requires forall l :: l in ls ==> l.Swap? && l.keeping in n.links && n.links[l.keeping].remote == r && l.keeping != w
    ensures var n' := Fire(n, c, ls);
      Stays(n', r, w) && Grows(n, n', {}, {}) && n'.listening == n.listening
    decreases |ls|
  {
    if ls != [] {
      CallStays(n, c, ls[0], r, w);
      FireHeld(Call(n, c, ls[0]), c, ls[1..], r, w);
    }
  }

  /** With no connection in the map, the first that waited takes the place. */
  lemma FireUpNext(n: Node, c: nat, r: nat, ls: seq<Listener>, w: nat)
    requires c in n.links && InvLinkedNode(n) && n.me != r
    requires r !in n.connections && n.listening && ls != [] && ls[0] == Swap(w) && Swaps(n, r, ls)
    requires Winner(n.me, n.links[w]) && w !in n.destroyed && w !in n.flagged
    ensures forall l :: l in ls ==> l.Swap? && l.keeping in n.links
    ensures var n' := Fire(n, c, ls);
      Stays(n', r, w) && Grows(n, n', {}, {}) && n'.listening
  {
    SwapsAre(n, r, ls);
    forall l | l in ls[1..] ensures l.keeping != w {
      var i :| 0 <= i < |ls[1..]| && ls[1..][i] == l;
      assert ls[i + 1] == l;
    }
    FireHeld(Call(n, c, ls[0]), c, ls[1..], r, w);
  }

  /** The connection in the map closes, and the first winner takes its place. */
  lemma SwapChosen(n: Node, r: nat, w: nat, c: nat)
    requires Alone(n, r) && HeldFor(n, r, c) && c !in n.closed && c in n.destroyed && c in n.emitted
    requires w in To(n.links, r) && Winner(n.me, n.links[w]) && w !in n.destroyed && UpNext(n, r, w)
    ensures var n' := Next(n, Closed(c));
      Stays(n', r, w) && Grows(n, n', {}, {c}) && n'.listening
  {
    InvIsLinked(n, c);
    ForgetKeeps(n, c);
    var ls := Listeners(n, c);
    var n0 := n.(closed := n.closed + {c});
    var n1 := n0.(connections := n.connections - {r});
    assert Call(n0, c, Forget) == n1;
    assert ls[1..][0] == Swap(w) && Swaps(n1, r, ls[1..]);
    FireUpNext(n1, c, r, ls[1..], w);
  }

  lemma CloseChosen(n: Node, r: nat, w: Option<nat>, f: Option<nat>, c: nat)
    requires Alone(n, r) && Chosen(n, r, w, f) && c in To(n.links, r) && c in n.destroyed
    ensures Alone(Next(n, Closed(c)), r) && Chosen(Next(n, Closed(c)), r, w, f)
  {
    NextKeeps(n, Closed(c));
    if c !in n.closed {
      InvIsLinked(n, c);
      if c in n.emitted {
        ForgetKeeps(n, c);
        SwapChosen(n, r, w.value, c);
      } else {
        QuietCloseKeeps(n, c);
        var n1, ls := n.(closed := n.closed + {c}), Listeners(n, c);
        assert ls == [Flag] ==> Fire(n1, c, ls) == Fire(Call(n1, c, Flag), c, []);
      }
    }
  }

  /** What is so of peer `r` stays so when nothing about it is different. */
  lemma ApartChosen(n: Node, n': Node, r: nat, w: Option<nat>, f: Option<nat>)
    requires Alone(n, r) && Chosen(n, r, w, f) && SameFor(n, n', r) && Inv(n', {})
    ensures Alone(n', r) && Chosen(n', r, w, f)
  {
    if r in n.connections { assert HeldOk(n, r); }
  }

  lemma NextChosen(n: Node, r: nat, w: Option<nat>, f: Option<nat>, ev: Event)
    requires Alone(n, r) && Chosen(n, r, w, f) && Own(n, r, ev)
    ensures var n' := Next(n, ev);
      && Alone(n', r) && n'.me == n.me && n'.links == n.links
      && Chosen(n', r, Or(w, FirstOf(Winners(n.me, n.links, r), [ev])), Or(f, FirstOf(To(n.links, r), [ev])))
  {
    NextGrows(n, ev);
    NextKeeps(n, ev);
    OneEvent(Winners(n.me, n.links, r), ev);
    OneEvent(To(n.links, r), ev);
    if ev.Starting? {
      ApartChosen(n, Next(n, ev), r, w, f);
    } else if ev.conn !in To(n.links, r) {
      NextApart(n, ev, r);
      ApartChosen(n, Next(n, ev), r, w, f);
    } else if ev.Closed? {
      CloseChosen(n, r, w, f, ev.conn);
    } else if ev.conn !in n.seen {
      OpenChosen(n, r, w, f, ev.conn);
    } else {
      SeenBefore(n, r, w, f, ev.conn);
    }
  }

  lemma OneEvent(xs: set<nat>, ev: Event)
    ensures FirstOf(xs, [ev]) == if ev.Opened? && ev.conn in xs then Some(ev.conn) else None
  {
  }

  /** A connection that has opened before is the first no more. */
  lemma SeenBefore(n: Node, r: nat, w: Option<nat>, f: Option<nat>, c: nat)
    requires Chosen(n, r, w, f) && c in To(n.links, r) && c in n.seen
    ensures f.Some? && (Winner(n.me, n.links[c]) ==> w.Some?)
  {
  }

  lemma {:induction false} RunChosen(n: Node, r: nat, w: Option<nat>, f: Option<nat>, events: seq<Event>)
    requires Alone(n, r) && Chosen(n, r, w, f) && OwnRun(n, r, events)
    ensures var n' := Run(n, events);
      && Alone(n', r) && n'.me == n.me && n'.links == n.links
      && Chosen(n', r, Or(w, FirstOf(Winners(n.me, n.links, r), events)), Or(f, FirstOf(To(n.links, r), events)))
    decreases |events|
  {
    if events != [] {
      var ev, ws, xs := events[0], Winners(n.me, n.links, r), To(n.links, r);
      NextChosen(n, r, w, f, ev);
      RunChosen(Next(n, ev), r, Or(w, FirstOf(ws, [ev])), Or(f, FirstOf(xs, [ev])), events[1..]);
      OneThenRest(ws, w, events);
      OneThenRest(xs, f, events);
    }
  }

  lemma OneThenRest(xs: set<nat>, first: Option<nat>, events: seq<Event>)
    requires events != []
    ensures Or(Or(first, FirstOf(xs, [events[0]])), FirstOf(xs, events[1..])) == Or(first, FirstOf(xs, events))
  {
  }

  // ----- One end -----

  /** Everything to peer `r` has opened, and what of it the node destroyed has closed. */
  predicate Settled(n: Node, r: nat)
  {
    forall c :: c in To(n.links, r) ==> c in n.seen && (c in n.destroyed ==> c in n.closed)
  }

  /** Whatever connections a node has: of any number of them to one peer, it never destroys the one it decides
      for; and when all is settled, that is the one in the map. */
  lemma KeepsChoice(me: nat, r: nat, links: map<nat, Link>, events: seq<Event>)
    requires me != r && OwnEvents(me, links, r, events)
    ensures Inv(Init(me, links), {})
    ensures var n, choice := Run(Init(me, links), events), Choice(me, links, r, events);
      && (choice.Some? ==> choice.value in To(links, r) && choice.value !in n.destroyed)
      && (Settled(n, r) && To(links, r) != {} ==>
            choice.Some? && r in n.connections && n.connections[r] == choice.value)
      && (Settled(n, r) && choice.Some? ==> (choice.value in Winners(me, links, r) <==> Winners(me, links, r) != {}))
  {
    InitInv(me, links);
    RunChosen(Init(me, links), r, None, None, events);
    var n, w, f := Run(Init(me, links), events), FirstOf(Winners(me, links, r), events), FirstOf(To(links, r), events);
    assert Chosen(n, r, w, f);
    FirstIn(Winners(me, links, r), events);
    FirstIn(To(links, r), events);
    if Settled(n, r) && To(links, r) != {} {
      var c :| c in To(links, r);
      assert c in n.seen;
      assert r in n.connections ==> HeldOk(n, r);
    }
  }

  lemma {:induction false} FirstIn(xs: set<nat>, events: seq<Event>)
    ensures FirstOf(xs, events).Some? ==> FirstOf(xs, events).value in xs
    decreases |events|
  {
    if events != [] { FirstIn(xs, events[1..]); }
  }

  // ----- Both ends -----

  /** A step at either end, on its own. */
  predicate OwnAction(net: Net, action: Action)
  {
    match action
    case AtA(ev) => Own(net.a, net.b.me, ev)
    case AtB(ev) => Own(net.b, net.a.me, ev)
    case Break(_) => false
  }

  /** A connection closes at an end only after that end destroyed it; nothing breaks, and no node stops. */
  ghost predicate OnlyOwn(net: Net, actions: seq<Action>)
    requires NetInv(net)
    decreases |actions|
  {
    actions == [] || (
      && OwnAction(net, actions[0])
      && (NetNextKeeps(net, actions[0]);
          OnlyOwn(NetNext(net, actions[0]), actions[1..])))
  }

  ghost predicate OwnClosings(a: nat, b: nat, byA: map<nat, bool>, actions: seq<Action>)
  {
    StartInv(a, b, byA);
    OnlyOwn(Start(a, b, byA), actions)
  }

  function EventsA(actions: seq<Action>): seq<Event>
    decreases |actions|
  {
    if actions == [] then []
    else if actions[0].AtA? then [actions[0].event] + EventsA(actions[1..])
    else EventsA(actions[1..])
  }

  function EventsB(actions: seq<Action>): seq<Event>
    decreases |actions|
  {
    if actions == [] then []
    else if actions[0].AtB? then [actions[0].event] + EventsB(actions[1..])
    else EventsB(actions[1..])
  }

  /** Such a run is a run of each end by itself. */
  lemma {:induction false} Apart(net: Net, actions: seq<Action>)
    requires NetInv(net) && OnlyOwn(net, actions)
    requires forall c :: c in net.a.links ==> net.a.links[c].remote == net.b.me
    requires forall c :: c in net.b.links ==> net.b.links[c].remote == net.a.me
    ensures NetRun(net, actions).a == Run(net.a, EventsA(actions)) && OwnRun(net.a, net.b.me, EventsA(actions))
    ensures NetRun(net, actions).b == Run(net.b, EventsB(actions)) && OwnRun(net.b, net.a.me, EventsB(actions))
    decreases |actions|
  {
    if actions != [] {
      NetNextKeeps(net, actions[0]);
      Apart(NetNext(net, actions[0]), actions[1..]);
      var ev := actions[0].event;
      assert ([ev] + EventsA(actions[1..]))[1..] == EventsA(actions[1..]);
      assert ([ev] + EventsB(actions[1..]))[1..] == EventsB(actions[1..]);
    }
  }

  /** The connections started by the side with the smaller key. */
  function Preferred(a: nat, b: nat, byA: map<nat, bool>): set<nat>
  {
    set c | c in byA && byA[c] == (a < b)
  }

  lemma SameWinners(a: nat, b: nat, byA: map<nat, bool>)
    requires a != b
    ensures Winners(a, LinksOf(byA, b, true), b) == Winners(b, LinksOf(byA, a, false), a) == Preferred(a, b, byA)
    ensures To(LinksOf(byA, b, true), b) == To(LinksOf(byA, a, false), a) == byA.Keys
  {
  }

  /** With any number of connections and none that closes from outside, when all is settled each end holds
      the one it decided for. */
  lemma EachKeepsChoice(a: nat, b: nat, byA: map<nat, bool>, actions: seq<Action>)
    requires a != b && OwnClosings(a, b, byA, actions) && byA != map[]
    ensures var net, links := End(a, b, byA, actions), LinksOf(byA, b, true);
      var choice := Choice(a, links, b, EventsA(actions));
      Settled(net.a, b) ==>
        && choice.Some? && (choice.value in Preferred(a, b, byA) <==> Preferred(a, b, byA) != {})
        && forall c :: Held(net.a, c) <==> c == choice.value
    ensures var net, links := End(a, b, byA, actions), LinksOf(byA, a, false);
      var choice := Choice(b, links, a, EventsB(actions));
      Settled(net.b, a) ==>
        && choice.Some? && (choice.value in Preferred(a, b, byA) <==> Preferred(a, b, byA) != {})
        && forall c :: Held(net.b, c) <==> c == choice.value
  {
    StartInv(a, b, byA);
    Apart(Start(a, b, byA), actions);
    var c :| c in byA;
    assert c in LinksOf(byA, b, true) && c in LinksOf(byA, a, false);
    SameWinners(a, b, byA);
    KeepsChoice(a, b, LinksOf(byA, b, true), EventsA(actions));
    KeepsChoice(b, a, LinksOf(byA, a, false), EventsB(actions));
  }

  /** So both ends keep a connection started by the same side: the one with the smaller key, if it started
      any. It need not be the same connection. */
  lemma SameInitiator(a: nat, b: nat, byA: map<nat, bool>, actions: seq<Action>)
    requires a != b && OwnClosings(a, b, byA, actions) && byA != map[]
    ensures var net := End(a, b, byA, actions);
      Settled(net.a, b) && Settled(net.b, a) ==>
        exists g, h :: Held(net.a, g) && Held(net.b, h) && byA[g] == byA[h] &&
          (g in Preferred(a, b, byA) <==> Preferred(a, b, byA) != {})
  {
    EachKeepsChoice(a, b, byA, actions);
    var net := End(a, b, byA, actions);
    if Settled(net.a, b) && Settled(net.b, a) {
      var g := Choice(a, LinksOf(byA, b, true), b, EventsA(actions)).value;
      var h := Choice(b, LinksOf(byA, a, false), a, EventsB(actions)).value;
      assert Held(net.a, g) && Held(net.b, h);
    }
  }

  /** It is the same one exactly when both ends decided for the same: when their first ones, of those that
      count, are the same. */
  lemma SameConnectionExact(a: nat, b: nat, byA: map<nat, bool>, actions: seq<Action>)
    requires a != b && OwnClosings(a, b, byA, actions) && byA != map[]
    ensures var net := End(a, b, byA, actions);
      Settled(net.a, b) && Settled(net.b, a) ==>
        (Survives(net) <==>
         Choice(a, LinksOf(byA, b, true), b, EventsA(actions)) ==
           Choice(b, LinksOf(byA, a, false), a, EventsB(actions)))
  {
    EachKeepsChoice(a, b, byA, actions);
    var net, choice := End(a, b, byA, actions), Choice(a, LinksOf(byA, b, true), b, EventsA(actions));
    if Settled(net.a, b) && Settled(net.b, a) { assert Held(net.a, choice.value); }
  }
}
