/** Two nodes that connect to each other any number of times, from either side: which connection is left
    (src/discovery/local-discovery.js). Events come in any order; a connection closes at either end some time
    after either end destroyed it or it broke. */
module DuplicateConnections {
  import opened LocalDiscoveries

  /** Two nodes, and the connections that broke for an outside reason. */
  datatype Net = Net(a: Node, b: Node, broken: set<nat>)

  /** A side's view of the connections: `byA` says which were started by node `a`. */
  function LinksOf(byA: map<nat, bool>, other: nat, isA: bool): map<nat, Link>
  {
    map c | c in byA :: Link(other, byA[c] == isA)
  }

  function Start(a: nat, b: nat, byA: map<nat, bool>): Net
  {
    Net(Init(a, LinksOf(byA, b, true)), Init(b, LinksOf(byA, a, false)), {})
  }

  /** Nothing keeps the connection from closing at both ends. */
  predicate Torn(net: Net, c: nat) { c in net.a.destroyed || c in net.b.destroyed || c in net.broken }

  datatype Action = AtA(event: Event) | AtB(event: Event) | Break(conn: nat)

  /** Closing comes only to a connection that was destroyed or broke. */
  predicate Possible(net: Net, ev: Event) { ev.Closed? ==> Torn(net, ev.conn) }

  ghost predicate NetInv(net: Net)
  {
    && Inv(net.a, {}) && Inv(net.b, {})
    && (forall c :: c in net.a.closed || c in net.b.closed ==> Torn(net, c))
  }

  function NetNext(net: Net, action: Action): Net
    requires NetInv(net)
  {
    match action
    case AtA(ev) => if Possible(net, ev) then net.(a := Next(net.a, ev)) else net
    case AtB(ev) => if Possible(net, ev) then net.(b := Next(net.b, ev)) else net
    case Break(c) => net.(broken := net.broken + {c})
  }

  // ----- What an event changes, roughly -----

  /** Connections are destroyed and never restored; at most `opens` opens and `closes` closes. */
  ghost predicate Grows(n: Node, n': Node, opens: set<nat>, closes: set<nat>)
  {
    && n'.links == n.links && n'.me == n.me && n.destroyed <= n'.destroyed
    && n'.seen == n.seen + opens && n'.closed == n.closed + closes
  }

  lemma HandleGrows(n: Node, c: nat)
    requires c in n.links && InvLinkedNode(n)
    ensures Grows(n, Handle(n, c), {}, {}) && InvLinkedNode(Handle(n, c))
  {
  }

  lemma {:induction false} FireGrows(n: Node, c: nat, ls: seq<Listener>)
    requires c in n.links && InvLinkedNode(n) && forall i :: 0 <= i < |ls| && ls[i].Swap? ==> ls[i].keeping in n.links
    ensures Grows(n, Fire(n, c, ls), {}, {})
    decreases |ls|
  {
    if ls != [] {
      if ls[0].Swap? && ls[0].keeping !in n.flagged { HandleGrows(Release(n, ls[0].keeping), ls[0].keeping); }
      FireGrows(Call(n, c, ls[0]), c, ls[1..]);
    }
  }

  lemma NextGrows(n: Node, ev: Event)
    requires Inv(n, {})
    ensures exists opens, closes ::
      Grows(n, Next(n, ev), opens, closes) && closes <= if ev.Closed? then {ev.conn} else {}
  {
    InvLinked(n, {});
    match ev
    case Opened(c) =>
      if c in n.links && c !in n.seen && c !in n.closed {
        HandleGrows(n.(seen := n.seen + {c}), c);
        assert Grows(n, Next(n, ev), {c}, {});
      } else {
        assert Grows(n, Next(n, ev), {}, {});
      }
    case Closed(c) =>
      if c in n.links && c !in n.closed {
        InvIsLinked(n, c);
        FireGrows(n.(closed := n.closed + {c}), c, Listeners(n, c));
        assert Grows(n, Next(n, ev), {}, {c});
      } else {
        assert Grows(n, Next(n, ev), {}, {});
      }
    case Stopping => assert Grows(n, Next(n, ev), {}, {});
    case Starting => assert Grows(n, Next(n, ev), {}, {});
    case Forcing => assert Grows(n, Next(n, ev), {}, {});
  }

  lemma NetNextKeeps(net: Net, action: Action)
    requires NetInv(net)
    ensures var net' := NetNext(net, action);
      NetInv(net') && net'.a.links == net.a.links && net'.b.links == net.b.links && net'.a.me == net.a.me &&
        net'.b.me == net.b.me
  {
    match action
    case AtA(ev) => NextKeeps(net.a, ev); NextGrows(net.a, ev);
    case AtB(ev) => NextKeeps(net.b, ev); NextGrows(net.b, ev);
    case Break(c) =>
  }

  function NetRun(net: Net, actions: seq<Action>): (net': Net)
    requires NetInv(net)
    ensures NetInv(net') && net'.a.links == net.a.links && net'.b.links == net.b.links && net'.a.me == net.a.me
    ensures net'.b.me == net.b.me
    decreases |actions|
  {
    if actions == [] then net else
      NetNextKeeps(net, actions[0]);
      NetRun(NetNext(net, actions[0]), actions[1..])
  }

  lemma StartInv(a: nat, b: nat, byA: map<nat, bool>)
    ensures NetInv(Start(a, b, byA))
  {
    InitInv(a, LinksOf(byA, b, true));
    InitInv(b, LinksOf(byA, a, false));
  }

  /** The state that a run ends in. */
  function End(a: nat, b: nat, byA: map<nat, bool>, actions: seq<Action>): (net: Net)
    ensures NetInv(net) && net.a.links == LinksOf(byA, b, true) && net.b.links == LinksOf(byA, a, false)
  {
    StartInv(a, b, byA);
    NetRun(Start(a, b, byA), actions)
  }

  // ----- Agreement -----

  /** Nothing is left to happen: at both ends every connection has opened or closed, and those that have to
      close have closed. */
  predicate Quiet(net: Net, n: Node)
  {
    forall c :: c in n.links ==> (c in n.seen || c in n.closed) && (Torn(net, c) ==> c in n.closed)
  }

  /** When all is quiet, nothing is kept for later. */
  lemma QuietNotPending(net: Net, n: Node, c: nat)
    requires NetInv(net) && (n == net.a || n == net.b) && Quiet(net, n)
    ensures !Pending(n, c)
  {
    if c in n.links && n.links[c].remote in n.connections {
      assert HeldOk(n, n.links[c].remote);
      var e := n.connections[n.links[c].remote];
      assert !Torn(net, e) && Listeners(n, e) == [Forget];
    }
  }

  /** When all is quiet, an open connection that is not torn is in the map. */
  lemma QuietHeld(net: Net, n: Node, c: nat)
    requires NetInv(net) && (n == net.a || n == net.b) && Quiet(net, n) && c in n.links && !Torn(net, c)
    ensures Held(n, c)
  {
    assert Somewhere(n, {}, c);
    QuietNotPending(net, n, c);
  }

  /** Agreement: when all is quiet, both ends hold the very same connection or neither holds one, however
      many connections there were, and whatever broke or was stopped. */
  lemma Agreement(a: nat, b: nat, byA: map<nat, bool>, actions: seq<Action>, c: nat)
    ensures var net := End(a, b, byA, actions);
      Quiet(net, net.a) && Quiet(net, net.b) ==> (Held(net.a, c) <==> Held(net.b, c))
  {
    var net := End(a, b, byA, actions);
    if Quiet(net, net.a) && Quiet(net, net.b) {
      if Held(net.a, c) {
        assert HeldOk(net.a, net.a.links[c].remote);
        QuietHeld(net, net.b, c);
      }
      if Held(net.b, c) {
        assert HeldOk(net.b, net.b.links[c].remote);
        QuietHeld(net, net.a, c);
      }
    }
  }

  // ----- The connection that stays -----

  /** `g` wins against every other connection, whichever comes first. */
  predicate Wins(n: Node, g: nat)
  {
    g in n.links && forall c :: c in n.links && c != g ==>
      KeepExisting(n.me, n.links[c], n.links[g]) && !KeepExisting(n.me, n.links[g], n.links[c])
  }

  ghost predicate Safe(n: Node, g: nat)
  {
    Wins(n, g) && g !in n.duplicates
  }

  lemma HandleSafe(n: Node, c: nat, g: nat)
    requires c in n.links && InvLinkedNode(n) && Safe(n, g) && !(c == g && Held(n, g))
    ensures Safe(Handle(n, c), g)
  {
  }

  lemma {:induction false} FireSafe(n: Node, c: nat, r: nat, ls: seq<Listener>, g: nat)
    requires c in n.links && Inv(n, Kept(ls)) && Swaps(n, r, ls) && Safe(n, g)
    ensures InvLinkedNode(n) && (forall i :: 0 <= i < |ls| ==> ls[i].keeping in n.links)
    ensures Safe(Fire(n, c, ls), g)
    decreases |ls|
  {
    FireKeeps(n, c, r, ls);
    if ls != [] {
      var k := ls[0].keeping;
      SwapsNext(n, n, r, ls);
      SwapSafe(n, c, k, Kept(ls[1..]), g);
      SwapCallKeeps(n, c, k, Kept(ls[1..]));
      SwapCallElsewhere(n, c, k, r, r + 1);
      SwapsNext(n, Call(n, c, ls[0]), r, ls);
      FireSafe(Call(n, c, ls[0]), c, r, ls[1..], g);
    }
  }

  lemma SwapSafe(n: Node, c: nat, k: nat, limbo: set<nat>, g: nat)
    requires c in n.links && Inv(n, limbo + {k}) && k !in limbo && Waits(n, k) && Safe(n, g)
    ensures InvLinkedNode(n) && Safe(Call(n, c, Swap(k)), g)
  {
    InvLinked(n, limbo + {k});
    if k !in n.flagged {
      ReleaseKeeps(n, k, limbo + {k});
      NotHeld(n, k, limbo + {k});
      HandleSafe(Release(n, k), k, g);
    }
  }

  lemma NotHeld(n: Node, k: nat, limbo: set<nat>)
    requires Inv(n, limbo) && k !in n.emitted
    ensures !Held(n, k)
  {
    if k in n.links && n.links[k].remote in n.connections { assert HeldOk(n, n.links[k].remote); }
  }

  lemma NextSafe(n: Node, ev: Event, g: nat)
    requires Inv(n, {}) && Safe(n, g)
    ensures Safe(Next(n, ev), g)
  {
    InvLinked(n, {});
    match ev
    case Opened(c) =>
      if c in n.links && c !in n.seen && c !in n.closed {
        NotHeld(n, c, {});
        HandleSafe(n.(seen := n.seen + {c}), c, g);
      }
    case Closed(c) =>
      if c in n.links && c !in n.closed {
        InvIsLinked(n, c);
        var n1, ls := n.(closed := n.closed + {c}), Listeners(n, c);
        if c in n.emitted {
          ForgetKeeps(n, c);
          assert Call(n1, c, Forget) ==
            n.(closed := n.closed + {c}, connections := n.connections - {n.links[c].remote});
          FireSafe(Call(n1, c, Forget), c, n.links[c].remote, ls[1..], g);
        } else {
          QuietCloseKeeps(n, c);
          assert ls == [Flag] ==> Fire(n1, c, ls) == Fire(Call(n1, c, Flag), c, []);
        }
      }
    case Stopping =>
    case Starting =>
    case Forcing =>
  }

  /** Taking connections, and having destroyed none but as duplicates. */
  predicate Calm(n: Node) { n.listening && n.destroyed == n.duplicates }

  lemma {:induction false} FireCalm(n: Node, c: nat, ls: seq<Listener>)
    requires c in n.links && InvLinkedNode(n) && forall i :: 0 <= i < |ls| && ls[i].Swap? ==> ls[i].keeping in n.links
    requires Calm(n)
    ensures Calm(Fire(n, c, ls))
    decreases |ls|
  {
    if ls != [] {
      if ls[0].Swap? && ls[0].keeping !in n.flagged { HandleGrows(Release(n, ls[0].keeping), ls[0].keeping); }
      FireCalm(Call(n, c, ls[0]), c, ls[1..]);
    }
  }

  lemma NextCalm(n: Node, ev: Event)
    requires Inv(n, {}) && Calm(n) && (ev.Opened? || ev.Closed?)
    ensures Calm(Next(n, ev))
  {
    InvLinked(n, {});
    if ev.Closed? && ev.conn in n.links && ev.conn !in n.closed {
      InvIsLinked(n, ev.conn);
      FireCalm(n.(closed := n.closed + {ev.conn}), ev.conn, Listeners(n, ev.conn));
    }
  }

  /** No node stops and nothing breaks. */
  predicate Undisturbed(actions: seq<Action>)
  {
    forall i :: 0 <= i < |actions| ==> !actions[i].Break? && (actions[i].event.Opened? || actions[i].event.Closed?)
  }

  ghost predicate NetSafe(net: Net, g: nat)
  {
    NetInv(net) && Safe(net.a, g) && Safe(net.b, g)
  }

  lemma {:induction false} RunSafe(net: Net, actions: seq<Action>, g: nat)
    requires NetSafe(net, g)
    ensures NetSafe(NetRun(net, actions), g)
    decreases |actions|
  {
    if actions != [] {
      var action := actions[0];
      NetNextKeeps(net, action);
      match action {
        case AtA(ev) => NextSafe(net.a, ev, g);
        case AtB(ev) => NextSafe(net.b, ev, g);
        case Break(_) =>
      }
      RunSafe(NetNext(net, action), actions[1..], g);
    }
  }

  predicate NetCalm(net: Net) { Calm(net.a) && Calm(net.b) && net.broken == {} }

  lemma {:induction false} RunCalm(net: Net, actions: seq<Action>)
    requires NetInv(net) && NetCalm(net) && Undisturbed(actions)
    ensures NetCalm(NetRun(net, actions))
    decreases |actions|
  {
    if actions != [] {
      var action := actions[0];
      NetNextKeeps(net, action);
      match action {
        case AtA(ev) => NextCalm(net.a, ev);
        case AtB(ev) => NextCalm(net.b, ev);
      }
      assert Undisturbed(actions[1..]);
      RunCalm(NetNext(net, action), actions[1..]);
    }
  }

  /** Was `g` started by the side with the smaller key, and every other connection by the other side? Then
      `g` is the one to stay. So is a connection that is the only one. */
  predicate Sole(a: nat, b: nat, byA: map<nat, bool>, g: nat)
  {
    g in byA && (byA.Keys == {g} || (byA[g] == (a < b) && forall c :: c in byA && c != g ==> byA[c] != byA[g]))
  }

  /** Tie-break: with one connection from the side with the smaller key and any number from the other, in
      any order of events, breaks, stops and restarts included, neither end ever destroys that one as a
      duplicate. If nothing is disturbed, neither end destroys it at all; and when all is quiet, both ends
      hold it. The same goes for a connection that is the only one. */
  lemma TieBreak(a: nat, b: nat, byA: map<nat, bool>, actions: seq<Action>, g: nat)
    requires a != b && Sole(a, b, byA, g)
    ensures var net := End(a, b, byA, actions);
      && g !in net.a.duplicates && g !in net.b.duplicates
      && (Undisturbed(actions) ==> g !in net.a.destroyed && g !in net.b.destroyed)
      && (Undisturbed(actions) && Quiet(net, net.a) && Quiet(net, net.b) ==> Held(net.a, g) && Held(net.b, g))
  {
    StartInv(a, b, byA);
    var net := End(a, b, byA, actions);
    RunSafe(Start(a, b, byA), actions, g);
    if Undisturbed(actions) {
      RunCalm(Start(a, b, byA), actions);
      if Quiet(net, net.a) && Quiet(net, net.b) {
        QuietHeld(net, net.a, g);
        QuietHeld(net, net.b, g);
      }
    }
  }

  // ----- And otherwise none may stay -----

  /** All that happened at this node: `c` came first, and some others that lost to it. */
  ghost predicate First(n: Node, r: nat, c: nat)
  {
    && Inv(n, {}) && c in n.links && n.links[c].remote == r && n.connections == map[r := c] && n.listening
    && Listeners(n, c) == [Forget] && n.closed == {}
    && (forall x :: x in n.seen && x != c ==> x in n.destroyed && Listeners(n, x) == [])
  }

  function OpenEach(xs: seq<nat>): (events: seq<Event>)
    ensures forall ev :: ev in events ==> ev.Opened?
  {
    seq(|xs|, i requires 0 <= i < |xs| => Opened(xs[i]))
  }

  function CloseEach(xs: seq<nat>): (events: seq<Event>)
    ensures forall ev :: ev in events ==> ev.Closed? && ev.conn in xs
  {
    seq(|xs|, i requires 0 <= i < |xs| => Closed(xs[i]))
  }

  /** `c` first, and then the others. */
  function OpenFirst(c: nat, xs: seq<nat>): (events: seq<Event>)
    ensures forall ev :: ev in events ==> ev.Opened?
  {
    [Opened(c)] + OpenEach(xs)
  }

  /** Whatever comes after `c` and does not win against it is destroyed. */
  lemma {:induction false} OthersLose(n: Node, r: nat, c: nat, xs: seq<nat>)
    requires First(n, r, c)
    requires forall x :: x in n.links ==> n.links[x].remote == r && KeepExisting(n.me, n.links[x], n.links[c])
    requires forall x :: x in xs ==> x in n.links
    ensures var n' := Run(n, OpenEach(xs));
      First(n', r, c) && n'.links == n.links && n'.me == n.me && forall x :: x in n.seen || x in xs ==> x in n'.seen
    decreases |xs|
  {
    if xs != [] {
      var n1 := Next(n, Opened(xs[0]));
      assert OpenEach(xs)[1..] == OpenEach(xs[1..]);
      NextKeeps(n, Opened(xs[0]));
      OthersLose(n1, r, c, xs[1..]);
      assert xs == [xs[0]] + xs[1..];
    }
  }

  /** Nothing waits for any of them to close. */
  ghost predicate Bare(n: Node, r: nat, c: nat)
  {
    && Inv(n, {})
    && (forall x :: x in n.links ==>
          Listeners(n, x) == [] || (x == c && Listeners(n, x) == [Forget] && n.links[x].remote == r))
    && (c in n.closed ==> n.connections == map[]) && (forall q :: q in n.connections ==> q == r)
  }

  lemma {:induction false} AllClose(n: Node, r: nat, c: nat, xs: seq<nat>)
    requires Bare(n, r, c) && forall x :: x in xs ==> x in n.links
    ensures var n' := Run(n, CloseEach(xs));
      Bare(n', r, c) && n'.links == n.links && n'.seen == n.seen && n.destroyed <= n'.destroyed &&
        forall x :: x in n.closed || x in xs ==> x in n'.closed
    decreases |xs|
  {
    if xs != [] {
      var n1 := Next(n, Closed(xs[0]));
      assert CloseEach(xs)[1..] == CloseEach(xs[1..]);
      NextKeeps(n, Closed(xs[0]));
      CloseBare(n, r, c, xs[0]);
      AllClose(n1, r, c, xs[1..]);
      assert xs == [xs[0]] + xs[1..];
    }
  }

  lemma CloseBare(n: Node, r: nat, c: nat, x: nat)
    requires Bare(n, r, c) && x in n.links
    ensures var n' := Next(n, Closed(x));
      Bare(n', r, c) && n'.links == n.links && n'.seen == n.seen && n.destroyed <= n'.destroyed &&
        n'.closed == n.closed + {x}
  {
    NextKeeps(n, Closed(x));
    if x !in n.closed {
      InvIsLinked(n, x);
      var n1, ls := n.(closed := n.closed + {x}), Listeners(n, x);
      if ls == [Forget] {
        assert Fire(n1, x, ls) == Fire(Call(n1, x, Forget), x, []);
        assert (n.connections - {r}).Keys == {};
      }
    }
  }

  function OnA(events: seq<Event>): seq<Action> { seq(|events|, i requires 0 <= i < |events| => AtA(events[i])) }

  function OnB(events: seq<Event>): seq<Action> { seq(|events|, i requires 0 <= i < |events| => AtB(events[i])) }

  lemma {:induction false} RunOnA(net: Net, events: seq<Event>)
    requires NetInv(net) && forall i :: 0 <= i < |events| ==> Possible(net, events[i])
    ensures NetRun(net, OnA(events)) == net.(a := Run(net.a, events))
    decreases |events|
  {
    if events != [] {
      assert OnA(events)[1..] == OnA(events[1..]);
      NextGrows(net.a, events[0]);
      NetNextKeeps(net, AtA(events[0]));
      RunOnA(NetNext(net, AtA(events[0])), events[1..]);
    }
  }

  lemma {:induction false} RunOnB(net: Net, events: seq<Event>)
    requires NetInv(net) && forall i :: 0 <= i < |events| ==> Possible(net, events[i])
    ensures NetRun(net, OnB(events)) == net.(b := Run(net.b, events))
    decreases |events|
  {
    if events != [] {
      assert OnB(events)[1..] == OnB(events[1..]);
      NextGrows(net.b, events[0]);
      NetNextKeeps(net, AtB(events[0]));
      RunOnB(NetNext(net, AtB(events[0])), events[1..]);
    }
  }

  lemma {:induction false} NetRunAppend(net: Net, xs: seq<Action>, ys: seq<Action>)
    requires NetInv(net)
    ensures NetRun(net, xs + ys) == NetRun(NetRun(net, xs), ys)
    decreases |xs|
  {
    if xs == [] {
      assert xs + ys == ys;
    } else {
      assert (xs + ys)[1..] == xs[1..] + ys;
      NetNextKeeps(net, xs[0]);
      NetRunAppend(NetNext(net, xs[0]), xs[1..], ys);
    }
  }

  lemma OpenAll(me: nat, links: map<nat, Link>, r: nat, c: nat, xs: seq<nat>)
    requires c in links && (forall x :: x in xs ==> x in links)
    requires forall x :: x in links ==> links[x].remote == r && KeepExisting(me, links[x], links[c])
    ensures Inv(Init(me, links), {})
    ensures var n := Run(Init(me, links), OpenFirst(c, xs));
      First(n, r, c) && n.links == links && forall x :: x in xs ==> x in n.seen
  {
    InitInv(me, links);
    var n := Init(me, links);
    NextKeeps(n, Opened(c));
    assert OpenFirst(c, xs)[1..] == OpenEach(xs);
    OthersLose(Next(n, Opened(c)), r, c, xs);
  }

  /** `c` and `d` were started by the same side, and no other connection wins against them. */
  predicate Rivals(a: nat, b: nat, byA: map<nat, bool>, c: nat, d: nat)
  {
    && c in byA && d in byA && c != d && byA[c] == byA[d]
    && (byA[c] == (a < b) || forall x :: x in byA ==> byA[x] == byA[c])
  }

  /** A side's view: everything is its own, to the same peer, and nothing wins against `c`. */
  lemma NoneWins(a: nat, b: nat, byA: map<nat, bool>, c: nat, d: nat)
    requires a != b && Rivals(a, b, byA, c, d)
    ensures var links := LinksOf(byA, b, true);
      forall x :: x in links ==> links[x].remote == b && KeepExisting(a, links[x], links[c])
    ensures var links := LinksOf(byA, a, false);
      forall x :: x in links ==> links[x].remote == a && KeepExisting(b, links[x], links[d])
  {
  }

  /** Everything has opened at both ends and is torn, and nothing waits. */
  ghost predicate Doomed(net: Net, a: nat, b: nat, c: nat, d: nat)
  {
    && Bare(net.a, b, c) && Bare(net.b, a, d) && net.a.links.Keys == net.b.links.Keys
    && forall x :: x in net.a.links ==> Torn(net, x) && x in net.a.seen && x in net.b.seen
  }

  lemma AllTorn(net: Net, a: nat, b: nat, c: nat, d: nat)
    requires First(net.a, b, c) && First(net.b, a, d) && c != d
    requires net.a.links.Keys == net.b.links.Keys && forall x :: x in net.a.links ==> x in net.a.seen && x in net.b.seen
    ensures Doomed(net, a, b, c, d)
  {
  }

  lemma NoStops(onA: seq<Event>, onB: seq<Event>)
    requires forall ev :: ev in onA || ev in onB ==> ev.Opened? || ev.Closed?
    ensures Undisturbed(OnA(onA) + OnB(onB))
  {
    var actions := OnA(onA) + OnB(onB);
    forall i | 0 <= i < |actions| ensures !actions[i].Break? && (actions[i].event.Opened? || actions[i].event.Closed?) {
      var ev := if i < |onA| then onA[i] else onB[i - |onA|];
      assert actions[i] == if i < |onA| then AtA(ev) else AtB(ev);
      assert ev in onA || ev in onB;
    }
  }

  /** The two ends, each on its own. */
  lemma OpenedEnds(a: nat, b: nat, byA: map<nat, bool>, c: nat, d: nat, xs: seq<nat>)
    requires a != b && Rivals(a, b, byA, c, d) && forall x :: x in xs <==> x in byA
    ensures NetInv(Start(a, b, byA))
    ensures var net := Start(a, b, byA);
      Doomed(net.(a := Run(net.a, OpenFirst(c, xs)), b := Run(net.b, OpenFirst(d, xs))), a, b, c, d)
  {
    StartInv(a, b, byA);
    NoneWins(a, b, byA, c, d);
    OpenAll(a, LinksOf(byA, b, true), b, c, xs);
    OpenAll(b, LinksOf(byA, a, false), a, d, xs);
    var start := Start(a, b, byA);
    AllTorn(start.(a := Run(start.a, OpenFirst(c, xs)), b := Run(start.b, OpenFirst(d, xs))), a, b, c, d);
  }

  /** One end sees `c` first and the other `d`: each destroys what the other keeps, and all the rest. */
  lemma OpenBoth(a: nat, b: nat, byA: map<nat, bool>, c: nat, d: nat, xs: seq<nat>) returns (actions: seq<Action>)
    requires a != b && Rivals(a, b, byA, c, d) && forall x :: x in xs <==> x in byA
    ensures Undisturbed(actions) && Doomed(End(a, b, byA, actions), a, b, c, d)
  {
    OpenedEnds(a, b, byA, c, d, xs);
    actions := OnA(OpenFirst(c, xs)) + OnB(OpenFirst(d, xs));
    NoStops(OpenFirst(c, xs), OpenFirst(d, xs));
    BothRun(Start(a, b, byA), OpenFirst(c, xs), OpenFirst(d, xs));
  }

  /** First all events at one end, and then all at the other. */
  lemma BothRun(net: Net, onA: seq<Event>, onB: seq<Event>)
    requires NetInv(net) && (forall ev :: ev in onA || ev in onB ==> Possible(net, ev))
    ensures NetRun(net, OnA(onA) + OnB(onB)) == net.(a := Run(net.a, onA), b := Run(net.b, onB))
  {
    forall i | 0 <= i < |onA| ensures Possible(net, onA[i]) {
      assert onA[i] in onA;
    }
    RunOnA(net, onA);
    var net1 := NetRun(net, OnA(onA));
    RunGrows(net.a, onA);
    forall i | 0 <= i < |onB| ensures Possible(net1, onB[i]) {
      assert onB[i] in onB && Possible(net, onB[i]);
    }
    RunOnB(net1, onB);
    NetRunAppend(net, OnA(onA), OnB(onB));
  }

  lemma {:induction false} RunGrows(n: Node, events: seq<Event>)
    requires Inv(n, {})
    ensures n.destroyed <= Run(n, events).destroyed
    decreases |events|
  {
    if events != [] {
      NextGrows(n, events[0]);
      NextKeeps(n, events[0]);
      RunGrows(Next(n, events[0]), events[1..]);
    }
  }

  /** All is quiet, and neither end holds anything. */
  ghost predicate Nothing(net: Net)
  {
    Quiet(net, net.a) && Quiet(net, net.b) && net.a.connections == map[] && net.b.connections == map[]
  }

  lemma CloseBoth(net: Net, a: nat, b: nat, c: nat, d: nat, xs: seq<nat>) returns (actions: seq<Action>)
    requires NetInv(net) && Doomed(net, a, b, c, d) && c in xs && d in xs && forall x :: x in xs <==> x in net.a.links
    ensures Undisturbed(actions) && Nothing(NetRun(net, actions))
  {
    AllClose(net.a, b, c, xs);
    AllClose(net.b, a, d, xs);
    actions := OnA(CloseEach(xs)) + OnB(CloseEach(xs));
    NoStops(CloseEach(xs), CloseEach(xs));
    BothRun(net, CloseEach(xs), CloseEach(xs));
  }

  /** Two such connections can destroy each other, and with them goes every other connection. */
  lemma RivalsLoseAll(a: nat, b: nat, byA: map<nat, bool>, c: nat, d: nat) returns (actions: seq<Action>)
    requires a != b && Rivals(a, b, byA, c, d)
    ensures Undisturbed(actions) && Nothing(End(a, b, byA, actions))
  {
    var xs := Listed(byA.Keys);
    var opening := OpenBoth(a, b, byA, c, d, xs);
    var closing := CloseBoth(End(a, b, byA, opening), a, b, c, d, xs);
    actions := opening + closing;
    EndAppend(a, b, byA, opening, closing);
    UndisturbedAppend(opening, closing);
  }

  lemma EndAppend(a: nat, b: nat, byA: map<nat, bool>, xs: seq<Action>, ys: seq<Action>)
    ensures End(a, b, byA, xs + ys) == NetRun(End(a, b, byA, xs), ys)
  {
    StartInv(a, b, byA);
    NetRunAppend(Start(a, b, byA), xs, ys);
  }

  lemma UndisturbedAppend(xs: seq<Action>, ys: seq<Action>)
    requires Undisturbed(xs) && Undisturbed(ys)
    ensures Undisturbed(xs + ys)
  {
  }

  lemma {:induction false} Listed(s: set<nat>) returns (xs: seq<nat>)
    ensures forall x :: x in xs <==> x in s
  {
    if s == {} {
      xs := [];
    } else {
      var x :| x in s;
      var rest := Listed(s - {x});
      xs := [x] + rest;
    }
  }

  /** Both ends are quiet. */
  ghost predicate AllQuiet(net: Net) { Quiet(net, net.a) && Quiet(net, net.b) }

  /** Both ends hold some connection. */
  ghost predicate Survives(net: Net)
  {
    exists g :: Held(net.a, g) && Held(net.b, g)
  }

  /** After every undisturbed run, when all is quiet, both ends hold a connection. */
  ghost predicate AlwaysSurvives(a: nat, b: nat, byA: map<nat, bool>)
  {
    forall actions :: Undisturbed(actions) && AllQuiet(End(a, b, byA, actions)) ==> Survives(End(a, b, byA, actions))
  }

  /** So a connection is sure to stay exactly when the side with the smaller key started just one, or there
      is just one at all. */
  lemma SurvivalExact(a: nat, b: nat, byA: map<nat, bool>)
    requires a != b
    ensures AlwaysSurvives(a, b, byA) <==> exists g :: Sole(a, b, byA, g)
  {
    if g :| Sole(a, b, byA, g) {
      forall actions | Undisturbed(actions) && AllQuiet(End(a, b, byA, actions))
        ensures Survives(End(a, b, byA, actions))
      {
        TieBreak(a, b, byA, actions, g);
      }
    } else {
      var actions := LosingRun(a, b, byA);
    }
  }

  lemma LosingRun(a: nat, b: nat, byA: map<nat, bool>) returns (actions: seq<Action>)
    requires a != b && !exists g :: Sole(a, b, byA, g)
    ensures Undisturbed(actions) && AllQuiet(End(a, b, byA, actions)) && !Survives(End(a, b, byA, actions))
  {
    if byA == map[] {
      actions := [];
    } else {
      var c, d := TwoRivals(a, b, byA);
      actions := RivalsLoseAll(a, b, byA, c, d);
    }
  }

  lemma TwoRivals(a: nat, b: nat, byA: map<nat, bool>) returns (c: nat, d: nat)
    requires a != b && byA != map[] && !exists g :: Sole(a, b, byA, g)
    ensures Rivals(a, b, byA, c, d)
  {
    if x :| x in byA && byA[x] == (a < b) { c := x; } else { c :| c in byA; }
    assert !Sole(a, b, byA, c);
    if byA[c] == (a < b) {
      d :| d in byA && d != c && byA[d] == byA[c];
    } else {
      assert byA.Keys != {c};
      d :| d in byA && d != c;
    }
  }
}
