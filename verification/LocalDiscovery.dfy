/** One node's connections to its peers (src/discovery/local-discovery.js): which of two connections to the
    same peer stays, and the swap that waits for the other one to close. Keys are numbers, a peer's id is its
    key, and a connection goes by a number of its own. */
module LocalDiscoveries {

  datatype Link = Link(remote: nat, initiator: bool)

  /** A `close` listener of a connection: take the peer out of the map; go on with the connection that is
      kept instead; note that a connection kept for later has closed. */
  datatype Listener = Forget | Swap(keeping: nat) | Flag

  datatype Node = Node(
    me: nat,
    links: map<nat, Link>,
    listening: bool,
    connections: map<nat, nat>,
    listeners: map<nat, seq<Listener>>,
    flagged: set<nat>,
    seen: set<nat>,
    destroyed: set<nat>,
    duplicates: set<nat>,
    silenced: set<nat>,
    closed: set<nat>,
    emitted: seq<nat>)

  function Init(me: nat, links: map<nat, Link>): Node
  {
    Node(me, links, true, map[], map[], {}, {}, {}, {}, {}, {}, [])
  }

  function Listeners(n: Node, c: nat): seq<Listener>
  {
    if c in n.listeners then n.listeners[c] else []
  }

  function Listen(n: Node, c: nat, l: Listener): Node
  {
    n.(listeners := n.listeners[c := Listeners(n, c) + [l]])
  }

  /** Does the existing connection stay? Yes if both were started by the same side; otherwise the one started
      by the smaller key stays. */
  predicate KeepExisting(me: nat, conn: Link, existing: Link)
  {
    || (conn.initiator && existing.initiator)
    || (!conn.initiator && !existing.initiator)
    || (if conn.initiator then me > conn.remote else me <= conn.remote)
  }

  /** Of a node's connections to itself, if that can be, the one it started stays. */
  lemma SelfConnection(me: nat, conn: Link, existing: Link)
    requires conn.remote == me && conn.initiator != existing.initiator
    ensures KeepExisting(me, conn, existing) <==> existing.initiator
  {
  }

  /** Destroyed with the duplicate error, after an empty `error` listener was added. */
  function Destroy(n: Node, c: nat): Node
  {
    n.(destroyed := n.destroyed + {c}, duplicates := n.duplicates + {c}, silenced := n.silenced + {c})
  }

  /** Kept for later, with an empty `error` listener until then. */
  function Keep(n: Node, existing: nat, c: nat): Node
  {
    Listen(Listen(n.(silenced := n.silenced + {c}), existing, Swap(c)), c, Flag)
  }

  /** `handleNoiseStreamConnection`. */
  function Handle(n: Node, c: nat): Node
    requires c in n.links && forall r :: r in n.connections ==> n.connections[r] in n.links
  {
    var r := n.links[c].remote;
    if r in n.connections then
      var e := n.connections[r];
      if KeepExisting(n.me, n.links[c], n.links[e]) then Destroy(n, c) else Keep(Destroy(n, e), e, c)
    else if !n.listening then n.(destroyed := n.destroyed + {c})
    else Listen(n.(connections := n.connections[r := c], emitted := n.emitted + [c]), c, Forget)
  }

  /** A new connection has opened. */
  function Connect(n: Node, c: nat): Node
    requires c in n.links && forall r :: r in n.connections ==> n.connections[r] in n.links
  {
    Handle(n.(seen := n.seen + {c}), c)
  }

  /** Both listeners that a connection had while it was kept are removed. */
  function Release(n: Node, k: nat): Node
  {
    var n' := n.(silenced := n.silenced - {k});
    if k in n.listeners then n'.(listeners := n.listeners[k := Without(n.listeners[k])]) else n'
  }

  function Without(ls: seq<Listener>): seq<Listener>
  {
    if ls == [] then [] else if ls[0] == Flag then ls[1..] else [ls[0]] + Without(ls[1..])
  }

  /** One `close` listener of `c`. */
  function Call(n: Node, c: nat, l: Listener): Node
    requires c in n.links && (forall r :: r in n.connections ==> n.connections[r] in n.links)
    requires l.Swap? ==> l.keeping in n.links
  {
    match l
    case Forget => n.(connections := n.connections - {n.links[c].remote})
    case Flag => n.(flagged := n.flagged + {c})
    case Swap(k) => if k in n.flagged then n else Handle(Release(n, k), k)
  }

  /** All of them, in the order they were added. */
  function Fire(n: Node, c: nat, ls: seq<Listener>): Node
    requires c in n.links && (forall r :: r in n.connections ==> n.connections[r] in n.links)
    requires forall i :: 0 <= i < |ls| && ls[i].Swap? ==> ls[i].keeping in n.links
    decreases |ls|
  {
    if ls == [] then n else Fire(Call(n, c, ls[0]), c, ls[1..])
  }

  /** The connections that closing `c` has to do with are the node's own. */
  ghost predicate Linked(n: Node, c: nat)
  {
    && (forall r :: r in n.connections ==> n.connections[r] in n.links)
    && (forall i :: 0 <= i < |Listeners(n, c)| && Listeners(n, c)[i].Swap? ==> Listeners(n, c)[i].keeping in n.links)
  }

  /** A connection has closed. */
  function Close(n: Node, c: nat): Node
    requires c in n.links && Linked(n, c)
  {
    Fire(n.(closed := n.closed + {c}), c, Listeners(n, c))
  }

  /** `stop`: no new connections. */
  function Stop(n: Node): Node { n.(listening := false) }

  /** `start`: new connections are taken, again. */
  function Serve(n: Node): Node { n.(listening := true) }

  /** `stop` with `force`, when its time is up. */
  function ForceClose(n: Node): Node { n.(destroyed := n.destroyed + n.connections.Values) }

  // ----- What every event keeps -----

  predicate Held(n: Node, c: nat)
  {
    c in n.links && n.links[c].remote in n.connections && n.connections[n.links[c].remote] == c
  }

  /** Kept for when the connection in the map has closed. */
  predicate Pending(n: Node, c: nat)
  {
    c in n.links && n.links[c].remote in n.connections && Swap(c) in Listeners(n, n.connections[n.links[c].remote])
  }

  /** What is true of a connection that is kept for later: it was not emitted, its errors are ignored, and its
      own closing is noted. */
  predicate Waits(n: Node, k: nat)
  {
    && k in n.links && k in n.seen && k !in n.emitted && k in n.silenced && k !in n.duplicates
    && Listeners(n, k) == [Flag] && (k in n.flagged <==> k in n.closed)
  }

  /** Listeners that go on with distinct connections to peer `r`, all of them kept for later. */
  ghost predicate Swaps(n: Node, r: nat, ls: seq<Listener>)
  {
    && (forall i :: 0 <= i < |ls| ==> ls[i].Swap? && Waits(n, ls[i].keeping) && n.links[ls[i].keeping].remote == r)
    && (forall i, j :: 0 <= i < j < |ls| ==> ls[i] != ls[j])
  }

  /** The connection in the map for `r`: open and emitted, taken out of the map first thing when it closes,
      and destroyed if another one is kept for later. */
  ghost predicate HeldOk(n: Node, r: nat)
    requires r in n.connections
  {
    var c := n.connections[r];
    && c in n.links && n.links[c].remote == r && c in n.emitted && c !in n.closed
    && (c in n.silenced ==> c in n.duplicates)
    && var ls := Listeners(n, c); |ls| > 0 && ls[0] == Forget && Swaps(n, r, ls[1..]) && (|ls| > 1 ==> c in n.destroyed)
  }

  ghost predicate AllHeldOk(n: Node)
  {
    forall r :: r in n.connections ==> HeldOk(n, r)
  }

  /** What was emitted and has not closed is in the map, and nothing was emitted twice. */
  ghost predicate EmittedOk(n: Node)
  {
    && (forall c :: c in n.emitted ==> c in n.links && c in n.seen && (c !in n.closed ==> Held(n, c)))
    && (forall i, j :: 0 <= i < j < |n.emitted| ==> n.emitted[i] != n.emitted[j])
  }

  /** Where an open connection can be: in the map, destroyed, kept for later, or about to be handled. */
  predicate Somewhere(n: Node, limbo: set<nat>, c: nat)
  {
    Held(n, c) || c in n.destroyed || Pending(n, c) || c in limbo
  }

  ghost predicate SeenOk(n: Node, limbo: set<nat>)
  {
    && (forall c :: c in n.seen ==> c in n.links)
    && (forall c :: c in n.seen && c !in n.closed ==> Somewhere(n, limbo, c))
    && (forall c :: c !in n.seen ==> Listeners(n, c) == [])
    && (forall c :: c in n.seen && c !in n.emitted ==> Listeners(n, c) == [] || Listeners(n, c) == [Flag])
    && n.duplicates <= n.destroyed <= n.seen && n.duplicates <= n.silenced <= n.seen && n.flagged <= n.closed
  }

  ghost predicate LimboOk(n: Node, limbo: set<nat>)
  {
    forall c :: c in limbo ==> c in n.seen && c !in n.emitted && !Pending(n, c)
  }

  /** The invariant; `limbo` are connections just about to be handled. */
  ghost predicate Inv(n: Node, limbo: set<nat>)
  {
    AllHeldOk(n) && EmittedOk(n) && SeenOk(n, limbo) && LimboOk(n, limbo)
  }

  /** A connection about to be handled: open, and without listeners. */
  predicate Fresh(n: Node, c: nat)
  {
    c in n.links && c in n.seen && c !in n.closed && Listeners(n, c) == [] && c !in n.silenced && c !in n.duplicates
  }

  lemma InvLinked(n: Node, limbo: set<nat>)
    requires Inv(n, limbo)
    ensures forall r :: r in n.connections ==> n.connections[r] in n.links
  {
    forall r | r in n.connections ensures n.connections[r] in n.links {
      assert HeldOk(n, r);
    }
  }

  lemma SwapHeld(n: Node, c: nat, limbo: set<nat>)
    requires Inv(n, limbo + {c}) && Fresh(n, c) && n.links[c].remote in n.connections
    requires n.connections[n.links[c].remote] in n.links
    requires !KeepExisting(n.me, n.links[c], n.links[n.connections[n.links[c].remote]])
    ensures InvLinkedNode(n) && AllHeldOk(Handle(n, c))
    ensures forall k :: k != c && Waits(n, k) ==> Waits(Handle(n, c), k)
  {
    InvLinked(n, limbo + {c});
    var n' := Handle(n, c);
    assert HeldOk(n, n.links[c].remote);
    forall q | q in n'.connections ensures HeldOk(n', q) {
      assert HeldOk(n, q);
    }
  }

  lemma PlaceHeld(n: Node, c: nat, limbo: set<nat>)
    requires Inv(n, limbo + {c}) && Fresh(n, c) && n.links[c].remote !in n.connections && n.listening
    ensures InvLinkedNode(n) && AllHeldOk(Handle(n, c))
    ensures forall k :: k != c && Waits(n, k) ==> Waits(Handle(n, c), k)
  {
    InvLinked(n, limbo + {c});
    var n' := Handle(n, c);
    forall q | q in n'.connections ensures HeldOk(n', q) {
      if q in n.connections { assert HeldOk(n, q); }
    }
  }

  lemma SwapSeen(n: Node, c: nat, limbo: set<nat>)
    requires Inv(n, limbo + {c}) && Fresh(n, c) && c !in limbo && n.links[c].remote in n.connections
    requires n.connections[n.links[c].remote] in n.links
    requires !KeepExisting(n.me, n.links[c], n.links[n.connections[n.links[c].remote]])
    ensures InvLinkedNode(n) && SeenOk(Handle(n, c), limbo) && LimboOk(Handle(n, c), limbo)
  {
    InvLinked(n, limbo + {c});
    var n' := Handle(n, c);
    assert HeldOk(n, n.links[c].remote);
    forall d | d in n'.seen && d !in n'.closed ensures Somewhere(n', limbo, d) {
      assert Somewhere(n, limbo + {c}, d);
    }
    forall d | d in limbo ensures !Pending(n', d) {
      assert !Pending(n, d);
    }
  }

  lemma SwapKeeps(n: Node, c: nat, limbo: set<nat>)
    requires Inv(n, limbo + {c}) && Fresh(n, c) && c !in limbo && n.links[c].remote in n.connections
    requires n.connections[n.links[c].remote] in n.links
    requires !KeepExisting(n.me, n.links[c], n.links[n.connections[n.links[c].remote]])
    ensures InvLinkedNode(n) && Inv(Handle(n, c), limbo)
    ensures forall k :: k != c && Waits(n, k) ==> Waits(Handle(n, c), k)
  {
    SwapHeld(n, c, limbo);
    SwapSeen(n, c, limbo);
    var n' := Handle(n, c);
    forall d | d in n'.emitted && d !in n'.closed ensures Held(n', d) {
      assert Held(n, d);
    }
  }

  ghost predicate InvLinkedNode(n: Node)
  {
    forall r :: r in n.connections ==> n.connections[r] in n.links
  }

  lemma PlaceEmitted(n: Node, c: nat, limbo: set<nat>)
    requires Inv(n, limbo + {c}) && Fresh(n, c) && n.links[c].remote !in n.connections && n.listening
    ensures InvLinkedNode(n) && EmittedOk(Handle(n, c))
  {
    InvLinked(n, limbo + {c});
    var n' := Handle(n, c);
    forall d | d in n'.emitted && d !in n'.closed ensures Held(n', d) {
      assert d == c || (d in n.emitted && Held(n, d));
    }
  }

  lemma PlaceSeen(n: Node, c: nat, limbo: set<nat>)
    requires Inv(n, limbo + {c}) && Fresh(n, c) && c !in limbo && n.links[c].remote !in n.connections && n.listening
    ensures InvLinkedNode(n) && SeenOk(Handle(n, c), limbo)
  {
    InvLinked(n, limbo + {c});
    var n' := Handle(n, c);
    forall d | d in n'.seen && d !in n'.closed ensures Somewhere(n', limbo, d) {
      assert Somewhere(n, limbo + {c}, d);
    }
  }

  lemma PlaceKeeps(n: Node, c: nat, limbo: set<nat>)
    requires Inv(n, limbo + {c}) && Fresh(n, c) && c !in limbo && n.links[c].remote !in n.connections && n.listening
    ensures InvLinkedNode(n) && Inv(Handle(n, c), limbo)
    ensures forall k :: k != c && Waits(n, k) ==> Waits(Handle(n, c), k)
  {
    PlaceHeld(n, c, limbo);
    PlaceEmitted(n, c, limbo);
    PlaceSeen(n, c, limbo);
    var n' := Handle(n, c);
    forall d | d in limbo ensures !Pending(n', d) {
      assert !Pending(n, d);
    }
  }

  /** Handling a connection keeps the invariant, and the connection is out of limbo. */
  lemma HandleKeeps(n: Node, c: nat, limbo: set<nat>)
    requires Inv(n, limbo + {c}) && Fresh(n, c) && c !in limbo
    ensures InvLinkedNode(n) && Inv(Handle(n, c), limbo)
    ensures forall k :: k != c && Waits(n, k) ==> Waits(Handle(n, c), k)
  {
    InvLinked(n, limbo + {c});
    var r := n.links[c].remote;
    if r in n.connections && !KeepExisting(n.me, n.links[c], n.links[n.connections[r]]) {
      SwapKeeps(n, c, limbo);
    } else if r !in n.connections && n.listening {
      PlaceKeeps(n, c, limbo);
    } else {
      DropKeeps(n, c, limbo, Handle(n, c));
    }
  }

  lemma DropKeeps(n: Node, c: nat, limbo: set<nat>, n': Node)
    requires Inv(n, limbo + {c}) && Fresh(n, c) && c !in limbo && !Held(n, c)
    requires n' == Destroy(n, c) || n' == n.(destroyed := n.destroyed + {c})
    ensures Inv(n', limbo) && forall k :: k != c && Waits(n, k) ==> Waits(n', k)
  {
    DropHeld(n, c, limbo, n');
    forall d | d in n'.seen && d !in n'.closed ensures Somewhere(n', limbo, d) {
      assert Somewhere(n, limbo + {c}, d);
    }
  }

  lemma DropHeld(n: Node, c: nat, limbo: set<nat>, n': Node)
    requires Inv(n, limbo + {c}) && Fresh(n, c) && c !in limbo && !Held(n, c)
    requires n' == Destroy(n, c) || n' == n.(destroyed := n.destroyed + {c})
    ensures AllHeldOk(n') && EmittedOk(n')
  {
    NotKept(n, c, limbo + {c});
    forall q | q in n'.connections ensures HeldOk(n', q) {
      assert HeldOk(n, q);
    }
  }

  /** A connection in limbo is not among those that wait. */
  lemma NotKept(n: Node, c: nat, limbo: set<nat>)
    requires Inv(n, limbo) && c in limbo
    ensures forall r :: r in n.connections ==> Swap(c) !in Listeners(n, n.connections[r])
  {
    forall r | r in n.connections ensures Swap(c) !in Listeners(n, n.connections[r]) {
      assert HeldOk(n, r) && !Pending(n, c);
      var ls := Listeners(n, n.connections[r]);
      assert forall i :: 0 < i < |ls| ==> ls[i] == ls[1..][i - 1];
    }
  }

  // ----- Closing -----

  function Kept(ls: seq<Listener>): (ks: set<nat>)
    ensures forall k :: k in ks <==> Swap(k) in ls
  {
    set l | l in ls && l.Swap? :: l.keeping
  }

  /** A swap that comes too late: the connection to keep has closed itself. */
  lemma LateSwap(n: Node, k: nat, limbo: set<nat>)
    requires Inv(n, limbo + {k}) && k in n.closed
    ensures Inv(n, limbo)
  {
    forall d | d in n.seen && d !in n.closed ensures Somewhere(n, limbo, d) {
      assert Somewhere(n, limbo + {k}, d);
    }
  }

  /** Before the swap, the listener that noted the kept connection's closing is removed. */
  lemma ReleaseKeeps(n: Node, k: nat, limbo: set<nat>)
    requires Inv(n, limbo) && k in limbo && Waits(n, k) && k !in n.closed
    ensures Inv(Release(n, k), limbo) && Fresh(Release(n, k), k)
    ensures forall j :: j != k && Waits(n, j) ==> Waits(Release(n, k), j)
  {
    var n' := Release(n, k);
    assert Listeners(n', k) == [];
    forall r | r in n'.connections ensures HeldOk(n', r) {
      assert HeldOk(n, r);
      var ls := Listeners(n, n.connections[r]);
      forall i | 0 <= i < |ls[1..]| ensures ls[1..][i].keeping != k {
        assert ls[1..][i] in ls && Pending(n, ls[1..][i].keeping);
      }
    }
    forall d | d in n'.seen && d !in n'.closed ensures Somewhere(n', limbo, d) {
      assert Somewhere(n, limbo, d);
    }
    forall d | d in limbo ensures !Pending(n', d) {
      assert !Pending(n, d);
    }
  }

  /** A swap: nothing if the connection to keep has closed; otherwise that connection is handled. */
  lemma SwapCallKeeps(n: Node, c: nat, k: nat, limbo: set<nat>)
    requires c in n.links && Inv(n, limbo + {k}) && k !in limbo && Waits(n, k)
    ensures InvLinkedNode(n) && Inv(Call(n, c, Swap(k)), limbo)
    ensures forall j :: j != k && Waits(n, j) ==> Waits(Call(n, c, Swap(k)), j)
  {
    InvLinked(n, limbo + {k});
    if k in n.flagged {
      LateSwap(n, k, limbo);
    } else {
      ReleaseKeeps(n, k, limbo + {k});
      HandleKeeps(Release(n, k), k, limbo);
    }
  }

  /** It leaves the connections as such, and other peers' entries, alone. */
  lemma SwapCallElsewhere(n: Node, c: nat, k: nat, r: nat, q: nat)
    requires c in n.links && InvLinkedNode(n) && k in n.links && n.links[k].remote == r && q != r
    ensures var n' := Call(n, c, Swap(k));
      && n'.links == n.links && n'.me == n.me && InvLinkedNode(n')
      && (q in n.connections ==> q in n'.connections && n'.connections[q] == n.connections[q])
  {
    if k !in n.flagged { HandleElsewhere(Release(n, k), k, r, q); }
  }

  lemma HandleElsewhere(n: Node, c: nat, r: nat, q: nat)
    requires c in n.links && InvLinkedNode(n) && n.links[c].remote == r && q != r
    ensures var n' := Handle(n, c);
      && n'.links == n.links && n'.me == n.me && InvLinkedNode(n')
      && (q in n.connections ==> q in n'.connections && n'.connections[q] == n.connections[q])
  {
  }

  lemma SwapsNext(n: Node, n': Node, r: nat, ls: seq<Listener>)
    requires ls != [] && Swaps(n, r, ls) && n'.links == n.links
    requires forall j :: j != ls[0].keeping && Waits(n, j) ==> Waits(n', j)
    ensures Swaps(n', r, ls[1..]) && Waits(n, ls[0].keeping)
    ensures Kept(ls) == Kept(ls[1..]) + {ls[0].keeping} && ls[0].keeping !in Kept(ls[1..])
  {
    assert ls == [ls[0]] + ls[1..];
  }

  lemma {:induction false} FireKeeps(n: Node, c: nat, r: nat, ls: seq<Listener>)
    requires c in n.links && Inv(n, Kept(ls)) && Swaps(n, r, ls)
    ensures InvLinkedNode(n) && (forall i :: 0 <= i < |ls| ==> ls[i].keeping in n.links)
    ensures Inv(Fire(n, c, ls), {})
    decreases |ls|
  {
    InvLinked(n, Kept(ls));
    if ls == [] {
      assert Kept(ls) == {};
    } else {
      var k := ls[0].keeping;
      SwapsNext(n, n, r, ls);
      SwapCallKeeps(n, c, k, Kept(ls[1..]));
      SwapCallElsewhere(n, c, k, r, r + 1);
      SwapsNext(n, Call(n, c, ls[0]), r, ls);
      FireKeeps(Call(n, c, ls[0]), c, r, ls[1..]);
    }
  }

  lemma ForgetHeld(n: Node, c: nat, r: nat)
    requires Inv(n, {}) && c in n.emitted && c !in n.closed && c in n.links && r == n.links[c].remote && Held(n, c)
    ensures var n' := n.(closed := n.closed + {c}, connections := n.connections - {r}); AllHeldOk(n') && EmittedOk(n')
  {
    var n' := n.(closed := n.closed + {c}, connections := n.connections - {r});
    forall q | q in n'.connections ensures HeldOk(n', q) {
      assert HeldOk(n, q);
    }
    forall d | d in n'.emitted && d !in n'.closed ensures Held(n', d) {
      assert Held(n, d);
    }
  }

  lemma InRest(ls: seq<Listener>, l: Listener)
    requires l in ls && l != ls[0]
    ensures l in ls[1..]
  {
    assert ls == [ls[0]] + ls[1..];
  }

  lemma ForgetSeen(n: Node, c: nat, r: nat, ls: seq<Listener>)
    requires Inv(n, {}) && c in n.emitted && c !in n.closed && c in n.links && r == n.links[c].remote && Held(n, c)
    requires ls == Listeners(n, c) && |ls| > 0 && ls[0] == Forget
    ensures SeenOk(n.(closed := n.closed + {c}, connections := n.connections - {r}), Kept(ls[1..]))
  {
    var n' := n.(closed := n.closed + {c}, connections := n.connections - {r});
    forall d | d in n'.seen && d !in n'.closed ensures Somewhere(n', Kept(ls[1..]), d) {
      assert Somewhere(n, {}, d);
      if Swap(d) in ls { InRest(ls, Swap(d)); }
    }
  }

  /** A connection that was emitted closes: it leaves the map, and whatever was kept for later is up next. */
  lemma ForgetKeeps(n: Node, c: nat)
    requires Inv(n, {}) && c in n.emitted && c !in n.closed
    ensures c in n.links && Held(n, c)
    ensures var r, ls := n.links[c].remote, Listeners(n, c);
      var n' := n.(closed := n.closed + {c}, connections := n.connections - {r});
      |ls| > 0 && ls[0] == Forget && Inv(n', Kept(ls[1..])) && Swaps(n', r, ls[1..])
  {
    var r, ls := n.links[c].remote, Listeners(n, c);
    assert HeldOk(n, r);
    ForgetHeld(n, c, r);
    ForgetSeen(n, c, r, ls);
  }

  /** A connection that was not emitted closes: if it is kept for later, that is noted. */
  lemma QuietCloseKeeps(n: Node, c: nat)
    requires Inv(n, {}) && c !in n.emitted && c !in n.closed
    ensures Listeners(n, c) == [] || Listeners(n, c) == [Flag]
    ensures var flagged := if Listeners(n, c) == [] then n.flagged else n.flagged + {c};
      Inv(n.(closed := n.closed + {c}, flagged := flagged), {})
  {
    var n' := n.(closed := n.closed + {c}, flagged := if Listeners(n, c) == [] then n.flagged else n.flagged + {c});
    forall q | q in n'.connections ensures HeldOk(n', q) {
      assert HeldOk(n, q);
    }
    forall d | d in n'.seen && d !in n'.closed ensures Somewhere(n', {}, d) {
      assert Somewhere(n, {}, d);
    }
  }

  lemma InvIsLinked(n: Node, c: nat)
    requires Inv(n, {}) && c !in n.closed
    ensures Linked(n, c)
  {
    InvLinked(n, {});
    if c in n.emitted {
      ForgetKeeps(n, c);
    } else {
      QuietCloseKeeps(n, c);
    }
  }

  lemma CloseKeeps(n: Node, c: nat)
    requires Inv(n, {}) && c in n.links && c !in n.closed
    ensures Linked(n, c) && Inv(Close(n, c), {})
  {
    InvIsLinked(n, c);
    var ls, n1 := Listeners(n, c), n.(closed := n.closed + {c});
    if c in n.emitted {
      ForgetKeeps(n, c);
      var r := n.links[c].remote;
      assert Call(n1, c, Forget) == n.(closed := n.closed + {c}, connections := n.connections - {r});
      FireKeeps(Call(n1, c, Forget), c, r, ls[1..]);
    } else {
      QuietCloseKeeps(n, c);
      assert ls == [Flag] ==> Fire(n1, c, ls) == Fire(Call(n1, c, Flag), c, []);
    }
  }

  lemma ConnectKeeps(n: Node, c: nat)
    requires Inv(n, {}) && c in n.links && c !in n.seen && c !in n.closed
    ensures InvLinkedNode(n) && Inv(Connect(n, c), {})
  {
    InvLinked(n, {});
    var n' := n.(seen := n.seen + {c});
    assert Inv(n', {c}) by {
      forall q | q in n'.connections ensures HeldOk(n', q) {
        assert HeldOk(n, q);
      }
      forall d | d in n'.seen && d !in n'.closed ensures Somewhere(n', {c}, d) {
        assert d == c || Somewhere(n, {}, d);
      }
      NotPending(n, c);
    }
    assert {c} == {} + {c};
    HandleKeeps(n', c, {});
  }

  lemma NotPending(n: Node, c: nat)
    requires Inv(n, {}) && c !in n.seen
    ensures !Pending(n, c)
  {
    if c in n.links && n.links[c].remote in n.connections {
      assert HeldOk(n, n.links[c].remote);
      var ls := Listeners(n, n.connections[n.links[c].remote]);
      assert forall i :: 0 < i < |ls| ==> ls[i] == ls[1..][i - 1];
    }
  }

  /** Destroying what is in the map, or taking no more connections, changes nothing yet. */
  lemma DestroyKeeps(n: Node, listening: bool, ds: set<nat>)
    requires Inv(n, {}) && ds <= n.connections.Values
    ensures Inv(n.(listening := listening, destroyed := n.destroyed + ds), {})
  {
    var n' := n.(listening := listening, destroyed := n.destroyed + ds);
    forall q | q in n'.connections ensures HeldOk(n', q) {
      assert HeldOk(n, q);
    }
    forall d | d in n'.seen && d !in n'.closed ensures Somewhere(n', {}, d) {
      assert Somewhere(n, {}, d);
    }
    forall d | d in ds ensures d in n.seen {
      var r :| r in n.connections && n.connections[r] == d;
      assert HeldOk(n, r);
    }
    assert forall d :: Pending(n', d) <==> Pending(n, d);
  }

  // ----- One node, any events -----

  datatype Event = Opened(conn: nat) | Closed(conn: nat) | Stopping | Starting | Forcing

  /** Events that cannot happen change nothing: a connection opens once, and not after it has closed; it
      closes once. */
  function Next(n: Node, ev: Event): Node
    requires Inv(n, {})
  {
    match ev
    case Opened(c) => if c in n.links && c !in n.seen && c !in n.closed then InvLinked(n, {}); Connect(n, c) else n
    case Closed(c) => if c in n.links && c !in n.closed then InvIsLinked(n, c); Close(n, c) else n
    case Stopping => Stop(n)
    case Starting => Serve(n)
    case Forcing => ForceClose(n)
  }

  lemma NextKeeps(n: Node, ev: Event)
    requires Inv(n, {})
    ensures Inv(Next(n, ev), {})
  {
    match ev
    case Opened(c) => if c in n.links && c !in n.seen && c !in n.closed { ConnectKeeps(n, c); }
    case Closed(c) => if c in n.links && c !in n.closed { CloseKeeps(n, c); }
    case Stopping =>
      DestroyKeeps(n, false, {});
      assert n.destroyed + {} == n.destroyed;
    case Starting =>
      DestroyKeeps(n, true, {});
      assert n.destroyed + {} == n.destroyed;
    case Forcing => DestroyKeeps(n, n.listening, n.connections.Values);
  }

  function Run(n: Node, events: seq<Event>): (n': Node)
    requires Inv(n, {})
    ensures Inv(n', {})
    decreases |events|
  {
    if events == [] then n else
      NextKeeps(n, events[0]);
      Run(Next(n, events[0]), events[1..])
  }

  lemma InitInv(me: nat, links: map<nat, Link>)
    ensures Inv(Init(me, links), {})
  {
  }

  /** At any time the map holds exactly the connections that were emitted and have not closed; so no peer
      has two of them. Every other open one is destroyed, or kept for later. None is emitted twice. Errors are
      ignored of every connection destroyed as a duplicate and of every one kept for later, and of no other one
      in the map: whoever it was emitted to hears of them. */
  lemma MapIsLive(me: nat, links: map<nat, Link>, events: seq<Event>)
    ensures Inv(Init(me, links), {})
    ensures var n := Run(Init(me, links), events);
      && (forall c :: Held(n, c) <==> c in n.emitted && c !in n.closed)
      && (forall r :: r in n.connections ==> Held(n, n.connections[r]))
      && (forall i, j :: 0 <= i < j < |n.emitted| ==> n.emitted[i] != n.emitted[j])
      && n.duplicates <= n.silenced && (forall c :: Held(n, c) && c in n.silenced ==> c in n.duplicates)
      && (forall c :: Pending(n, c) ==> c in n.silenced)
      && (forall c :: c in n.seen && c !in n.closed ==> Held(n, c) || c in n.destroyed || Pending(n, c))
  {
    InitInv(me, links);
    var n := Run(Init(me, links), events);
    forall c | Pending(n, c) ensures c in n.silenced { KeptSeen(n, c); }
    forall c | c in n.seen && c !in n.closed ensures Held(n, c) || c in n.destroyed || Pending(n, c) {
      assert Somewhere(n, {}, c);
    }
    forall c | Held(n, c) ensures c in n.emitted && c !in n.closed {
      assert HeldOk(n, n.links[c].remote);
    }
    forall r | r in n.connections ensures Held(n, n.connections[r]) {
      assert HeldOk(n, r);
    }
  }

  /** The swaps for one peer leave the other peers' entries alone. */
  lemma {:induction false} FireElsewhere(n: Node, c: nat, r: nat, ls: seq<Listener>, q: nat)
    requires c in n.links && InvLinkedNode(n) && q != r
    requires forall i :: 0 <= i < |ls| ==> ls[i].Swap? && ls[i].keeping in n.links && n.links[ls[i].keeping].remote == r
    ensures var n' := Fire(n, c, ls);
      && n'.links == n.links && n'.me == n.me
      && (q in n.connections ==> q in n'.connections && n'.connections[q] == n.connections[q])
    decreases |ls|
  {
    if ls != [] {
      SwapCallElsewhere(n, c, ls[0].keeping, r, q);
      FireElsewhere(Call(n, c, ls[0]), c, r, ls[1..], q);
    }
  }

  /** A connection that closes never takes another one out of the map. */
  lemma CloseTakesOnlyItself(n: Node, c: nat, d: nat)
    requires Inv(n, {}) && Held(n, d) && d != c
    ensures Held(Next(n, Closed(c)), d)
  {
    if c in n.links && c !in n.closed {
      InvIsLinked(n, c);
      var n1, ls := n.(closed := n.closed + {c}), Listeners(n, c);
      if c in n.emitted {
        ForgetKeeps(n, c);
        var r := n.links[c].remote;
        assert Call(n1, c, Forget) == n.(closed := n.closed + {c}, connections := n.connections - {r});
        FireElsewhere(Call(n1, c, Forget), c, r, ls[1..], n.links[d].remote);
      } else {
        QuietCloseKeeps(n, c);
        assert ls == [Flag] ==> Fire(n1, c, ls) == Fire(Call(n1, c, Flag), c, []);
      }
    }
  }

  // ----- While the server does not listen -----

  /** The map has no new entries, and nothing is emitted. */
  ghost predicate NothingNew(n: Node, n': Node)
  {
    && n'.links == n.links && n'.listening == n.listening && n'.emitted == n.emitted && n'.me == n.me
    && n'.connections.Keys <= n.connections.Keys
    && (forall r :: r in n'.connections ==> n'.connections[r] == n.connections[r])
  }

  lemma HandleStopped(n: Node, c: nat)
    requires c in n.links && InvLinkedNode(n) && !n.listening
    ensures NothingNew(n, Handle(n, c)) && Handle(n, c).seen == n.seen && Handle(n, c).closed == n.closed
  {
  }

  lemma {:induction false} FireStopped(n: Node, c: nat, ls: seq<Listener>)
    requires c in n.links && InvLinkedNode(n) && !n.listening
    requires forall i :: 0 <= i < |ls| && ls[i].Swap? ==> ls[i].keeping in n.links
    ensures NothingNew(n, Fire(n, c, ls)) && Fire(n, c, ls).seen == n.seen && Fire(n, c, ls).closed == n.closed
    decreases |ls|
  {
    if ls != [] {
      if ls[0].Swap? && ls[0].keeping !in n.flagged { HandleStopped(Release(n, ls[0].keeping), ls[0].keeping); }
      FireStopped(Call(n, c, ls[0]), c, ls[1..]);
    }
  }

  lemma NextStopped(n: Node, ev: Event)
    requires Inv(n, {}) && !n.listening && !ev.Starting?
    ensures NothingNew(n, Next(n, ev))
  {
    InvLinked(n, {});
    match ev
    case Opened(c) => if c in n.links && c !in n.seen && c !in n.closed { HandleStopped(n.(seen := n.seen + {c}), c); }
    case Closed(c) =>
      if c in n.links && c !in n.closed {
        InvIsLinked(n, c);
        FireStopped(n.(closed := n.closed + {c}), c, Listeners(n, c));
      }
    case Stopping =>
    case Forcing =>
  }

  lemma {:induction false} RunStopped(n: Node, events: seq<Event>)
    requires Inv(n, {}) && !n.listening && Starting !in events
    ensures NothingNew(n, Run(n, events))
    decreases |events|
  {
    if events != [] {
      NextStopped(n, events[0]);
      NextKeeps(n, events[0]);
      RunStopped(Next(n, events[0]), events[1..]);
    }
  }

  lemma {:induction false} RunAppend(n: Node, xs: seq<Event>, ys: seq<Event>)
    requires Inv(n, {})
    ensures Run(n, xs + ys) == Run(Run(n, xs), ys)
    decreases |xs|
  {
    if xs == [] {
      assert xs + ys == ys;
    } else {
      assert (xs + ys)[1..] == xs[1..] + ys;
      NextKeeps(n, xs[0]);
      RunAppend(Next(n, xs[0]), xs[1..], ys);
    }
  }

  /** Over every run: from a stop to the next start nothing is emitted, and nothing joins the map. */
  lemma NoneWhileStopped(me: nat, links: map<nat, Link>, before: seq<Event>, between: seq<Event>)
    requires Starting !in between
    ensures Inv(Init(me, links), {})
    ensures var n, n' := Run(Init(me, links), before), Run(Init(me, links), before + ([Stopping] + between));
      && n'.emitted == n.emitted && forall c :: Held(n', c) ==> Held(n, c)
  {
    InitInv(me, links);
    var n := Run(Init(me, links), before);
    RunAppend(Init(me, links), before, [Stopping] + between);
    assert ([Stopping] + between)[1..] == between;
    NextKeeps(n, Stopping);
    RunStopped(Next(n, Stopping), between);
  }

  /** A connection that opens meanwhile, with none to the same peer in the map, is destroyed. */
  lemma OpenedStopped(n: Node, k: nat)
    requires Inv(n, {}) && !n.listening && k in n.links && k !in n.seen && k !in n.closed
    requires n.links[k].remote !in n.connections
    ensures k in Next(n, Opened(k)).destroyed
  {
  }

  /** So is one that was kept for later, when the connection in the map closes and it would be its turn. */
  lemma PromotedStopped(n: Node, c: nat, k: nat)
    requires Inv(n, {}) && !n.listening && Held(n, c) && Pending(n, k) && k !in n.closed
    requires n.links[c].remote == n.links[k].remote
    ensures k in Next(n, Closed(c)).destroyed
  {
    var n', r := Next(n, Closed(c)), n.links[c].remote;
    assert HeldOk(n, r);
    KeptSeen(n, k);
    NextKeeps(n, Closed(c));
    InvIsLinked(n, c);
    ForgetKeeps(n, c);
    var n1, ls := n.(closed := n.closed + {c}), Listeners(n, c);
    InvLinked(n, {});
    FireStopped(Call(n1, c, Forget), c, ls[1..]);
    assert r !in n'.connections && k in n'.seen && k !in n'.closed;
    assert Somewhere(n', {}, k);
  }

  /** After the next start connections are taken again. */
  lemma TakenAgain(n: Node, k: nat)
    requires Inv(n, {}) && k in n.links && k !in n.seen && k !in n.closed && n.links[k].remote !in n.connections
    ensures Inv(Next(n, Starting), {}) && Held(Next(Next(n, Starting), Opened(k)), k)
  {
    NextKeeps(n, Starting);
  }

  lemma KeptSeen(n: Node, k: nat)
    requires Inv(n, {}) && Pending(n, k)
    ensures Waits(n, k) && k != n.connections[n.links[k].remote]
  {
    assert HeldOk(n, n.links[k].remote);
    var ls := Listeners(n, n.connections[n.links[k].remote]);
    InRest(ls, Swap(k));
    var i :| 0 <= i < |ls[1..]| && ls[1..][i] == Swap(k);
  }

  // ----- The class -----

  /** A `LocalDiscovery`, with the state of its streams: their `close` listeners, and which of them opened,
      were destroyed, or closed. */
  class LocalDiscovery {
    const publicKey: nat
    const links: map<nat, Link>
    var listening: bool
    var noiseConnections: map<nat, nat>
    var listeners: map<nat, seq<Listener>>
    var flagged: set<nat>
    var seen: set<nat>
    var destroyed: set<nat>
    var duplicates: set<nat>
    var silenced: set<nat>
    var closed: set<nat>
    var emitted: seq<nat>

    function State(): Node
      reads this
    {
      Node(publicKey, links, listening, noiseConnections, listeners, flagged, seen, destroyed, duplicates, silenced,
        closed, emitted)
    }

    ghost predicate Valid()
      reads this
    {
      Inv(State(), {})
    }

    constructor (publicKey: nat, links: map<nat, Link>)
      ensures Valid() && State() == Init(publicKey, links)
    {
      this.publicKey, this.links := publicKey, links;
      listening, noiseConnections, listeners := true, map[], map[];
      flagged, seen, destroyed, duplicates, silenced, closed, emitted := {}, {}, {}, {}, {}, {}, [];
      new;
      InitInv(publicKey, links);
    }

    method OnClose(conn: nat, l: Listener)
      modifies this`listeners
      ensures State() == Listen(old(State()), conn, l)
    {
      listeners := listeners[conn := (if conn in listeners then listeners[conn] else []) + [l]];
    }

    /** Once `existing` has closed, go on with `keeping`, unless that has closed by then; its errors are ignored
        in the meantime. */
    method HandleConnectionSwap(existing: nat, keeping: nat)
      modifies this`listeners, this`silenced
      ensures State() == Keep(old(State()), existing, keeping)
    {
      OnClose(existing, Swap(keeping));
      silenced := silenced + {keeping};
      OnClose(keeping, Flag);
    }

    /** `on('error', noop)` and `destroy` with the duplicate error. */
    method DestroyDuplicate(conn: nat)
      modifies this`destroyed, this`duplicates, this`silenced
      ensures State() == Destroy(old(State()), conn)
    {
      silenced := silenced + {conn};
      destroyed, duplicates := destroyed + {conn}, duplicates + {conn};
    }

    method HandleNoiseStreamConnection(conn: nat)
      requires conn in links && InvLinkedNode(State())
      modifies this
      ensures State() == Handle(old(State()), conn)
    {
      var remoteId := links[conn].remote;
      if remoteId in noiseConnections {
        var existing := noiseConnections[remoteId];
        if KeepExisting(publicKey, links[conn], links[existing]) {
          DestroyDuplicate(conn);
          return;
        }
        DestroyDuplicate(existing);
        HandleConnectionSwap(existing, conn);
        return;
      }
      if !listening {
        destroyed := destroyed + {conn};
        return;
      }
      noiseConnections := noiseConnections[remoteId := conn];
      OnClose(conn, Forget);
      emitted := emitted + [conn];
    }

    /** A stream opens. */
    method HandleOpen(conn: nat)
      requires Valid() && conn in links && conn !in seen && conn !in closed
      modifies this
      ensures Valid() && InvLinkedNode(old(State())) && State() == Connect(old(State()), conn)
    {
      InvLinked(State(), {});
      ConnectKeeps(State(), conn);
      seen := seen + {conn};
      HandleNoiseStreamConnection(conn);
    }

    /** One of the `close` listeners of `conn`. */
    method CallListener(conn: nat, l: Listener)
      requires conn in links && InvLinkedNode(State()) && (l.Swap? ==> l.keeping in links)
      modifies this
      ensures State() == Call(old(State()), conn, l) && InvLinkedNode(State())
    {
      match l
      case Forget => noiseConnections := noiseConnections - {links[conn].remote};
      case Flag => flagged := flagged + {conn};
      case Swap(keeping) =>
        if keeping in flagged { return; }
        silenced := silenced - {keeping};
        if keeping in listeners { listeners := listeners[keeping := Without(listeners[keeping])]; }
        HandleNoiseStreamConnection(keeping);
    }

    /** A stream closes: its listeners are called in the order they were added. */
    method HandleClose(conn: nat)
      requires Valid() && conn in links && conn !in closed
      modifies this
      ensures Valid() && Linked(old(State()), conn) && State() == Close(old(State()), conn)
      ensures forall d :: d != conn && Held(old(State()), d) ==> Held(State(), d)
    {
      ghost var before := State();
      CloseKeeps(before, conn);
      forall d | d != conn && Held(before, d) ensures Held(Close(before, conn), d) {
        CloseTakesOnlyItself(before, conn, d);
      }
      var ls := if conn in listeners then listeners[conn] else [];
      closed := closed + {conn};
      assert ls[0..] == ls;
      for i := 0 to |ls|
        invariant InvLinkedNode(State()) && Fire(State(), conn, ls[i..]) == Close(before, conn)
      {
        assert ls[i..][1..] == ls[i + 1..];
        CallListener(conn, ls[i]);
      }
    }

    method StopListening()
      requires Valid()
      modifies this`listening
      ensures Valid() && State() == Stop(old(State()))
    {
      NextKeeps(State(), Stopping);
      listening := false;
    }

    method StartListening()
      requires Valid()
      modifies this`listening
      ensures Valid() && State() == Serve(old(State()))
    {
      NextKeeps(State(), Starting);
      listening := true;
    }

    method ForceCloseAll()
      requires Valid()
      modifies this`destroyed
      ensures Valid() && State() == ForceClose(old(State()))
      ensures forall c :: Held(old(State()), c) ==> c in destroyed
    {
      var sockets := noiseConnections.Values;
      DestroyKeeps(State(), listening, sockets);
      destroyed := destroyed + sockets;
    }
  }
}
