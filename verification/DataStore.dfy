/** Writes and the indexer meeting (src/datastore/index.js). A write appends its block and then waits until
    the indexer has handled it; the indexer may be done with the block before the append resolves. Code
    between two awaits is one step, and steps of any number of writes and batches come in any order. */
module DataStores {

  /** What the writer core holds: the block of a write, or one appended some other way. */
  datatype Block = Doc(write: nat) | Other

  /** How far a call of `write` has come: its append not in the core yet; in the core but the append not
      resolved; waiting for the indexer; its promise resolved; returned. */
  datatype Call = Started | Landed(index: nat) | Waiting(index: nat) | Resolved(index: nat) | Returned(index: nat)

  /** An entry handed to the indexer: of the writer core, or of another core. */
  datatype Entry = Entry(own: bool, index: nat)

  /** How far a call of `handleEntries` has come: running `batch`; waiting for the appends that were pending
      when `batch` was done; finished. */
  datatype Handler =
    | Batching(entries: seq<Entry>)
    | Settling(entries: seq<Entry>, awaited: set<nat>, docs: Docs)
    | Finished(entries: seq<Entry>)

  /** Documents by schema. */
  type Docs = map<string, set<nat>>

  datatype State = State(
    core: seq<Block>,
    pendingAppends: set<nat>,
    pendingIndex: map<nat, nat>,
    calls: map<nat, Call>,
    handlers: map<nat, Handler>,
    indexed: set<nat>,
    pendingEmits: Docs)

  /** A new data store, for the schemas of its namespace. */
  function Init(schemas: set<string>): State
  {
    State([], {}, map[], map[], map[], {}, NoDocs(schemas))
  }

  const PROJECT_SETTINGS := "projectSettings"

  function NoDocs(schemas: set<string>): Docs
  {
    map s | s in schemas :: {}
  }

  /** The documents of one batch join those that wait for the indexer to be idle. */
  function AddDocs(pending: Docs, indexed: Docs): Docs
  {
    map s | s in pending :: if s != PROJECT_SETTINGS && s in indexed then pending[s] + indexed[s] else pending[s]
  }

  /** What an idle indexer makes known, to those who listen. */
  function Told(pending: Docs, listened: set<string>): Docs
  {
    map s | s in pending && s in listened && pending[s] != {} :: pending[s]
  }

  datatype Action =
    | Write(write: nat)
    | Land(write: nat)
    | LandOther
    | AppendResolves(write: nat)
    | Return(write: nat)
    | BatchStarts(handler: nat, entries: seq<Entry>)
    | BatchDone(handler: nat, docs: Docs)
    | AppendsResolved(handler: nat)
    | Idle

  /** The positions of the writer core among the entries. */
  function Own(entries: seq<Entry>): (own: set<nat>)
    ensures forall i :: i in own <==> Entry(true, i) in entries
  {
    set e | e in entries && e.own :: e.index
  }

  predicate Enabled(s: State, a: Action)
  {
    match a
    case Write(w) => w !in s.calls
    case Land(w) => w in s.calls && s.calls[w].Started?
    case LandOther => true
    case AppendResolves(w) => w in s.calls && s.calls[w].Landed?
    case Return(w) => w in s.calls && s.calls[w].Resolved?
    case BatchStarts(b, entries) => b !in s.handlers && forall e :: e in entries && e.own ==> e.index < |s.core|
    case BatchDone(b, _) => b in s.handlers && s.handlers[b].Batching?
    case AppendsResolved(b) => b in s.handlers && s.handlers[b].Settling? && s.handlers[b].awaited !! s.pendingAppends
    case Idle => true
  }

  /** The calls after the promises of `woken` were resolved; resolving again changes nothing. */
  function Wake(calls: map<nat, Call>, woken: set<nat>): map<nat, Call>
  {
    map w | w in calls :: if w in woken && calls[w].Waiting? then Resolved(calls[w].index) else calls[w]
  }

  /** The writes whose promise a handler of `entries` finds. */
  function Found(pendingIndex: map<nat, nat>, entries: seq<Entry>): set<nat>
  {
    set e | e in entries && e.own && e.index in pendingIndex :: pendingIndex[e.index]
  }

  function Apply(s: State, a: Action): State
    requires Enabled(s, a)
  {
    match a
    case Write(w) => s.(calls := s.calls[w := Started], pendingAppends := s.pendingAppends + {w})
    case Land(w) => s.(core := s.core + [Doc(w)], calls := s.calls[w := Landed(|s.core|)])
    case LandOther => s.(core := s.core + [Other])
    case AppendResolves(w) =>
      var i := s.calls[w].index;
      s.(calls := s.calls[w := Waiting(i)], pendingAppends := s.pendingAppends - {w},
        pendingIndex := s.pendingIndex[i := w])
    case Return(w) =>
      var i := s.calls[w].index;
      s.(calls := s.calls[w := Returned(i)], pendingIndex := s.pendingIndex - {i})
    case BatchStarts(b, entries) => s.(handlers := s.handlers[b := Batching(entries)])
    case BatchDone(b, docs) =>
      var entries := s.handlers[b].entries;
      s.(handlers := s.handlers[b := Settling(entries, s.pendingAppends, docs)], indexed := s.indexed + Own(entries))
    case AppendsResolved(b) =>
      var h := s.handlers[b];
      s.(handlers := s.handlers[b := Finished(h.entries)], calls := Wake(s.calls, Found(s.pendingIndex, h.entries)),
         pendingEmits := AddDocs(s.pendingEmits, h.docs))
    case Idle => s.(pendingEmits := NoDocs(s.pendingEmits.Keys))
  }

  /** An action that is not possible in a state leaves it alone, so that every sequence of actions is a run. */
  function Next(s: State, a: Action): State
  {
    if Enabled(s, a) then Apply(s, a) else s
  }

  function Run(s: State, actions: seq<Action>): State
    decreases |actions|
  {
    if actions == [] then s else Run(Next(s, actions[0]), actions[1..])
  }

  // ----- What every step keeps -----

  /** Who is where: the pending appends, the promises to look up, and the blocks in the core. */
  ghost predicate Placed(s: State)
  {
    && (forall w :: w in s.pendingAppends <==> w in s.calls && (s.calls[w].Started? || s.calls[w].Landed?))
    && (forall i :: i in s.pendingIndex ==>
      s.pendingIndex[i] in s.calls && s.calls[s.pendingIndex[i]] in {Waiting(i), Resolved(i)})
    && (forall w :: w in s.calls && (s.calls[w].Waiting? || s.calls[w].Resolved?) ==>
         s.calls[w].index in s.pendingIndex && s.pendingIndex[s.calls[w].index] == w)
    && (forall w :: w in s.calls && !s.calls[w].Started? ==>
      s.calls[w].index < |s.core| && s.core[s.calls[w].index] == Doc(w))
    && (forall i :: 0 <= i < |s.core| && s.core[i].Doc? ==>
         var w := s.core[i].write; w in s.calls && !s.calls[w].Started? && s.calls[w].index == i)
  }

  /** The promise of write `w` is resolved. */
  predicate Awake(s: State, w: nat)
  {
    w in s.calls && (s.calls[w].Resolved? || s.calls[w].Returned?)
  }

  /** The promise of the write that put block `i` in the core is resolved. */
  ghost predicate Settled(s: State, i: nat)
  {
    && i < |s.core|
    && (s.core[i].Doc? ==> Awake(s, s.core[i].write))
  }

  ghost predicate HandlerOk(s: State, h: Handler)
  {
    && (forall i :: i in Own(h.entries) ==> i < |s.core|)
    && (!h.Batching? ==> Own(h.entries) <= s.indexed)
    && (h.Settling? ==> forall w :: w in s.calls && s.calls[w].Landed? && s.calls[w].index in Own(h.entries) ==>
      w in h.awaited)
    && (h.Finished? ==> forall i :: i in Own(h.entries) ==> Settled(s, i))
  }

  ghost predicate Inv(s: State)
  {
    && Placed(s)
    && (forall w :: Awake(s, w) ==> s.calls[w].index in s.indexed)
    && (forall b :: b in s.handlers ==> HandlerOk(s, s.handlers[b]))
  }

  lemma PlacedKept(s: State, a: Action)
    requires Placed(s) && Enabled(s, a)
    ensures Placed(Apply(s, a))
  {
    match a
    case Write(w) => assert Placed(Apply(s, a));
    case Land(w) => LandPlaced(s, w);
    case LandOther => assert Placed(Apply(s, a));
    case AppendResolves(w) => ResolvesPlaced(s, w);
    case Return(w) => ReturnPlaced(s, w);
    case BatchStarts(b, entries) => assert Placed(Apply(s, a));
    case BatchDone(b, _) => assert Placed(Apply(s, a));
    case Idle => assert Placed(Apply(s, a));
    case AppendsResolved(b) => WakePlaced(s, b);
  }

  lemma LandPlaced(s: State, w: nat)
    requires Placed(s) && Enabled(s, Land(w))
    ensures Placed(Apply(s, Land(w)))
  {
  }

  lemma ResolvesPlaced(s: State, w: nat)
    requires Placed(s) && Enabled(s, AppendResolves(w))
    ensures Placed(Apply(s, AppendResolves(w)))
  {
  }

  lemma ReturnPlaced(s: State, w: nat)
    requires Placed(s) && Enabled(s, Return(w))
    ensures Placed(Apply(s, Return(w)))
  {
  }

  lemma WakePlaced(s: State, b: nat)
    requires Placed(s) && Enabled(s, AppendsResolved(b))
    ensures Placed(Apply(s, AppendsResolved(b)))
  {
  }

  /** A block that was handled was handled in whatever state its write is. */
  lemma IndexedKept(s: State, a: Action)
    requires Inv(s) && Enabled(s, a)
    ensures var s' := Apply(s, a);
      forall w :: Awake(s', w) ==> s'.calls[w].index in s'.indexed
  {
    if a.AppendsResolved? {
      var s', entries := Apply(s, a), s.handlers[a.handler].entries;
      forall w | w in s'.calls && s.calls[w].Waiting? && s'.calls[w].Resolved? ensures s'.calls[w].index in s'.indexed {
        var e :| e in entries && e.own && e.index in s.pendingIndex && s.pendingIndex[e.index] == w;
        assert e.index in Own(entries) && s.calls[w].index == e.index;
      }
    }
  }

  /** Once the appends that were pending are resolved, the handler finds every promise it has to resolve. */
  lemma FindsAll(s: State, b: nat)
    requires Inv(s) && Enabled(s, AppendsResolved(b))
    ensures HandlerOk(Apply(s, AppendsResolved(b)), Finished(s.handlers[b].entries))
  {
    var h, s' := s.handlers[b], Apply(s, AppendsResolved(b));
    forall i | i in Own(h.entries) ensures Settled(s', i) {
      if s.core[i].Doc? {
        var w := s.core[i].write;
        if s.calls[w].Waiting? {
          assert Entry(true, i) in h.entries && s.pendingIndex[i] == w;
        }
      }
    }
  }

  /** What is true of a handler stays true while other things happen. */
  lemma HandlerKept(s: State, a: Action, h: Handler)
    requires Inv(s) && Enabled(s, a) && HandlerOk(s, h)
    ensures HandlerOk(Apply(s, a), h)
  {
    var s' := Apply(s, a);
    forall i: nat | i < |s.core| && Settled(s, i) ensures Settled(s', i) {
    }
  }

  lemma StepKeepsInv(s: State, a: Action)
    requires Inv(s) && Enabled(s, a)
    ensures Inv(Apply(s, a))
  {
    PlacedKept(s, a);
    IndexedKept(s, a);
    var s' := Apply(s, a);
    forall b | b in s'.handlers ensures HandlerOk(s', s'.handlers[b]) {
      if b in s.handlers { HandlerKept(s, a, s.handlers[b]); }
      if a == AppendsResolved(b) { FindsAll(s, b); }
    }
  }

  lemma {:induction false} RunKeepsInv(s: State, actions: seq<Action>)
    requires Inv(s)
    ensures Inv(Run(s, actions))
    decreases |actions|
  {
    if actions != [] {
      if Enabled(s, actions[0]) { StepKeepsInv(s, actions[0]); }
      RunKeepsInv(Next(s, actions[0]), actions[1..]);
    }
  }

  // ----- The theorems, over every order of steps -----

  /** A write returns the position of its own block, and only after that block was handled by the indexer. */
  lemma ReturnsIndexed(schemas: set<string>, actions: seq<Action>, w: nat)
    ensures var s := Run(Init(schemas), actions);
      w in s.calls && s.calls[w].Returned? ==>
        s.calls[w].index in s.indexed && s.calls[w].index < |s.core| && s.core[s.calls[w].index] == Doc(w)
  {
    RunKeepsInv(Init(schemas), actions);
  }

  /** No lost wake-up: once a handler has finished, the promise of every write whose block it held is
      resolved, though the write may have registered it after the handler's batch was done. */
  lemma NoLostWakeUp(schemas: set<string>, actions: seq<Action>, b: nat, w: nat)
    ensures var s := Run(Init(schemas), actions);
      b in s.handlers && s.handlers[b].Finished? && w in s.calls && !s.calls[w].Started? ==>
        Entry(true, s.calls[w].index) in s.handlers[b].entries ==> s.calls[w].Resolved? || s.calls[w].Returned?
  {
    RunKeepsInv(Init(schemas), actions);
    var s := Run(Init(schemas), actions);
    if b in s.handlers && s.handlers[b].Finished? && w in s.calls && !s.calls[w].Started? &&
      Entry(true, s.calls[w].index) in s.handlers[b].entries {
      assert Settled(s, s.calls[w].index);
    }
  }

  /** One write whose block landed and whose append has not resolved yet. */
  function OneLanded(handlers: map<nat, Handler>): State
  {
    State([Doc(0)], {0}, map[], map[0 := Landed(0)], handlers, {}, NoDocs({}))
  }

  /** Why the pending appends have to be awaited: a batch can be done, and find no promise for a block of
      its own, while the append of that block has not resolved. */
  lemma BatchCanBeFirst()
    ensures var s := Run(Init({}), [Write(0), Land(0), BatchStarts(0, [Entry(true, 0)]), BatchDone(0, map[])]);
      s.handlers[0] == Settling([Entry(true, 0)], {0}, map[]) && s.calls[0] == Landed(0) &&
        Found(s.pendingIndex, [Entry(true, 0)]) == {}
  {
    var e := [Entry(true, 0)];
    var run3 := [BatchStarts(0, e)] + [BatchDone(0, map[])];
    var run2 := [Land(0)] + run3;
    assert [Write(0), Land(0), BatchStarts(0, e), BatchDone(0, map[])] == [Write(0)] + run2;
    var s1 := RunCons(Init({}), Write(0), run2);
    var s2 := RunCons(s1, Land(0), run3);
    assert s2 == OneLanded(map[]);
    var s3 := RunCons(s2, BatchStarts(0, e), [BatchDone(0, map[])]);
    assert s3 == OneLanded(map[0 := Batching(e)]);
    assert [BatchDone(0, map[])] + [] == [BatchDone(0, map[])];
    var s4 := RunCons(s3, BatchDone(0, map[]), []);
  }

  lemma RunCons(s: State, a: Action, rest: seq<Action>) returns (s': State)
    ensures s' == Next(s, a) && Run(s, [a] + rest) == Run(s', rest)
  {
    s' := Next(s, a);
    assert ([a] + rest)[1..] == rest;
  }

  /** The steps that need no new write, block or batch. */
  predicate Internal(a: Action)
  {
    a.Land? || a.AppendResolves? || a.Return? || a.BatchDone? || a.AppendsResolved?
  }

  /** The indexer was given block `i`. */
  ghost predicate HandedOver(s: State, i: nat)
  {
    exists b :: b in s.handlers && i in Own(s.handlers[b].entries)
  }

  /** Nothing more happens on its own, and the indexer was given every block. */
  ghost predicate Quiet(s: State)
  {
    (forall a :: Internal(a) ==> !Enabled(s, a)) && forall i: nat :: i < |s.core| ==> HandedOver(s, i)
  }

  lemma QuietCalls(s: State)
    requires Inv(s) && Quiet(s)
    ensures s.pendingAppends == {}
    ensures forall w :: w in s.calls ==> s.calls[w].Waiting? || s.calls[w].Returned?
  {
    forall w | w in s.calls ensures s.calls[w].Waiting? || s.calls[w].Returned? {
      assert !Enabled(s, Land(w)) && !Enabled(s, AppendResolves(w)) && !Enabled(s, Return(w));
    }
  }

  lemma QuietHandlers(s: State, i: nat)
    requires Inv(s) && Quiet(s) && s.pendingAppends == {} && i < |s.core|
    ensures Settled(s, i)
  {
    assert HandedOver(s, i);
    var b :| b in s.handlers && i in Own(s.handlers[b].entries);
    assert !Enabled(s, BatchDone(b, map[])) && !Enabled(s, AppendsResolved(b));
    assert HandlerOk(s, s.handlers[b]) && s.handlers[b].Finished?;
  }

  /** No deadlock: when nothing more happens, every write has returned and nothing is left pending. */
  lemma QuietMeansReturned(schemas: set<string>, actions: seq<Action>)
    ensures var s := Run(Init(schemas), actions);
      Quiet(s) ==>
        (forall w :: w in s.calls ==> s.calls[w].Returned?) && s.pendingAppends == {} && s.pendingIndex == map[]
  {
    RunKeepsInv(Init(schemas), actions);
    var s := Run(Init(schemas), actions);
    if Quiet(s) {
      QuietCalls(s);
      forall w | w in s.calls ensures s.calls[w].Returned? {
        QuietHandlers(s, s.calls[w].index);
      }
      NothingPending(s);
    }
  }

  lemma NothingPending(s: State)
    requires Inv(s) && forall w :: w in s.calls ==> s.calls[w].Returned?
    ensures s.pendingIndex == map[]
  {
    assert s.pendingIndex.Keys == {};
  }

  // ----- And such a state is always reached -----

  /** How many steps of its own a call and a handler still have. */
  function StepsLeft(s: State, k: nat): nat
  {
    (if k !in s.calls then 0
     else match s.calls[k] {
       case Started => 4
       case Landed(_) => 3
       case Waiting(_) => 2
       case Resolved(_) => 1
       case Returned(_) => 0
     })
    + if k !in s.handlers then 0
      else match s.handlers[k] {
        case Batching(_) => 2
        case Settling(_, _, _) => 1
        case Finished(_) => 0
      }
  }

  function Work(s: State, n: nat): nat
  {
    if n == 0 then 0 else Work(s, n - 1) + StepsLeft(s, n - 1)
  }

  lemma {:induction false} WorkShrinks(s: State, s': State, k: nat, n: nat)
    requires forall j: nat :: StepsLeft(s', j) <= StepsLeft(s, j)
    ensures Work(s', n) + (if k < n then StepsLeft(s, k) - StepsLeft(s', k) else 0) <= Work(s, n)
  {
    if n > 0 { WorkShrinks(s, s', k, n - 1); }
  }

  /** The call or handler that takes the step. */
  function Actor(a: Action): nat
  {
    match a
    case LandOther => 0
    case Idle => 0
    case BatchStarts(b, _) => b
    case BatchDone(b, _) => b
    case AppendsResolved(b) => b
    case Write(w) => w
    case Land(w) => w
    case AppendResolves(w) => w
    case Return(w) => w
  }

  /** Each action possible in its turn, and internal. */
  predicate InternalRun(s: State, actions: seq<Action>)
    decreases |actions|
  {
    actions == [] || (Internal(actions[0]) && Enabled(s, actions[0]) && InternalRun(Apply(s, actions[0]), actions[1..]))
  }

  /** Left to itself, the system stops: no more steps than `Work`, for any `n` above all ids in use. */
  lemma {:induction false} InternalRunsEnd(s: State, actions: seq<Action>, n: nat)
    requires InternalRun(s, actions) && (forall k :: k in s.calls || k in s.handlers ==> k < n)
    ensures |actions| <= Work(s, n)
    decreases |actions|
  {
    if actions != [] {
      var a, s' := actions[0], Apply(s, actions[0]);
      WorkShrinks(s, s', Actor(a), n);
      InternalRunsEnd(s', actions[1..], n);
    }
  }

  // ----- What is told to listeners -----

  /** Does this step finish a handler whose batch indexed document `x`? */
  predicate Indexes(s: State, a: Action, schema: string, x: nat)
  {
    && a.AppendsResolved? && Enabled(s, a)
    && schema in s.handlers[a.handler].docs && x in s.handlers[a.handler].docs[schema]
  }

  /** Was it step `k`, with no idle time since? */
  ghost predicate IndexedAt(schemas: set<string>, actions: seq<Action>, k: nat, schema: string, x: nat)
  {
    && k < |actions| && Indexes(Run(Init(schemas), actions[..k]), actions[k], schema, x)
    && forall j :: k < j < |actions| ==> actions[j] != Idle
  }

  /** Did some handler that indexed `x` finish, with no idle time since? */
  ghost predicate IndexedSince(schemas: set<string>, actions: seq<Action>, schema: string, x: nat)
  {
    exists k :: IndexedAt(schemas, actions, k, schema, x)
  }

  lemma {:induction false} RunLast(s: State, actions: seq<Action>, last: Action)
    ensures Run(s, actions + [last]) == Next(Run(s, actions), last)
    decreases |actions|
  {
    if actions == [] {
      assert actions + [last] == [last] && Run(Next(s, last), [last][1..]) == Next(s, last);
    } else {
      assert (actions + [last])[1..] == actions[1..] + [last];
      RunLast(Next(s, actions[0]), actions[1..], last);
    }
  }

  lemma IndexedAtStays(schemas: set<string>, before: seq<Action>, last: Action, k: nat, schema: string, x: nat)
    requires k < |before|
    ensures IndexedAt(schemas, before + [last], k, schema, x) <==>
      last != Idle && IndexedAt(schemas, before, k, schema, x)
  {
    var actions := before + [last];
    assert actions[..k] == before[..k] && actions[|before|] == last;
    assert forall j :: 0 <= j < |before| ==> actions[j] == before[j];
  }

  lemma IndexedAtLast(schemas: set<string>, before: seq<Action>, last: Action, schema: string, x: nat)
    ensures IndexedAt(schemas, before + [last], |before|, schema, x) <==>
      Indexes(Run(Init(schemas), before), last, schema, x)
  {
    assert (before + [last])[..|before|] == before;
  }

  lemma IndexedSinceLast(schemas: set<string>, before: seq<Action>, last: Action, schema: string, x: nat)
    ensures IndexedSince(schemas, before + [last], schema, x) <==>
      Indexes(Run(Init(schemas), before), last, schema, x) || (last != Idle && IndexedSince(schemas, before, schema, x))
  {
    IndexedAtLast(schemas, before, last, schema, x);
    forall k: nat | k < |before|
      ensures IndexedAt(schemas, before + [last], k, schema, x) <==>
        last != Idle && IndexedAt(schemas, before, k, schema, x)
    {
      IndexedAtStays(schemas, before, last, k, schema, x);
    }
  }

  /** So, over every run, an idle indexer makes known exactly the documents of the handlers that finished since
      it was idle before, of every schema of the namespace but the project settings. */
  lemma {:induction false} PendingExactly(schemas: set<string>, actions: seq<Action>, schema: string, x: nat)
    ensures var pending := Run(Init(schemas), actions).pendingEmits;
      && pending.Keys == schemas
      && (schema in schemas ==>
        (x in pending[schema] <==> schema != PROJECT_SETTINGS && IndexedSince(schemas, actions, schema, x)))
    decreases |actions|
  {
    if actions != [] {
      var before, last := actions[..|actions| - 1], actions[|actions| - 1];
      assert actions == before + [last];
      PendingExactly(schemas, before, schema, x);
      RunLast(Init(schemas), before, last);
      IndexedSinceLast(schemas, before, last, schema, x);
    }
  }

  /** Over every run: when the indexer goes idle, a listener of a schema is told of exactly the documents of it
      whose indexing handlers finished since it was idle before, unless they are project settings; no listener
      is told of none. */
  lemma ToldExactly(schemas: set<string>, actions: seq<Action>, eventNames: set<string>, schema: string, x: nat)
    ensures var told := Told(Run(Init(schemas), actions).pendingEmits, eventNames);
      && (schema in told && x in told[schema] <==>
          && schema in eventNames && schema in schemas && schema != "projectSettings"
          && IndexedSince(schemas, actions, schema, x))
      && (schema in told ==> told[schema] != {})
  {
    PendingExactly(schemas, actions, schema, x);
  }

  /** Once told, a document is not told again unless it is indexed again. */
  lemma ToldOnce(schemas: set<string>, actions: seq<Action>, eventNames: set<string>)
    ensures Told(Run(Init(schemas), actions + [Idle]).pendingEmits, eventNames) == map[]
  {
    RunLast(Init(schemas), actions, Idle);
    var pending := Run(Init(schemas), actions + [Idle]).pendingEmits;
    assert forall schema :: schema in pending ==> pending[schema] == {};
  }

  /** Who is awake when a handler finishes: those who were, and those it finds; and so the write of every
      block of its entries. */
  lemma WokenUp(s: State, b: nat)
    requires Inv(s) && Enabled(s, AppendsResolved(b))
    ensures var s' := Apply(s, AppendsResolved(b));
      && Inv(s')
      && (forall w :: Awake(s', w) <==> Awake(s, w) || w in Found(s.pendingIndex, s.handlers[b].entries))
      && (forall i :: i in Own(s.handlers[b].entries) ==>
            i < |s.core| && (s.core[i].Doc? ==> Awake(s', s.core[i].write)))
  {
    FindsAll(s, b);
    StepKeepsInv(s, AppendsResolved(b));
    var s' := Apply(s, AppendsResolved(b));
    forall i | i in Own(s.handlers[b].entries) ensures Settled(s', i) {
      assert HandlerOk(s', s'.handlers[b]);
    }
  }

  // ----- The class -----

  /** A `DataStore`. A call of `write` and its two promises go by the same number; a version id is the
      position in the writer core. */
  class DataStore {
    const schemas: set<string>
    var pendingAppends: set<nat>
    var pendingIndex: map<nat, nat>
    /** The promises of `pendingIndex`, past and present, that were resolved. */
    var resolved: set<nat>
    var pendingEmits: Docs
    ghost var state: State

    ghost predicate Valid()
      reads this
    {
      && Inv(state) && pendingEmits == state.pendingEmits && pendingEmits.Keys == schemas &&
        pendingAppends == state.pendingAppends && pendingIndex == state.pendingIndex
      && (forall w :: w in resolved <==> Awake(state, w))
    }

    constructor (schemas: set<string>)
      ensures Valid() && state == Init(schemas) && this.schemas == schemas
    {
      this.schemas := schemas;
      pendingAppends, pendingIndex, resolved, pendingEmits, state := {}, map[], {}, NoDocs(schemas), Init(schemas);
    }

    /** `write`, up to `await append`. A document of another namespace's schema is refused. */
    method BeginWrite(w: nat, schemaName: string) returns (ok: bool)
      requires Valid() && w !in state.calls
      modifies this`pendingAppends, this`state
      ensures Valid() && ok == (schemaName in schemas)
      ensures state == if ok then Apply(old(state), Write(w)) else old(state)
    {
      if schemaName !in schemas { return false; }
      StepKeepsInv(state, Write(w));
      pendingAppends := pendingAppends + {w};
      state := Apply(state, Write(w));
      ok := true;
    }

    /** What happens outside: the core grows, or the indexer hands over a batch. */
    ghost method Outside(a: Action)
      requires Valid() && Enabled(state, a) && (a.Land? || a.LandOther? || a.BatchStarts?)
      modifies this`state
      ensures Valid() && state == Apply(old(state), a)
    {
      StepKeepsInv(state, a);
      state := Apply(state, a);
    }

    /** `write`, from the append's resolution up to `await deferred.promise`: the append's promise is
        resolved and the promise for the index registered in one step. */
    method AppendResolved(w: nat, length: nat)
      requires Valid() && Enabled(state, AppendResolves(w)) && length == state.calls[w].index + 1
      modifies this`pendingAppends, this`pendingIndex, this`state
      ensures Valid() && state == Apply(old(state), AppendResolves(w))
    {
      StepKeepsInv(state, AppendResolves(w));
      pendingAppends := pendingAppends - {w};
      var index := length - 1;
      pendingIndex := pendingIndex[index := w];
      state := Apply(state, AppendResolves(w));
    }

    /** `write`, from the promise's resolution on: what it returns was decoded from the write's own block,
        which the indexer has handled. */
    method EndWrite(w: nat, index: nat)
      requires Valid() && w in resolved && Enabled(state, Return(w)) && index == state.calls[w].index
      modifies this`pendingIndex, this`state
      ensures Valid() && state == Apply(old(state), Return(w))
      ensures index in state.indexed && index < |state.core| && state.core[index] == Doc(w)
    {
      StepKeepsInv(state, Return(w));
      pendingIndex := pendingIndex - {index};
      state := Apply(state, Return(w));
    }

    /** `handleEntries`, when `batch` is done: the appends to wait for. */
    method AfterBatch(b: nat, indexed: Docs) returns (awaited: set<nat>)
      requires Valid() && Enabled(state, BatchDone(b, indexed))
      modifies this`state
      ensures Valid() && state == Apply(old(state), BatchDone(b, indexed))
      ensures state.handlers[b] == Settling(old(state.handlers[b].entries), awaited, indexed)
    {
      StepKeepsInv(state, BatchDone(b, indexed));
      awaited := pendingAppends;
      state := Apply(state, BatchDone(b, indexed));
    }

    /** The loop over the entries. */
    method ResolveFound(entries: seq<Entry>)
      modifies this`resolved
      ensures resolved == old(resolved) + Found(pendingIndex, entries)
    {
      for k := 0 to |entries|
        invariant resolved == old(resolved) + Found(pendingIndex, entries[..k])
      {
        var entry := entries[k];
        FoundNext(pendingIndex, entries, k);
        if !entry.own { continue; }
        if entry.index !in pendingIndex { continue; }
        resolved := resolved + {pendingIndex[entry.index]};
      }
      assert entries[..|entries|] == entries;
    }

    /** The loop over the schemas: note the documents for when the indexer is idle. */
    method NoteDocs(indexed: Docs)
      requires pendingEmits.Keys == schemas
      modifies this`pendingEmits
      ensures pendingEmits == AddDocs(old(pendingEmits), indexed)
    {
      var rest := schemas;
      while rest != {}
        invariant rest <= schemas && pendingEmits.Keys == schemas
        invariant forall s :: s in schemas ==>
          pendingEmits[s] == (if s in rest then old(pendingEmits) else AddDocs(old(pendingEmits), indexed))[s]
        decreases rest
      {
        var schemaName :| schemaName in rest;
        rest := rest - {schemaName};
        if schemaName == PROJECT_SETTINGS { continue; }
        if schemaName !in indexed { continue; }
        pendingEmits := pendingEmits[schemaName := pendingEmits[schemaName] + indexed[schemaName]];
      }
    }

    /** `handleIndexerIdle`: tell whoever listens, and start anew. */
    method HandleIndexerIdle(eventNames: set<string>) returns (told: Docs)
      requires Valid()
      modifies this`pendingEmits, this`state
      ensures Valid() && told == Told(old(state.pendingEmits), eventNames) && state == Apply(old(state), Idle)
      ensures forall schema :: schema in told <==>
        schema in eventNames && schema in schemas && old(pendingEmits)[schema] != {}
      ensures forall schema :: schema in told ==> told[schema] == old(pendingEmits)[schema]
    {
      StepKeepsInv(state, Idle);
      told := map[];
      var rest := eventNames;
      while rest != {}
        invariant rest <= eventNames && told == Told(pendingEmits, eventNames - rest)
        decreases rest
      {
        var eventName :| eventName in rest;
        assert eventNames - (rest - {eventName}) == eventNames - rest + {eventName};
        rest := rest - {eventName};
        if eventName !in pendingEmits { continue; }
        var docIds := pendingEmits[eventName];
        if docIds == {} { continue; }
        told := told[eventName := docIds];
      }
      assert eventNames - {} == eventNames;
      pendingEmits := NoDocs(schemas);
      state := Apply(state, Idle);
    }

    /** `handleEntries`, when those appends are resolved: resolve the promise of every entry that has one, and
        note the documents that were indexed. */
    method AfterAppends(b: nat, entries: seq<Entry>, indexed: Docs)
      requires Valid() && Enabled(state, AppendsResolved(b))
      requires entries == state.handlers[b].entries && indexed == state.handlers[b].docs
      modifies this
      ensures Valid() && state == Apply(old(state), AppendsResolved(b))
      ensures forall i :: i in Own(entries) && state.core[i].Doc? ==> state.core[i].write in resolved
    {
      ResolveFound(entries);
      NoteDocs(indexed);
      WokenUp(state, b);
      state := Apply(state, AppendsResolved(b));
    }
  }

  lemma FoundNext(pendingIndex: map<nat, nat>, entries: seq<Entry>, k: nat)
    requires k < |entries|
    ensures var e := entries[k];
      Found(pendingIndex, entries[..k + 1])
      == Found(pendingIndex, entries[..k]) + if e.own && e.index in pendingIndex then {pendingIndex[e.index]} else {}
  {
    assert entries[..k + 1] == entries[..k] + [entries[k]];
    assert forall e :: e in entries[..k + 1] <==> e in entries[..k] || e == entries[k];
  }
}
