/** Telling a peer which blobs are wanted: the nested message (src/generated/extensions.js), its codec
    (`DownloadIntentCodec` in src/core-manager/index.js), and whether the filter that arrives selects what
    the filter that was sent selects. */
module DownloadIntents {
  import opened Words
  import opened Options
  import opened ProtoWire
  import opened BlobFilters

  /** An entry of the map field: a blob type and its variants. */
  datatype Entry = Entry(key: Text, value: Option<seq<Text>>)

  const BASE_ENTRY := Entry([], None)

  function EntryField(m: Entry, tag: nat, s: seq<byte>): Step<Entry>
  {
    if tag == 10 then
      match Blob(s) case Fail => Broken case Got(key, n) => Taken(m.(key := key), n)
    else if tag == 18 then
      ListSound();
      match Nested(ListField, s, []) case Fail => Broken case Got(variants, n) => Taken(m.(value := Some(variants)), n)
    else Unhandled
  }

  function EncodeEntry(key: Text, variants: seq<Text>): seq<byte>
  {
    Optional(key != [], 10, PutBlob(key)) + PutField(18, PutBlob(EncodeList(variants)))
  }

  lemma EntrySound()
    ensures Sound(EntryField)
  {
    forall m, tag, s, t | !EntryField(m, tag, s).Broken?
      ensures EntryField(m, tag, s + t) == EntryField(m, tag, s)
    {
      if tag == 10 { BlobExtends(s, t); }
      if tag == 18 {
        ListSound();
        NestedExtends(ListField, s, t, []);
      }
    }
  }

  datatype Intents = Intents(byType: map<Text, seq<Text>>, everything: bool)

  const BASE_INTENTS := Intents(map[], false)

  /** The name of every object's prototype. */
  const PROTO: Text := Ascii("__proto__")

  /** `object[key] = value` on a plain object: assigning to `__proto__` sets the prototype, not an own
      property. */
  function Assign<V>(props: map<Text, V>, key: Text, value: V): map<Text, V>
  {
    if key == PROTO then props else props[key := value]
  }

  function IntentsField(m: Intents, tag: nat, s: seq<byte>): Step<Intents>
  {
    if tag == 10 then
      EntrySound();
      match Nested(EntryField, s, BASE_ENTRY)
      case Fail => Broken
      case Got(e, n) => Taken(if e.value.Some? then m.(byType := Assign(m.byType, e.key, e.value.value)) else m, n)
    else if tag == 16 then
      match Bool(s) case Fail => Broken case Got(b, n) => Taken(m.(everything := b), n)
    else Unhandled
  }

  lemma IntentsSound()
    ensures Sound(IntentsField)
  {
    forall m, tag, s, t | !IntentsField(m, tag, s).Broken?
      ensures IntentsField(m, tag, s + t) == IntentsField(m, tag, s)
    {
      if tag == 10 {
        EntrySound();
        NestedExtends(EntryField, s, t, BASE_ENTRY);
      }
      if tag == 16 { Uint32Extends(s, t); }
    }
  }

  type Entries = seq<(Text, seq<Text>)>

  function EncodeEntries(entries: Entries): seq<byte>
  {
    if entries == [] then []
    else PutField(10, PutBlob(EncodeEntry(entries[0].0, entries[0].1))) + EncodeEntries(entries[1..])
  }

  function EncodeIntents(entries: Entries, everything: bool): seq<byte>
  {
    EncodeEntries(entries) + Optional(everything, 16, PutUint(1))
  }

  ghost predicate EntryShort(key: Text, variants: seq<Text>)
  {
    Short(key) && AllShort(variants) && Short(EncodeList(variants)) && Short(EncodeEntry(key, variants))
  }

  ghost predicate EntriesShort(entries: Entries)
  {
    forall k :: 0 <= k < |entries| ==> EntryShort(entries[k].0, entries[k].1)
  }

  function AssignAll(props: map<Text, seq<Text>>, entries: Entries): map<Text, seq<Text>>
    decreases |entries|
  {
    if entries == [] then props else AssignAll(Assign(props, entries[0].0, entries[0].1), entries[1..])
  }

  lemma VariantsRun(variants: seq<Text>, m: Entry)
    requires Sound(EntryField) && AllShort(variants) && Short(EncodeList(variants))
    ensures Run(EntryField, PutField(18, PutBlob(EncodeList(variants))), m) == Ran(m.(value := Some(variants)))
  {
    var b := EncodeList(variants);
    ListSound();
    ListRun(variants, []);
    assert [] + variants == variants;
    NestedReads(ListField, b, [], []);
    assert PutBlob(b) + [] == PutBlob(b);
    KnownRun(EntryField, 18, PutBlob(b), m, m.(value := Some(variants)));
  }

  lemma KeyRun(key: Text, m: Entry)
    requires Sound(EntryField) && Short(key)
    ensures Run(EntryField, Optional(key != [], 10, PutBlob(key)), m) == Ran(if key != [] then m.(key := key) else m)
  {
    BlobAlone(key);
    OptionalRun(EntryField, key != [], 10, PutBlob(key), m, if key != [] then m.(key := key) else m);
  }

  lemma EntryRun(key: Text, variants: seq<Text>)
    requires EntryShort(key, variants)
    ensures Sound(EntryField)
    ensures Run(EntryField, EncodeEntry(key, variants), BASE_ENTRY) == Ran(Entry(key, Some(variants)))
  {
    EntrySound();
    var f := Optional(key != [], 10, PutBlob(key));
    KeyRun(key, BASE_ENTRY);
    RunAppend(EntryField, f, PutField(18, PutBlob(EncodeList(variants))), BASE_ENTRY);
    VariantsRun(variants, Run(EntryField, f, BASE_ENTRY).msg);
  }

  lemma OneEntryRun(key: Text, variants: seq<Text>, m: Intents)
    requires Sound(IntentsField) && EntryShort(key, variants)
    ensures Run(IntentsField, PutField(10, PutBlob(EncodeEntry(key, variants))), m) ==
      Ran(m.(byType := Assign(m.byType, key, variants)))
  {
    var b := EncodeEntry(key, variants);
    EntryRun(key, variants);
    NestedReads(EntryField, b, [], BASE_ENTRY);
    assert PutBlob(b) + [] == PutBlob(b);
    KnownRun(IntentsField, 10, PutBlob(b), m, m.(byType := Assign(m.byType, key, variants)));
  }

  lemma {:induction false} EntriesRun(entries: Entries, m: Intents)
    requires Sound(IntentsField) && EntriesShort(entries)
    ensures Run(IntentsField, EncodeEntries(entries), m) == Ran(m.(byType := AssignAll(m.byType, entries)))
    decreases |entries|
  {
    if entries != [] {
      var m' := m.(byType := Assign(m.byType, entries[0].0, entries[0].1));
      EntriesStep(entries, m, m');
      EntriesRun(entries[1..], m');
    }
  }

  lemma EntriesStep(entries: Entries, m: Intents, m': Intents)
    requires Sound(IntentsField) && entries != [] && EntryShort(entries[0].0, entries[0].1)
    requires m' == m.(byType := Assign(m.byType, entries[0].0, entries[0].1))
    ensures Run(IntentsField, EncodeEntries(entries), m) == Run(IntentsField, EncodeEntries(entries[1..]), m')
  {
    OneEntryRun(entries[0].0, entries[0].1, m);
    RunAppend(IntentsField, PutField(10, PutBlob(EncodeEntry(entries[0].0, entries[0].1))), EncodeEntries(entries[1..]),
      m);
  }

  lemma EverythingRun(everything: bool, m: Intents)
    requires Sound(IntentsField)
    ensures Run(IntentsField, Optional(everything, 16, PutUint(1)), m) ==
      Ran(if everything then m.(everything := true) else m)
  {
    ReadUint(1, []);
    assert PutUint(1) + [] == PutUint(1);
    OptionalRun(IntentsField, everything, 16, PutUint(1), m, if everything then m.(everything := true) else m);
  }

  lemma IntentsRoundTrip(entries: Entries, everything: bool)
    requires EntriesShort(entries)
    ensures Sound(IntentsField)
    ensures Decode(IntentsField, EncodeIntents(entries, everything), BASE_INTENTS) ==
      Done(Intents(AssignAll(map[], entries), everything), [])
  {
    IntentsSound();
    var f1, f2 := EncodeEntries(entries), Optional(everything, 16, PutUint(1));
    EntriesRun(entries, BASE_INTENTS);
    RunAppend(IntentsField, f1, f2, BASE_INTENTS);
    EverythingRun(everything, BASE_INTENTS.(byType := AssignAll(map[], entries)));
    DecodeRun(IntentsField, f1 + f2, BASE_INTENTS);
  }

  // ----- The codec -----

  /** The own properties of a filter in the order the engine lists them; `map-obj` drops `__proto__`. */
  function FilterEntries(f: Filter, order: seq<Text>): Entries
    requires forall k :: k in order ==> k in f
  {
    if order == [] then []
    else (if order[0] == PROTO then [] else [(order[0], Variants(f, order[0]))]) + FilterEntries(f, order[1..])
  }

  /** `DownloadIntentCodec.encode`: no filter means everything. */
  function EncodeFilter(filter: Option<Filter>, order: seq<Text>): seq<byte>
    requires forall k :: k in order ==> filter.Some? && k in filter.value
  {
    match filter
    case None => EncodeIntents([], true)
    case Some(f) => EncodeIntents(FilterEntries(f, order), false)
  }

  datatype DecodedFilter = BadFilter | GoodFilter(filter: Option<Filter>)

  /** `DownloadIntentCodec.decode`. */
  function DecodeFilter(s: seq<byte>): DecodedFilter
  {
    IntentsSound();
    match Decode(IntentsField, s, BASE_INTENTS)
    case Invalid => BadFilter
    case Done(m, _) =>
      if m.everything then GoodFilter(None)
      else GoodFilter(Some(map k | k in m.byType && k != PROTO :: Some(m.byType[k])))
  }

  /** Every own property once. */
  ghost predicate Enumerates(order: seq<Text>, f: Filter)
  {
    && (forall k :: k in order <==> k in f)
    && (forall i, j :: 0 <= i < j < |order| ==> order[i] != order[j])
  }

  /** The filter as it arrives: without `__proto__`, and with every list of variants spelled out. */
  function Received(f: Filter): Filter
  {
    map k | k in f && k != PROTO :: Some(Variants(f, k))
  }

  lemma {:induction false} FilterAssigned(f: Filter, order: seq<Text>, props: map<Text, seq<Text>>)
    requires forall k :: k in order ==> k in f
    ensures var r := AssignAll(props, FilterEntries(f, order));
      && (forall k :: k in r <==> k in props || (k in order && k != PROTO))
      && (forall k :: k in r ==> r[k] == if k in order && k != PROTO then Variants(f, k) else props[k])
    decreases |order|
  {
    if order != [] {
      var rest := FilterEntries(f, order[1..]);
      if order[0] == PROTO {
        assert FilterEntries(f, order) == rest;
        FilterAssigned(f, order[1..], props);
      } else {
        assert FilterEntries(f, order) == [(order[0], Variants(f, order[0]))] + rest;
        assert FilterEntries(f, order)[1..] == rest;
        FilterAssigned(f, order[1..], Assign(props, order[0], Variants(f, order[0])));
      }
    }
  }

  /** What arrives when a filter is sent, whatever the order of its properties. */
  lemma FilterArrives(filter: Option<Filter>, order: seq<Text>)
    requires if filter.None? then order == []
      else Enumerates(order, filter.value) && EntriesShort(FilterEntries(filter.value, order))
    ensures DecodeFilter(EncodeFilter(filter, order)).GoodFilter?
    ensures var received := DecodeFilter(EncodeFilter(filter, order)).filter;
      if filter.None? then received.None? else
        && received.Some? && (forall k :: k in received.value <==> k in filter.value && k != Ascii("__proto__"))
        && (forall k :: k in received.value ==>
              received.value[k] == Some(if filter.value[k].Some? then filter.value[k].value else []))
  {
    ReceivedArrives(filter, order);
  }

  lemma ReceivedArrives(filter: Option<Filter>, order: seq<Text>)
    requires if filter.None? then order == []
      else Enumerates(order, filter.value) && EntriesShort(FilterEntries(filter.value, order))
    ensures DecodeFilter(EncodeFilter(filter, order)) ==
      GoodFilter(if filter.None? then None else Some(Received(filter.value)))
  {
    match filter
    case None =>
      IntentsRoundTrip([], true);
    case Some(f) =>
      var entries := FilterEntries(f, order);
      IntentsRoundTrip(entries, false);
      FilterAssigned(f, order, map[]);
      var r := AssignAll(map[], entries);
      assert (map k | k in r && k != PROTO :: Some(r[k])) == Received(f);
  }

  /** Whoever wants everything gets no filter, whatever entries the message has. */
  lemma EverythingWins(entries: Entries)
    requires EntriesShort(entries)
    ensures DecodeFilter(EncodeIntents(entries, true)) == GoodFilter(None)
  {
    IntentsRoundTrip(entries, true);
  }

  /** What one entry does to any message: it becomes the one for its key, unless that is `__proto__`. */
  lemma EntryArrives(key: Text, variants: seq<Text>, m: Intents)
    requires EntryShort(key, variants)
    ensures Sound(IntentsField)
    ensures Run(IntentsField, PutField(10, PutBlob(EncodeEntry(key, variants))), m) ==
      Ran(if key == Ascii("__proto__") then m else m.(byType := m.byType[key := variants]))
  {
    IntentsSound();
    OneEntryRun(key, variants, m);
  }

  /** An entry without a value is passed over. */
  lemma NoValueNoEntry(key: Text, m: Intents)
    requires Short(key) && Short(PutField(10, PutBlob(key)))
    ensures Sound(IntentsField)
    ensures Run(IntentsField, PutField(10, PutBlob(PutField(10, PutBlob(key)))), m) == Ran(m)
  {
    IntentsSound();
    EntrySound();
    var b := PutField(10, PutBlob(key));
    BlobAlone(key);
    KnownRun(EntryField, 10, PutBlob(key), BASE_ENTRY, BASE_ENTRY.(key := key));
    NestedReads(EntryField, b, [], BASE_ENTRY);
    assert PutBlob(b) + [] == PutBlob(b);
    KnownRun(IntentsField, 10, PutBlob(b), m, m);
  }

  /** Which paths a wish selects: without a filter, all. */
  predicate Selects(filter: Option<Filter>, path: Text)
  {
    filter.None? || Matches(filter.value, path)
  }

  /** Can any path of type `__proto__` be selected? */
  ghost predicate ProtoWanted(filter: Option<Filter>)
  {
    && filter.Some? && Ascii("__proto__") in filter.value
    && var variants := filter.value[Ascii("__proto__")];
    (variants == None || variants == Some([]) || exists v :: v in variants.value && SLASH !in v)
  }

  /** Sender and receiver mean the same by a filter, for every path, exactly when the filter asks for no
      blobs of a type called `__proto__`. */
  lemma SameMeaning(filter: Option<Filter>, order: seq<Text>)
    requires if filter.None? then order == []
      else Enumerates(order, filter.value) && EntriesShort(FilterEntries(filter.value, order))
    ensures DecodeFilter(EncodeFilter(filter, order)).GoodFilter?
    ensures var received := DecodeFilter(EncodeFilter(filter, order)).filter;
      (forall path :: Selects(received, path) == Selects(filter, path)) <==> !ProtoWanted(filter)
  {
    ReceivedArrives(filter, order);
    if filter.Some? {
      var f := filter.value;
      forall path
        ensures Matches(Received(f), path) ==> Matches(f, path)
        ensures Matches(f, path) && !ProtoWanted(filter) ==> Matches(Received(f), path)
      {
        SameOnPath(f, path);
      }
      if ProtoWanted(filter) {
        var path := ProtoPath(f);
        assert Selects(filter, path) && !Selects(Some(Received(f)), path);
      }
    }
  }

  lemma SameOnPath(f: Filter, path: Text)
    ensures Matches(Received(f), path) ==> Matches(f, path)
    ensures Matches(f, path) && !ProtoWanted(Some(f)) ==> Matches(Received(f), path)
  {
    if Matches(Received(f), path) || Matches(f, path) {
      MatchesOnlyBlobPaths(if Matches(f, path) then f else Received(f), path);
      var blobType, rest :| NoSlash(blobType) && blobType != [] && path == BlobPath(blobType, rest);
      MatchesVariants(f, blobType, rest);
      MatchesVariants(Received(f), blobType, rest);
    }
  }

  lemma ProtoPath(f: Filter) returns (path: Text)
    requires ProtoWanted(Some(f))
    ensures Matches(f, path) && !Matches(Received(f), path)
  {
    var variants := Variants(f, PROTO);
    var v: Text := [];
    if variants != [] { v :| v in variants && NoSlash(v); }
    path := BlobPath(PROTO, v + [SLASH] + []);
    MatchesVariants(f, PROTO, v + [SLASH] + []);
    MatchesVariants(Received(f), PROTO, v + [SLASH] + []);
  }
}
