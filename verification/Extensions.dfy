/** The extension messages (src/generated/extensions.js): what each encodes to, the `switch` of each
    decoder, round trips, merging and forward compatibility. */
module Extensions {
  import opened Words
  import opened Sequences
  import opened ProtoWire
  import opened UnknownFields

  // ----- HaveExtension -----

  datatype Namespace = Auth | Config | Data | BlobIndex | Blobs | UnrecognizedNamespace

  function NamespaceToNumber(n: Namespace): int
  {
    match n
    case Auth => 0
    case Config => 1
    case Data => 2
    case BlobIndex => 3
    case Blobs => 4
    case UnrecognizedNamespace => -1
  }

  function NamespaceFromNumber(v: int): Namespace
  {
    if v == 0 then Auth else if v == 1 then Config else if v == 2 then Data else if v == 3 then BlobIndex
    else if v == 4 then Blobs else UnrecognizedNamespace
  }

  datatype Have = Have(discoveryKey: seq<byte>, start: nat, encodedBitfield: seq<byte>, namespace: Namespace)

  const BASE_HAVE := Have([], 0, [], Auth)

  /** `longToNumber` throws above the safe integers. */
  function HaveField(m: Have, tag: nat, s: seq<byte>): Step<Have>
  {
    if tag == 10 then
      match Blob(s) case Fail => Broken case Got(key, n) => Taken(m.(discoveryKey := key), n)
    else if tag == 16 then
      match Uint64(s)
      case Fail => Broken
      case Got(v, n) => if v > MAX_SAFE_INTEGER then Broken else Taken(m.(start := v), n)
    else if tag == 26 then
      match Blob(s) case Fail => Broken case Got(bits, n) => Taken(m.(encodedBitfield := bits), n)
    else if tag == 32 then
      match Int32(s) case Fail => Broken case Got(v, n) => Taken(m.(namespace := NamespaceFromNumber(v)), n)
    else Unhandled
  }

  function EncodeHave(m: Have): seq<byte>
  {
    Optional(m.discoveryKey != [], 10, PutBlob(m.discoveryKey)) +
    Optional(m.start != 0, 16, PutUint(m.start)) +
    Optional(m.encodedBitfield != [], 26, PutBlob(m.encodedBitfield)) +
    Optional(m.namespace != Auth, 32, PutInt32(NamespaceToNumber(m.namespace)))
  }

  lemma HaveSound()
    ensures Sound(HaveField)
  {
    forall m, tag, s, t | !HaveField(m, tag, s).Broken?
      ensures HaveField(m, tag, s + t) == HaveField(m, tag, s)
    {
      if tag == 10 || tag == 26 { BlobExtends(s, t); }
      if tag == 16 { Uint64Extends(s, t); }
      if tag == 32 { Uint32Extends(s, t); }
    }
  }

  /** The fields of `x` that are not at their default replace those of `m`. */
  function MergeHave(m: Have, x: Have): Have
  {
    Have(if x.discoveryKey != [] then x.discoveryKey else m.discoveryKey,
         if x.start != 0 then x.start else m.start,
         if x.encodedBitfield != [] then x.encodedBitfield else m.encodedBitfield,
         if x.namespace != Auth then x.namespace else m.namespace)
  }

  predicate HaveShort(m: Have) { Short(m.discoveryKey) && Short(m.encodedBitfield) && m.start <= MAX_SAFE_INTEGER }

  lemma KeyFieldRun(x: Have, m: Have)
    requires Sound(HaveField) && HaveShort(x)
    ensures Run(HaveField, Optional(x.discoveryKey != [], 10, PutBlob(x.discoveryKey)), m)
         == Ran(if x.discoveryKey != [] then m.(discoveryKey := x.discoveryKey) else m)
  {
    Whole(PutBlob(x.discoveryKey));
    ReadBlob(x.discoveryKey, []);
    OptionalRun(HaveField, x.discoveryKey != [], 10, PutBlob(x.discoveryKey), m,
      if x.discoveryKey != [] then m.(discoveryKey := x.discoveryKey) else m);
  }

  lemma StartFieldRun(x: Have, m: Have)
    requires Sound(HaveField) && HaveShort(x)
    ensures Run(HaveField, Optional(x.start != 0, 16, PutUint(x.start)), m) ==
      Ran(if x.start != 0 then m.(start := x.start) else m)
  {
    Whole(PutUint(x.start));
    ReadUint(x.start, []);
    OptionalRun(HaveField, x.start != 0, 16, PutUint(x.start), m, if x.start != 0 then m.(start := x.start) else m);
  }

  lemma BitfieldFieldRun(x: Have, m: Have)
    requires Sound(HaveField) && HaveShort(x)
    ensures Run(HaveField, Optional(x.encodedBitfield != [], 26, PutBlob(x.encodedBitfield)), m)
         == Ran(if x.encodedBitfield != [] then m.(encodedBitfield := x.encodedBitfield) else m)
  {
    Whole(PutBlob(x.encodedBitfield));
    ReadBlob(x.encodedBitfield, []);
    OptionalRun(HaveField, x.encodedBitfield != [], 26, PutBlob(x.encodedBitfield), m,
                if x.encodedBitfield != [] then m.(encodedBitfield := x.encodedBitfield) else m);
  }

  lemma NamespaceFieldRun(x: Have, m: Have)
    requires Sound(HaveField)
    ensures Run(HaveField, Optional(x.namespace != Auth, 32, PutInt32(NamespaceToNumber(x.namespace))), m)
         == Ran(if x.namespace != Auth then m.(namespace := x.namespace) else m)
  {
    var v := PutInt32(NamespaceToNumber(x.namespace));
    Whole(v);
    ReadInt32(NamespaceToNumber(x.namespace), []);
    OptionalRun(HaveField, x.namespace != Auth, 32, v, m,
      if x.namespace != Auth then m.(namespace := x.namespace) else m);
  }

  /** Running an encoded message merges it in. */
  lemma HaveRun(x: Have, m: Have)
    requires HaveShort(x)
    ensures Sound(HaveField) && Run(HaveField, EncodeHave(x), m) == Ran(MergeHave(m, x))
  {
    HaveSound();
    var f1 := Optional(x.discoveryKey != [], 10, PutBlob(x.discoveryKey));
    var f2 := Optional(x.start != 0, 16, PutUint(x.start));
    var f3 := Optional(x.encodedBitfield != [], 26, PutBlob(x.encodedBitfield));
    var f4 := Optional(x.namespace != Auth, 32, PutInt32(NamespaceToNumber(x.namespace)));
    KeyFieldRun(x, m);
    RunAppend(HaveField, f1, f2, m);
    var m1 := Run(HaveField, f1, m).msg;
    StartFieldRun(x, m1);
    RunAppend(HaveField, f1 + f2, f3, m);
    var m2 := Run(HaveField, f2, m1).msg;
    BitfieldFieldRun(x, m2);
    RunAppend(HaveField, f1 + f2 + f3, f4, m);
    NamespaceFieldRun(x, Run(HaveField, f3, m2).msg);
  }

  lemma Whole(s: seq<byte>)
    ensures s + [] == s
  {
  }

  /** Round trip, for exactly the starts a JavaScript number can count to: a larger one is refused. */
  lemma HaveRoundTrip(m: Have)
    requires Short(m.discoveryKey) && Short(m.encodedBitfield) && m.start < TWO_64
    ensures Sound(HaveField)
    ensures Decode(HaveField, EncodeHave(m), BASE_HAVE) ==
      if m.start <= MAX_SAFE_INTEGER then Done(m, []) else Invalid
  {
    HaveSound();
    if m.start <= MAX_SAFE_INTEGER {
      HaveRun(m, BASE_HAVE);
      DecodeRun(HaveField, EncodeHave(m), BASE_HAVE);
    } else {
      StartTooLarge(m);
    }
  }

  lemma StartTooLarge(m: Have)
    requires Sound(HaveField) && Short(m.discoveryKey) && MAX_SAFE_INTEGER < m.start < TWO_64
    ensures Decode(HaveField, EncodeHave(m), BASE_HAVE) == Invalid
  {
    var f1 := Optional(m.discoveryKey != [], 10, PutBlob(m.discoveryKey));
    var f2, f3 := PutField(16, PutUint(m.start)), Optional(m.encodedBitfield != [], 26, PutBlob(m.encodedBitfield));
    var f4 := Optional(m.namespace != Auth, 32, PutInt32(NamespaceToNumber(m.namespace)));
    var rest := f3 + f4;
    var tail := f2 + rest;
    KeyFieldRun(m.(start := 0, encodedBitfield := []), BASE_HAVE);
    LoopThen(HaveField, f1, tail, 0, BASE_HAVE);
    StartFieldFails(m.start, rest, Run(HaveField, f1, BASE_HAVE).msg);
    FourParts(f1, f2, f3, f4);
  }

  lemma StartFieldFails(start: nat, rest: seq<byte>, m: Have)
    requires Sound(HaveField) && MAX_SAFE_INTEGER < start < TWO_64
    ensures TakeField(HaveField, PutField(16, PutUint(start)) + rest, m) == Failed
  {
    var s, k := PutField(16, PutUint(start)) + rest, |PutUint(16)|;
    Associates(PutUint(16), PutUint(start), rest);
    DropPrefix(PutUint(16), PutUint(start) + rest);
    ReadUint(16, PutUint(start) + rest);
    ReadUint(start, rest);
  }

  /** Two encodings in a row decode to the field-wise merge: the later value that is not at its default
      wins. */
  lemma HaveConcatenation(x: Have, y: Have)
    requires HaveShort(x) && HaveShort(y)
    ensures Sound(HaveField) && Decode(HaveField, EncodeHave(x) + EncodeHave(y), BASE_HAVE) == Done(MergeHave(x, y), [])
  {
    HaveRun(x, BASE_HAVE);
    HaveRun(y, x);
    RunAppend(HaveField, EncodeHave(x), EncodeHave(y), BASE_HAVE);
    DecodeRun(HaveField, EncodeHave(x) + EncodeHave(y), BASE_HAVE);
  }

  /** A field of another number or wire type, as any writer puts it, at any boundary between fields changes
      nothing. */
  lemma HaveForward(a: seq<byte>, u: Unknown, b: seq<byte>)
    requires Sound(HaveField) && Run(HaveField, a, BASE_HAVE).Ran? && Writable(u) && Tag(u) !in {10, 16, 26, 32}
    ensures Decode(HaveField, a + PutUnknown(u) + b, BASE_HAVE) == Decode(HaveField, a + b, BASE_HAVE)
  {
    WrittenIgnored(HaveField, a, u, b, BASE_HAVE);
  }

  /** The same of any bytes that the reader skips as one field. */
  lemma HaveSkips(a: seq<byte>, u: seq<byte>, b: seq<byte>)
    requires Sound(HaveField) && Run(HaveField, a, BASE_HAVE).Ran? && WellFormed(u)
    requires Uint32(u).value !in {10, 16, 26, 32}
    ensures Decode(HaveField, a + u + b, BASE_HAVE) == Decode(HaveField, a + b, BASE_HAVE)
  {
    UnknownIgnored(HaveField, a, u, b, BASE_HAVE);
  }

  // ----- ProjectExtension: the list of auth core keys -----

  lemma ProjectForward(a: seq<byte>, u: Unknown, b: seq<byte>)
    requires Sound(ListField) && Run(ListField, a, []).Ran? && Writable(u) && Tag(u) != 10
    ensures Decode(ListField, a + PutUnknown(u) + b, []) == Decode(ListField, a + b, [])
  {
    WrittenIgnored(ListField, a, u, b, []);
  }

  lemma ProjectSkips(a: seq<byte>, u: seq<byte>, b: seq<byte>)
    requires Sound(ListField) && Run(ListField, a, []).Ran? && WellFormed(u) && Uint32(u).value != 10
    ensures Decode(ListField, a + u + b, []) == Decode(ListField, a + b, [])
  {
    UnknownIgnored(ListField, a, u, b, []);
  }

  /** Round trip, and two encodings in a row: the lists are appended. */
  lemma ProjectConcatenation(x: seq<seq<byte>>, y: seq<seq<byte>>)
    requires AllShort(x) && AllShort(y)
    ensures Sound(ListField) && Decode(ListField, EncodeList(x), []) == Done(x, [])
    ensures Decode(ListField, EncodeList(x) + EncodeList(y), []) == Done(x + y, [])
  {
    ListSound();
    ListRun(x, []);
    assert [] + x == x;
    DecodeRun(ListField, EncodeList(x), []);
    ListRun(y, x);
    RunAppend(ListField, EncodeList(x), EncodeList(y), []);
    DecodeRun(ListField, EncodeList(x) + EncodeList(y), []);
  }
}
