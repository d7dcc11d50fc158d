/** What a decoder makes of fields it does not know, of numbers written in any way, and of messages that end
    early or late, told by what is on the wire (src/generated/extensions.js). */
module UnknownFields {
  import opened Words
  import opened Sequences
  import opened ProtoWire
  import opened Varint

  // ----- Numbers -----

  /** How the readers take bytes that begin with a number of `n` bytes. */
  lemma NumberRead(s: seq<byte>, n: nat)
    requires Ends(s, n)
    ensures Uint64(s) == if n <= 10 then Got(Groups(s, n) % 0x1_0000_0000_0000_0000, n) else Fail
    ensures n <= 5 ==> Uint32(s) == Got(Groups(s, n) % 0x1_0000_0000, n)
    ensures n > 5 ==> Uint32(s) == if |s| >= 10 then Got(Groups(s, 5) % 0x1_0000_0000, 10) else Fail
    ensures Skip(s, 0) == Pass(n)
  {
    DecodeExact(s, n, 10);
    DecodeExact(s, n, 5);
    NumberSkipped(s, n);
  }

  lemma {:induction false} NumberSkipped(s: seq<byte>, n: nat)
    requires Ends(s, n)
    ensures SkipVarint(s) == Pass(n)
  {
    if n > 1 {
      assert s[1..][n - 2] == s[n - 1];
      NumberSkipped(s[1..], n - 1);
    }
  }

  /** Any number but 0 is true. */
  lemma BoolRead(v: nat, rest: seq<byte>)
    requires v < 0x1_0000_0000
    ensures Bool(PutUint(v) + rest) == Got(v > 0, |PutUint(v)|)
  {
    ReadUint(v, rest);
  }

  /** Bytes that are cut short are not read. */
  lemma BlobCut(b: seq<byte>, k: nat)
    requires Short(b) && k < |PutBlob(b)|
    ensures Blob(PutBlob(b)[..k]) == Fail
  {
    var n, s := |PutUint(|b|)|, PutBlob(b)[..k];
    if k < n {
      EncodeExact(|b|);
      assert forall j :: 0 <= j < k ==> s[j] == PutUint(|b|)[j];
      DecodeNone(s, 5);
      EncodeFits(|b|, 5);
      Bounds();
    } else {
      assert s == PutUint(|b|) + b[..k - n];
      ReadUint(|b|, b[..k - n]);
    }
  }

  // ----- Fields as they are written -----

  /** A field that some other version of a message may have: its number and its value, a varint by its bytes. */
  datatype Unknown =
    | Number(no: nat, bytes: seq<byte>)
    | Eight(no: nat, bytes: seq<byte>)
    | Delimited(no: nat, bytes: seq<byte>)
    | Group(no: nat, fields: Fields)
    | Four(no: nat, bytes: seq<byte>)

  datatype Fields = NoFields | More(first: Unknown, rest: Fields)

  function WireType(u: Unknown): nat
  {
    match u
    case Number(_, _) => 0
    case Eight(_, _) => 1
    case Delimited(_, _) => 2
    case Group(_, _) => 3
    case Four(_, _) => 5
  }

  function Tag(u: Unknown): nat { 8 * u.no + WireType(u) }

  function Value(u: Unknown): seq<byte>
    decreases u, 0
  {
    match u
    case Number(_, bytes) => bytes
    case Eight(_, bytes) => bytes
    case Delimited(_, bytes) => PutBlob(bytes)
    case Group(no, fields) => PutFields(fields) + PutUint(8 * no + 4)
    case Four(_, bytes) => bytes
  }

  function PutUnknown(u: Unknown): seq<byte>
    decreases u, 1
  {
    PutUint(Tag(u)) + Value(u)
  }

  function PutFields(fields: Fields): seq<byte>
  {
    match fields case NoFields => [] case More(first, rest) => PutUnknown(first) + PutFields(rest)
  }

  /** Field numbers are from 1 on and leave room for the wire type; values are whole. */
  predicate Writable(u: Unknown)
  {
    && 0 < u.no < 0x2000_0000
    && match u
       case Number(_, bytes) => Ends(bytes, |bytes|)
       case Eight(_, bytes) => |bytes| == 8
       case Delimited(_, bytes) => Short(bytes)
       case Group(_, fields) => AllWritable(fields)
       case Four(_, bytes) => |bytes| == 4
  }

  predicate AllWritable(fields: Fields)
  {
    match fields case NoFields => true case More(first, rest) => Writable(first) && AllWritable(rest)
  }

  /** A value is skipped whole, and nothing else. */
  lemma {:induction false} ValueSkipped(u: Unknown, rest: seq<byte>)
    requires Writable(u)
    ensures Skip(Value(u) + rest, WireType(u)) == Pass(|Value(u)|)
    decreases u, 1
  {
    match u
    case Number(_, bytes) =>
      assert (bytes + rest)[|bytes| - 1] == bytes[|bytes| - 1];
      NumberSkipped(bytes + rest, |bytes|);
    case Eight(_, bytes) =>
    case Delimited(_, bytes) => ReadBlob(bytes, rest);
    case Group(no, fields) =>
      Associates(PutFields(fields), PutUint(8 * no + 4), rest);
      GroupSkipped(fields, no, rest);
    case Four(_, bytes) =>
  }

  /** The fields of a group up to its end. */
  lemma {:induction false} GroupSkipped(fields: Fields, no: nat, rest: seq<byte>)
    requires AllWritable(fields) && 0 < no < 0x2000_0000
    ensures SkipGroup(PutFields(fields) + (PutUint(8 * no + 4) + rest)) ==
      Pass(|PutFields(fields)| + |PutUint(8 * no + 4)|)
    decreases fields, 0
  {
    var end := PutUint(8 * no + 4) + rest;
    match fields
    case NoFields =>
      assert [] + end == end;
      GroupEnd(no, rest);
    case More(first, more) =>
      var tail := PutFields(more) + end;
      Associates(PutUnknown(first), PutFields(more), end);
      ValueSkipped(first, tail);
      GroupSkipped(more, no, rest);
      FieldInGroup(first, tail);
  }

  lemma GroupEnd(no: nat, rest: seq<byte>)
    requires 0 < no < 0x2000_0000
    ensures SkipGroup(PutUint(8 * no + 4) + rest) == Pass(|PutUint(8 * no + 4)|)
  {
    ReadUint(8 * no + 4, rest);
  }

  /** A field of a group in front of the others. */
  lemma FieldInGroup(u: Unknown, tail: seq<byte>)
    requires Writable(u) && Skip(Value(u) + tail, WireType(u)) == Pass(|Value(u)|) && SkipGroup(tail).Pass?
    ensures SkipGroup(PutUnknown(u) + tail) == Pass(|PutUnknown(u)| + SkipGroup(tail).length)
  {
    var s, k := PutUnknown(u) + tail, |PutUint(Tag(u))|;
    FieldParts(u, tail);
    TagOk(u);
    ReadUint(Tag(u), Value(u) + tail);
    GroupStep(s, Tag(u), k, |Value(u)|);
  }

  lemma TagOk(u: Unknown)
    requires Writable(u)
    ensures Tag(u) % 8 == WireType(u) && WireType(u) != 4 && 0 < Tag(u) < TWO_32
  {
  }

  /** Where the parts of a written field are. */
  lemma FieldParts(u: Unknown, after: seq<byte>)
    ensures var s, k, n := PutUnknown(u) + after, |PutUint(Tag(u))|, |Value(u)|;
      && s == PutUint(Tag(u)) + (Value(u) + after) && |s| == k + n + |after|
      && s[k..] == Value(u) + after && s[k + n..] == after
  {
    var s, k := PutUnknown(u) + after, |PutUint(Tag(u))|;
    assert s == PutUint(Tag(u)) + (Value(u) + after);
    DropPrefix(PutUint(Tag(u)), Value(u) + after);
    DropPrefix(PutUnknown(u), after);
  }

  /** Such a field is well formed. */
  lemma WrittenWell(u: Unknown)
    requires Writable(u)
    ensures WellFormed(PutUnknown(u)) && Uint32(PutUnknown(u)).value == Tag(u)
  {
    var s, k := PutUnknown(u), |PutUint(Tag(u))|;
    ValueSkipped(u, []);
    ReadUint(Tag(u), Value(u));
    TagOk(u);
    assert s[k..] == Value(u) && Value(u) + [] == Value(u);
  }

  /** For every message: a field it has no case for, between whole fields and anything else, changes nothing. */
  lemma WrittenIgnored<M(!new)>(h: Handler<M>, a: seq<byte>, u: Unknown, b: seq<byte>, base: M)
    requires Sound(h) && Run(h, a, base).Ran? && Writable(u)
    requires forall m, s {:trigger h(m, Tag(u), s)} :: h(m, Tag(u), s) == Unhandled
    ensures ProtoWire.Decode(h, a + PutUnknown(u) + b, base) == ProtoWire.Decode(h, a + b, base)
  {
    WrittenWell(u);
    UnknownIgnored(h, a, PutUnknown(u), b, base);
  }

  // ----- Messages that end early or late -----

  /** An end-group tag, or the tag 0, stops a decoder behind that tag. */
  lemma StopsEarly<M(!new)>(h: Handler<M>, a: seq<byte>, tag: nat, rest: seq<byte>, base: M)
    requires Sound(h) && Run(h, a, base).Ran? && tag < 0x1_0000_0000 && (tag == 0 || tag % 8 == 4)
    requires forall m, s {:trigger h(m, tag, s)} :: h(m, tag, s) == Unhandled
    ensures ProtoWire.Decode(h, a + (PutUint(tag) + rest), base) == Done(Run(h, a, base).msg, rest)
  {
    LoopThen(h, a, PutUint(tag) + rest, 0, base);
    ReadUint(tag, rest);
    DropPrefix(PutUint(tag), rest);
  }

  lemma NotSkipped(s: seq<byte>, wireType: nat)
    requires wireType >= 6
    ensures Skip(s, wireType) == NoPass
  {
  }

  lemma NotTaken<M(!new)>(h: Handler<M>, tag: nat, rest: seq<byte>, m: M)
    requires Sound(h) && 0 < tag < 0x1_0000_0000 && tag % 8 >= 6 && h(m, tag, rest) == Unhandled
    ensures TakeField(h, PutUint(tag) + rest, m) == Failed
  {
    ReadUint(tag, rest);
    DropPrefix(PutUint(tag), rest);
    NotSkipped(rest, tag % 8);
  }

  /** A wire type that there is not makes the decoder fail. */
  lemma NoWireType<M(!new)>(h: Handler<M>, a: seq<byte>, tag: nat, rest: seq<byte>, base: M)
    requires Sound(h) && Run(h, a, base).Ran? && tag < 0x1_0000_0000 && tag % 8 >= 6
    requires forall m, s {:trigger h(m, tag, s)} :: h(m, tag, s) == Unhandled
    ensures ProtoWire.Decode(h, a + (PutUint(tag) + rest), base) == Invalid
  {
    LoopThen(h, a, PutUint(tag) + rest, 0, base);
    NotTaken(h, tag, rest, Run(h, a, base).msg);
    LoopFails(h, PutUint(tag) + rest, Run(h, a, base).msg);
  }

  lemma LoopFails<M(!new)>(h: Handler<M>, s: seq<byte>, m: M)
    requires Sound(h) && s != [] && TakeField(h, s, m) == Failed
    ensures Loop(h, s, 0, m) == Invalid
  {
  }

  /** A nested message that claims more bytes than there are is not read. */
  lemma NestedCut<M(!new)>(h: Handler<M>, b: seq<byte>, len: nat, base: M)
    requires Sound(h) && Run(h, b, base).Ran? && |b| < len < 0x1_0000_0000
    ensures Nested(h, PutUint(len) + b, base) == Fail
  {
    var s, k := PutUint(len) + b, |PutUint(len)|;
    ReadUint(len, b);
    DropPrefix(PutUint(len), b);
    assert b + [] == b;
    RunPastEnd(h, b, |b| - len, base);
    NestedIs(h, s, len, k, |b| - len, base);
  }

  lemma {:induction false} RunPastEnd<M(!new)>(h: Handler<M>, b: seq<byte>, stop: int, m: M)
    requires Sound(h) && Run(h, b, m).Ran? && stop < 0
    ensures Loop(h, b, stop, m) == Invalid
    decreases |b|
  {
    if b != [] {
      var Field(m', k) := TakeField(h, b, m);
      RunPastEnd(h, b[k..], stop, m');
    }
  }

  /** One that claims fewer bytes than its last field has takes that field whole. */
  lemma NestedOverrun<M(!new)>(h: Handler<M>, a: seq<byte>, f: seq<byte>, len: nat, rest: seq<byte>, base: M, m: M)
    requires Sound(h) && Run(h, a, base).Ran? && TakeField(h, f, Run(h, a, base).msg) == Field(m, |f|)
    requires |a| < len <= |a| + |f| && len < 0x1_0000_0000
    ensures Nested(h, PutUint(len) + (a + (f + rest)), base) == Got(m, |PutUint(len)| + |a| + |f|)
  {
    var s, k := PutUint(len) + (a + (f + rest)), |PutUint(len)|;
    var stop := |s| - k - len;
    ReadUint(len, a + (f + rest));
    DropPrefix(PutUint(len), a + (f + rest));
    LoopThen(h, a, f + rest, stop, base);
    FieldExtends(h, f, rest, Run(h, a, base).msg);
    DropPrefix(f, rest);
    NestedIs(h, s, len, k, stop, base);
  }
}
