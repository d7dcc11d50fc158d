/** The Protocol Buffers wire format as the generated code uses it: the reader's primitives, the decode
    loop common to all messages, and what holds of it whatever the message. A message is given by its
    field handler, the `switch` of its decode function. */
module ProtoWire {
  import opened Words
  import opened Sequences
  import Varint

  /** Varints on the wire take at most ten bytes. */
  const SHORT_BYTES: nat := 5
  const VARINT_BYTES: nat := 10

  const TWO_32: nat := 0x1_0000_0000
  const TWO_64: nat := 0x1_0000_0000_0000_0000

  /** A value read from the front of some bytes, and how many bytes it took. */
  datatype Got<+T> = Fail | Got(value: T, length: nat)

  /** How many bytes were skipped. */
  datatype Pass = NoPass | Pass(length: nat)

  // ----- Reader primitives, on the bytes from the reader's position on -----

  /** `uint32` looks at five bytes; of a longer number it drops what they do not hold, and goes on ten bytes
      from where it started. */
  function Uint32(s: seq<byte>): (r: Got<nat>)
    ensures r.Got? ==> 0 < r.length <= |s| && r.value < TWO_32
  {
    match Varint.Decode(s, SHORT_BYTES)
    case Read(v, n) => Got(v % TWO_32, n)
    case NoVarint => if |s| < VARINT_BYTES then Fail else Got(Varint.Groups(s, SHORT_BYTES) % TWO_32, VARINT_BYTES)
  }

  function Uint64(s: seq<byte>): (r: Got<nat>)
    ensures r.Got? ==> 0 < r.length <= |s| && r.value < TWO_64
  {
    match Varint.Decode(s, VARINT_BYTES)
    case NoVarint => Fail
    case Read(v, n) => Got(v % TWO_64, n)
  }

  function Int32(s: seq<byte>): (r: Got<int>)
    ensures r.Got? ==> 0 < r.length <= |s|
  {
    match Uint32(s)
    case Fail => Fail
    case Got(v, n) => Got(if v < TWO_32 / 2 then v else v - TWO_32, n)
  }

  function Bool(s: seq<byte>): (r: Got<bool>)
    ensures r.Got? ==> 0 < r.length <= |s|
  {
    match Uint32(s)
    case Fail => Fail
    case Got(v, n) => Got(v != 0, n)
  }

  /** A length and then that many bytes. */
  function Blob(s: seq<byte>): (r: Got<seq<byte>>)
    ensures r.Got? ==> 0 < r.length <= |s|
  {
    match Uint32(s)
    case Fail => Fail
    case Got(len, n) => if n + len > |s| then Fail else Got(s[n..n + len], n + len)
  }

  /** Skipping a varint takes any number of bytes. */
  function SkipVarint(s: seq<byte>): (r: Pass)
    ensures r.Pass? ==> 0 < r.length <= |s|
  {
    if s == [] then NoPass
    else if s[0] < 128 then Pass(1)
    else match SkipVarint(s[1..]) case NoPass => NoPass case Pass(n) => Pass(n + 1)
  }

  function SkipBytes(s: seq<byte>, n: nat): (r: Pass)
    ensures r.Pass? ==> r.length <= |s|
  {
    if n > |s| then NoPass else Pass(n)
  }

  /** `skipType`. */
  function Skip(s: seq<byte>, wireType: nat): (r: Pass)
    ensures r.Pass? ==> r.length <= |s|
    decreases |s|, 3
  {
    if wireType == 0 then SkipVarint(s)
    else if wireType == 1 then SkipBytes(s, 8)
    else if wireType == 2 then match Blob(s) { case Fail => NoPass case Got(_, n) => Pass(n) }
    else if wireType == 3 then SkipGroup(s)
    else if wireType == 5 then SkipBytes(s, 4)
    else NoPass
  }

  /** The fields of a group, up to an end-group tag. */
  function SkipGroup(s: seq<byte>): (r: Pass)
    ensures r.Pass? ==> r.length <= |s|
    decreases |s|, 2
  {
    match Uint32(s)
    case Fail => NoPass
    case Got(tag, k) => SkipGroupFrom(s, tag, k)
  }

  /** The same, once the tag of the first field is read. */
  function SkipGroupFrom(s: seq<byte>, tag: nat, k: nat): (r: Pass)
    requires 0 < k <= |s|
    ensures r.Pass? ==> r.length <= |s|
    decreases |s|, 0
  {
    if tag % 8 == 4 then Pass(k) else
      match Skip(s[k..], tag % 8)
      case NoPass => NoPass
      case Pass(j) => match SkipGroup(s[k + j..]) case NoPass => NoPass case Pass(n) => Pass(k + j + n)
  }

  // ----- The decode loop -----

  /** What a message's `switch` makes of one tag: not its field, a failed read, or the message with the
      field set and the bytes the field took. */
  datatype Step<+M> = Unhandled | Broken | Taken(msg: M, length: nat)

  type Handler<!M> = (M, nat, seq<byte>) -> Step<M>

  /** Handlers read no more than there is, and what they read does not depend on what follows. */
  ghost predicate Sound<M(!new)>(h: Handler<M>)
  {
    && (forall m, tag, s {:trigger h(m, tag, s)} :: h(m, tag, s).Taken? ==> h(m, tag, s).length <= |s|)
    && (forall m, tag, s, t {:trigger h(m, tag, s + t)} :: !h(m, tag, s).Broken? ==> h(m, tag, s + t) == h(m, tag, s))
  }

  /** One turn of the decode loop: a failed read, an early stop, or one field more. */
  datatype Turn<+M> = Failed | Stop(length: nat) | Field(msg: M, length: nat)

  /** One field: the tag, and then the handler's reading of it or `skipType`. An end-group tag or tag 0
      stops the loop. */
  function TakeField<M(!new)>(h: Handler<M>, s: seq<byte>, m: M): (r: Turn<M>)
    requires Sound(h)
    ensures !r.Failed? ==> 0 < r.length <= |s|
  {
    match Uint32(s)
    case Fail => Failed
    case Got(tag, k) =>
      match h(m, tag, s[k..])
      case Broken => Failed
      case Taken(m', j) => Field(m', k + j)
      case Unhandled =>
        if tag % 8 == 4 || tag == 0 then Stop(k) else
        match Skip(s[k..], tag % 8)
        case NoPass => Failed
        case Pass(j) => Field(m, k + j)
  }

  /** What decoding leaves: an error, or the message and the bytes not read. */
  datatype Decoded<+M> = Invalid | Done(msg: M, rest: seq<byte>)

  /** The loop `while (reader.pos < end)`: `stop` bytes of the buffer lie behind `end`. A nested message
      may claim more bytes than there are (`stop < 0`), and may be overrun. */
  function Loop<M(!new)>(h: Handler<M>, s: seq<byte>, stop: int, m: M): (r: Decoded<M>)
    requires Sound(h)
    ensures r.Done? ==> |r.rest| <= |s|
    decreases |s|
  {
    if |s| <= stop then Done(m, s) else
      match TakeField(h, s, m)
      case Failed => Invalid
      case Stop(k) => Done(m, s[k..])
      case Field(m', k) => Loop(h, s[k..], stop, m')
  }

  /** Decoding a whole buffer. */
  function Decode<M(!new)>(h: Handler<M>, s: seq<byte>, base: M): Decoded<M>
    requires Sound(h)
  {
    Loop(h, s, 0, base)
  }

  // ----- Whole fields -----

  datatype Ran<+M> = Stuck | Ran(msg: M)

  /** The effect of bytes that are a sequence of whole fields. */
  ghost function Run<M(!new)>(h: Handler<M>, s: seq<byte>, m: M): Ran<M>
    requires Sound(h)
    decreases |s|
  {
    if s == [] then Ran(m) else
      match TakeField(h, s, m)
      case Failed => Stuck
      case Stop(_) => Stuck
      case Field(m', k) => Run(h, s[k..], m')
  }

  // ----- What is read does not depend on what follows -----

  lemma Uint32Extends(s: seq<byte>, t: seq<byte>)
    requires Uint32(s).Got?
    ensures Uint32(s + t) == Uint32(s)
  {
    if Varint.Decode(s, SHORT_BYTES).Read? {
      Varint.DecodeExtends(s, t, SHORT_BYTES);
    } else {
      Varint.LongExtends(s, t, SHORT_BYTES);
    }
  }

  lemma Uint64Extends(s: seq<byte>, t: seq<byte>)
    requires Uint64(s).Got?
    ensures Uint64(s + t) == Uint64(s)
  {
    Varint.DecodeExtends(s, t, VARINT_BYTES);
  }

  lemma BlobExtends(s: seq<byte>, t: seq<byte>)
    requires Blob(s).Got?
    ensures Blob(s + t) == Blob(s)
  {
    Uint32Extends(s, t);
    var n, len := Uint32(s).length, Uint32(s).value;
    assert (s + t)[n..n + len] == s[n..n + len];
  }

  lemma {:induction false} SkipVarintExtends(s: seq<byte>, t: seq<byte>)
    requires SkipVarint(s).Pass?
    ensures SkipVarint(s + t) == SkipVarint(s)
  {
    assert (s + t)[0] == s[0];
    if s[0] >= 128 {
      DropOfSum(s, t, 1);
      SkipVarintExtends(s[1..], t);
    }
  }

  lemma {:induction false} SkipExtends(s: seq<byte>, t: seq<byte>, wireType: nat)
    requires Skip(s, wireType).Pass?
    ensures Skip(s + t, wireType) == Skip(s, wireType)
    decreases |s|, 3
  {
    if wireType == 0 { SkipVarintExtends(s, t); }
    if wireType == 2 { BlobExtends(s, t); }
    if wireType == 3 { SkipGroupExtends(s, t); }
  }

  /** One field of a group and the rest of the group. */
  lemma GroupStep(s: seq<byte>, tag: nat, k: nat, j: nat)
    requires 0 < k <= |s| && tag % 8 != 4 && Skip(s[k..], tag % 8) == Pass(j)
    ensures SkipGroupFrom(s, tag, k) ==
      match SkipGroup(s[k + j..]) { case NoPass => NoPass case Pass(n) => Pass(k + j + n) }
  {
  }

  lemma {:induction false} SkipGroupExtends(s: seq<byte>, t: seq<byte>)
    requires SkipGroup(s).Pass?
    ensures SkipGroup(s + t) == SkipGroup(s)
    decreases |s|, 2
  {
    Uint32Extends(s, t);
    SkipGroupFromExtends(s, t, Uint32(s).value, Uint32(s).length);
  }

  lemma {:induction false} SkipGroupFromExtends(s: seq<byte>, t: seq<byte>, tag: nat, k: nat)
    requires 0 < k <= |s| && SkipGroupFrom(s, tag, k).Pass?
    ensures SkipGroupFrom(s + t, tag, k) == SkipGroupFrom(s, tag, k)
    decreases |s|, 0
  {
    if tag % 8 != 4 {
      DropOfSum(s, t, k);
      SkipExtends(s[k..], t, tag % 8);
      var j := Skip(s[k..], tag % 8).length;
      DropOfSum(s, t, k + j);
      GroupStep(s, tag, k, j);
      GroupStep(s + t, tag, k, j);
      SkipGroupExtends(s[k + j..], t);
    }
  }

  lemma FieldExtends<M(!new)>(h: Handler<M>, s: seq<byte>, t: seq<byte>, m: M)
    requires Sound(h) && !TakeField(h, s, m).Failed?
    ensures TakeField(h, s + t, m) == TakeField(h, s, m)
  {
    Uint32Extends(s, t);
    var tag, k := Uint32(s).value, Uint32(s).length;
    DropOfSum(s, t, k);
    assert h(m, tag, s[k..] + t) == h(m, tag, s[k..]);
    if h(m, tag, s[k..]).Unhandled? && !(tag % 8 == 4 || tag == 0) { SkipExtends(s[k..], t, tag % 8); }
  }

  lemma {:induction false} LoopExtends<M(!new)>(h: Handler<M>, s: seq<byte>, t: seq<byte>, stop: int, stop': int, m: M)
    requires Sound(h) && Loop(h, s, stop, m).Done? && stop' == stop + |t|
    ensures Loop(h, s + t, stop', m) == Done(Loop(h, s, stop, m).msg, Loop(h, s, stop, m).rest + t)
    decreases |s|
  {
    if |s| > stop {
      FieldExtends(h, s, t, m);
      match TakeField(h, s, m)
      case Stop(k) =>
        DropOfSum(s, t, k);
      case Field(m', k) =>
        DropOfSum(s, t, k);
        LoopExtends(h, s[k..], t, stop, stop', m');
    }
  }

  // ----- Whole fields in front -----

  /** The loop goes through whole fields that end before `end` and comes out behind them with their
      effect. */
  lemma {:induction false} LoopThen<M(!new)>(h: Handler<M>, a: seq<byte>, b: seq<byte>, stop: int, m: M)
    requires Sound(h) && Run(h, a, m).Ran? && stop <= |b|
    ensures Loop(h, a + b, stop, m) == Loop(h, b, stop, Run(h, a, m).msg)
    decreases |a|
  {
    if a == [] {
      assert a + b == b;
    } else {
      FieldExtends(h, a, b, m);
      var Field(m', k) := TakeField(h, a, m);
      DropOfSum(a, b, k);
      LoopThen(h, a[k..], b, stop, m');
    }
  }

  /** Decoding whole fields is running them. */
  lemma DecodeRun<M(!new)>(h: Handler<M>, s: seq<byte>, m: M)
    requires Sound(h) && Run(h, s, m).Ran?
    ensures Decode(h, s, m) == Done(Run(h, s, m).msg, [])
  {
    LoopThen(h, s, [], 0, m);
    assert s + [] == s;
  }

  /** A nested message of whole fields is read to its end and no further, whatever follows it. */
  lemma NestedRun<M(!new)>(h: Handler<M>, s: seq<byte>, t: seq<byte>, m: M)
    requires Sound(h) && Run(h, s, m).Ran?
    ensures Loop(h, s + t, |t|, m) == Done(Run(h, s, m).msg, t)
  {
    LoopThen(h, s, t, |t|, m);
  }

  lemma {:induction false} RunAppend<M(!new)>(h: Handler<M>, a: seq<byte>, b: seq<byte>, m: M)
    requires Sound(h) && Run(h, a, m).Ran?
    ensures Run(h, a + b, m) == Run(h, b, Run(h, a, m).msg)
    decreases |a|
  {
    if a == [] {
      assert a + b == b;
    } else {
      FieldExtends(h, a, b, m);
      var Field(m', k) := TakeField(h, a, m);
      DropOfSum(a, b, k);
      RunAppend(h, a[k..], b, m');
    }
  }

  // ----- Forward compatibility -----

  /** One whole field: a tag that is not an early stop, and a value of its wire type. */
  predicate WellFormed(u: seq<byte>)
  {
    match Uint32(u)
    case Fail => false
    case Got(tag, k) => tag % 8 != 4 && tag != 0 && Skip(u[k..], tag % 8) == Pass(|u| - k)
  }

  /** A well-formed field that the message does not know. */
  ghost predicate UnknownField<M(!new)>(h: Handler<M>, u: seq<byte>)
  {
    WellFormed(u) && forall m, s {:trigger h(m, Uint32(u).value, s)} :: h(m, Uint32(u).value, s) == Unhandled
  }

  lemma UnknownRun<M(!new)>(h: Handler<M>, u: seq<byte>, m: M)
    requires Sound(h) && UnknownField(h, u)
    ensures Run(h, u, m) == Ran(m)
  {
    assert TakeField(h, u, m) == Field(m, |u|);
    assert u[|u|..] == [];
  }

  /** An unknown field between whole fields and anything else leaves the decoded message as it was. */
  lemma UnknownIgnored<M(!new)>(h: Handler<M>, a: seq<byte>, u: seq<byte>, b: seq<byte>, base: M)
    requires Sound(h) && Run(h, a, base).Ran? && UnknownField(h, u)
    ensures Decode(h, a + u + b, base) == Decode(h, a + b, base)
  {
    var m := Run(h, a, base).msg;
    UnknownRun(h, u, m);
    RunAppend(h, a, u, base);
    LoopThen(h, a + u, b, 0, base);
    LoopThen(h, a, b, 0, base);
  }

  // ----- Writing -----

  /** `uint32` and `uint64` of the writer. */
  function PutUint(v: nat): seq<byte>
  {
    Varint.Encode(v)
  }

  /** `int32` of the writer: a negative number goes out as 64-bit two's complement, in ten bytes. */
  function PutInt32(v: int): seq<byte>
    requires -(TWO_32 / 2) <= v
  {
    Varint.Encode(if v < 0 then v + TWO_64 else v)
  }

  /** `bytes`, `string` and `ldelim` of the writer. */
  function PutBlob(b: seq<byte>): seq<byte>
  {
    Varint.Encode(|b|) + b
  }

  /** A field: its tag and then its value. */
  function PutField(tag: nat, value: seq<byte>): (s: seq<byte>)
  {
    Varint.Encode(tag) + value
  }

  lemma Bounds()
    ensures Varint.Bound(5) == 0x8_0000_0000 && Varint.Bound(9) == TWO_64 / 2 && TWO_64 < Varint.Bound(10)
  {
    assert Varint.Bound(4) == 0x1000_0000;
    assert Varint.Bound(6) == 128 * Varint.Bound(5);
    assert Varint.Bound(8) == 128 * (128 * Varint.Bound(6));
    assert Varint.Bound(10) == 128 * (128 * Varint.Bound(8));
  }

  lemma ReadUint(v: nat, rest: seq<byte>)
    requires v < TWO_64
    ensures v < TWO_32 ==> Uint32(PutUint(v) + rest) == Got(v, |PutUint(v)|)
    ensures Uint64(PutUint(v) + rest) == Got(v, |PutUint(v)|)
  {
    Bounds();
    Varint.EncodeFits(v, VARINT_BYTES);
    Varint.DecodeEncode(v, rest, VARINT_BYTES);
    if v < TWO_32 {
      Varint.EncodeFits(v, SHORT_BYTES);
      Varint.DecodeEncode(v, rest, SHORT_BYTES);
    }
  }

  /** A negative number goes out in ten bytes, of which `int32` looks at the first five. */
  lemma ReadInt32(v: int, rest: seq<byte>)
    requires -(TWO_32 / 2) <= v < TWO_32 / 2
    ensures Int32(PutInt32(v) + rest) == Got(v, |PutInt32(v)|)
  {
    if v >= 0 {
      ReadUint(v, rest);
    } else {
      var u := v + TWO_64;
      Bounds();
      Varint.EncodeFits(u, 9);
      Varint.EncodeFits(u, VARINT_BYTES);
      Varint.DecodeEncode(u, rest, SHORT_BYTES);
      Varint.LongGroups(u, rest, SHORT_BYTES);
      assert u % 0x8_0000_0000 % TWO_32 == v + TWO_32;
    }
  }

  /** A length that fits 32 bits; the reader takes no more. */
  predicate Short(b: seq<byte>) { |b| < TWO_32 }

  lemma ReadBlob(b: seq<byte>, rest: seq<byte>)
    requires Short(b)
    ensures Blob(PutBlob(b) + rest) == Got(b, |PutBlob(b)|)
  {
    assert PutBlob(b) + rest == PutUint(|b|) + (b + rest);
    ReadUint(|b|, b + rest);
    var n := |PutUint(|b|)|;
    assert (PutBlob(b) + rest)[n..n + |b|] == b;
  }

  /** A field the message knows, in front. */
  lemma KnownRun<M(!new)>(h: Handler<M>, tag: nat, value: seq<byte>, m: M, m': M)
    requires Sound(h) && tag < TWO_32 && h(m, tag, value) == Taken(m', |value|)
    ensures Run(h, PutField(tag, value), m) == Ran(m')
  {
    ReadUint(tag, value);
    var s, k := PutField(tag, value), |PutUint(tag)|;
    assert s[k..] == value && s[|s|..] == [];
    assert TakeField(h, s, m) == Field(m', |s|);
  }

  /** A field written only under a condition. */
  function Optional(present: bool, tag: nat, value: seq<byte>): seq<byte>
  {
    if present then PutField(tag, value) else []
  }

  lemma OptionalRun<M(!new)>(h: Handler<M>, present: bool, tag: nat, value: seq<byte>, m: M, m': M)
    requires Sound(h) && tag < TWO_32
    requires if present then h(m, tag, value) == Taken(m', |value|) else m' == m
    ensures Run(h, Optional(present, tag, value), m) == Ran(m')
  {
    if present { KnownRun(h, tag, value, m, m'); }
  }

  // ----- Nested messages -----

  /** A length and then a message, decoded with the same reader up to where the length says it ends. The
      bytes it took need not be as many as it claimed. */
  function Nested<M(!new)>(h: Handler<M>, s: seq<byte>, base: M): (r: Got<M>)
    requires Sound(h)
    ensures r.Got? ==> r.length <= |s|
  {
    match Uint32(s)
    case Fail => Fail
    case Got(len, k) =>
      var stop := |s| - k - len;
      NestedFrom(h, s, k, stop, base)
  }

  function NestedFrom<M(!new)>(h: Handler<M>, s: seq<byte>, k: nat, stop: int, base: M): (r: Got<M>)
    requires Sound(h) && k <= |s|
    ensures r.Got? ==> r.length <= |s|
  {
    match Loop(h, s[k..], stop, base)
    case Invalid => Fail
    case Done(m, rest) => Got(m, |s| - |rest|)
  }

  lemma NestedExtends<M(!new)>(h: Handler<M>, s: seq<byte>, t: seq<byte>, base: M)
    requires Sound(h) && Nested(h, s, base).Got?
    ensures Nested(h, s + t, base) == Nested(h, s, base)
  {
    Uint32Extends(s, t);
    var len, k := Uint32(s).value, Uint32(s).length;
    NestedFromExtends(h, s, t, k, |s| - k - len, |s + t| - k - len, base);
  }

  lemma NestedFromExtends<M(!new)>(h: Handler<M>, s: seq<byte>, t: seq<byte>, k: nat, stop: int, stop': int, base: M)
    requires Sound(h) && k <= |s| && NestedFrom(h, s, k, stop, base).Got? && stop' == stop + |t|
    ensures NestedFrom(h, s + t, k, stop', base) == NestedFrom(h, s, k, stop, base)
  {
    DropOfSum(s, t, k);
    LoopExtends(h, s[k..], t, stop, stop', base);
  }

  /** A nested message of whole fields is read back, and exactly its own bytes, whatever follows it. */
  lemma NestedReads<M(!new)>(h: Handler<M>, b: seq<byte>, rest: seq<byte>, base: M)
    requires Sound(h) && Run(h, b, base).Ran? && Short(b)
    ensures Nested(h, PutBlob(b) + rest, base) == Got(Run(h, b, base).msg, |PutBlob(b)|)
  {
    var s, k := PutBlob(b) + rest, |PutUint(|b|)|;
    LengthInFront(b, rest);
    NestedFromReads(h, b, s, k, rest, base);
    NestedIs(h, s, |b|, k, |rest|, base);
  }

  lemma LengthInFront(b: seq<byte>, rest: seq<byte>)
    requires Short(b)
    ensures var s, k := PutBlob(b) + rest, |PutUint(|b|)|; Uint32(s) == Got(|b|, k) && k <= |s| && s[k..] == b + rest
  {
    assert PutBlob(b) + rest == PutUint(|b|) + (b + rest);
    ReadUint(|b|, b + rest);
  }

  lemma NestedFromReads<M(!new)>(h: Handler<M>, b: seq<byte>, s: seq<byte>, k: nat, rest: seq<byte>, base: M)
    requires Sound(h) && Run(h, b, base).Ran? && k <= |s| && s[k..] == b + rest
    ensures NestedFrom(h, s, k, |rest|, base) == Got(Run(h, b, base).msg, |s| - |rest|)
  {
    NestedRun(h, b, rest, base);
  }

  lemma NestedIs<M(!new)>(h: Handler<M>, s: seq<byte>, len: nat, k: nat, stop: int, base: M)
    requires Sound(h) && Uint32(s) == Got(len, k) && stop == |s| - k - len
    ensures Nested(h, s, base) == NestedFrom(h, s, k, stop, base)
  {
  }

  lemma BlobAlone(b: seq<byte>)
    requires Short(b)
    ensures Blob(PutBlob(b)) == Got(b, |PutBlob(b)|)
  {
    ReadBlob(b, []);
    assert PutBlob(b) + [] == PutBlob(b);
  }

  // ----- A message that is one repeated bytes field -----

  function ListField(m: seq<seq<byte>>, tag: nat, s: seq<byte>): Step<seq<seq<byte>>>
  {
    if tag == 10 then
      match Blob(s) case Fail => Broken case Got(b, n) => Taken(m + [b], n)
    else Unhandled
  }

  /** The entries one after the other. */
  function EncodeList(list: seq<seq<byte>>): seq<byte>
  {
    if list == [] then [] else PutField(10, PutBlob(list[0])) + EncodeList(list[1..])
  }

  ghost predicate AllShort(list: seq<seq<byte>>) { forall k :: 0 <= k < |list| ==> Short(list[k]) }

  lemma ListSound()
    ensures Sound(ListField)
  {
    forall m, tag, s, t | !ListField(m, tag, s).Broken?
      ensures ListField(m, tag, s + t) == ListField(m, tag, s)
    {
      if tag == 10 { BlobExtends(s, t); }
    }
  }

  lemma ListStep(list: seq<seq<byte>>, m: seq<seq<byte>>)
    requires Sound(ListField) && list != [] && Short(list[0])
    ensures Run(ListField, EncodeList(list), m) == Run(ListField, EncodeList(list[1..]), m + [list[0]])
  {
    BlobAlone(list[0]);
    KnownRun(ListField, 10, PutBlob(list[0]), m, m + [list[0]]);
    RunAppend(ListField, PutField(10, PutBlob(list[0])), EncodeList(list[1..]), m);
  }

  /** Running an encoded list appends it. */
  lemma {:induction false} ListRun(list: seq<seq<byte>>, m: seq<seq<byte>>)
    requires Sound(ListField) && AllShort(list)
    ensures Run(ListField, EncodeList(list), m) == Ran(m + list)
    decreases |list|
  {
    if list == [] {
      assert m + [] == m;
    } else {
      ListStep(list, m);
      HeadAndTail(m, list);
      ListRun(list[1..], m + [list[0]]);
    }
  }
}
