/** The reader and the writer the generated code works with: a cursor over a buffer, and a growing output
    with a stack of saved outputs for nested messages. */
module ProtoBuffers {
  import opened Words
  import opened ProtoWire

  class Reader {
    const buf: seq<byte>
    var pos: nat

    ghost predicate Valid()
      reads this
    {
      pos <= |buf|
    }

    /** What is left to read. */
    function Rest(): seq<byte>
      requires Valid()
      reads this
    {
      buf[pos..]
    }

    constructor (buf: seq<byte>)
      ensures Valid() && Rest() == buf && this.buf == buf && pos == 0
    {
      this.buf := buf;
      pos := 0;
    }

    method Take<T>(r: Got<T>)
      requires Valid() && r.Got? && r.length <= |Rest()|
      modifies this
      ensures Valid() && Rest() == old(Rest())[r.length..]
    {
      pos := pos + r.length;
    }

    method ReadUint32() returns (r: Got<nat>)
      requires Valid()
      modifies this
      ensures Valid() && r == Uint32(old(Rest())) && Rest() == if r.Got? then old(Rest())[r.length..] else old(Rest())
    {
      r := Uint32(Rest());
      if r.Got? { Take(r); }
    }

    method ReadUint64() returns (r: Got<nat>)
      requires Valid()
      modifies this
      ensures Valid() && r == Uint64(old(Rest())) && Rest() == if r.Got? then old(Rest())[r.length..] else old(Rest())
    {
      r := Uint64(Rest());
      if r.Got? { Take(r); }
    }

    method ReadInt32() returns (r: Got<int>)
      requires Valid()
      modifies this
      ensures Valid() && r == Int32(old(Rest())) && Rest() == if r.Got? then old(Rest())[r.length..] else old(Rest())
    {
      r := Int32(Rest());
      if r.Got? { Take(r); }
    }

    method ReadBool() returns (r: Got<bool>)
      requires Valid()
      modifies this
      ensures Valid() && r == Bool(old(Rest())) && Rest() == if r.Got? then old(Rest())[r.length..] else old(Rest())
    {
      r := Bool(Rest());
      if r.Got? { Take(r); }
    }

    method ReadBytes() returns (r: Got<seq<byte>>)
      requires Valid()
      modifies this
      ensures Valid() && r == Blob(old(Rest())) && Rest() == if r.Got? then old(Rest())[r.length..] else old(Rest())
    {
      r := Blob(Rest());
      if r.Got? { Take(r); }
    }

    method SkipType(wireType: nat) returns (r: Pass)
      requires Valid()
      modifies this
      ensures Valid() && r == Skip(old(Rest()), wireType)
      ensures Rest() == if r.Pass? then old(Rest())[r.length..] else old(Rest())
    {
      r := Skip(Rest(), wireType);
      if r.Pass? { pos := pos + r.length; }
    }

    /** The end of every decode loop's body, for a tag that is not a field of the message: whether to go on,
        stop, or give up. */
    method SkipUnknown(tag: nat) returns (turn: Unknown)
      requires Valid()
      modifies this
      ensures Valid()
      ensures turn ==
        if tag % 8 == 4 || tag == 0 then Early else if Skip(old(Rest()), tag % 8).Pass? then Skipped else GiveUp
      ensures turn.Early? ==> Rest() == old(Rest())
      ensures turn.Skipped? ==> Rest() == old(Rest())[Skip(old(Rest()), tag % 8).length..]
    {
      if tag % 8 == 4 || tag == 0 { return Early; }
      var r := SkipType(tag % 8);
      turn := if r.Pass? then Skipped else GiveUp;
    }
  }

  datatype Unknown = Early | Skipped | GiveUp

  /** How far the decode loop has come: what is left, and the message so far. */
  ghost predicate Follows<M(!new)>(h: Handler<M>, start: seq<byte>, base: M, stop: int, s: seq<byte>, m: M)
    requires Sound(h)
  {
    Loop(h, start, stop, base) == Loop(h, s, stop, m)
  }

  /** The loop fails. */
  ghost predicate Fails<M(!new)>(h: Handler<M>, start: seq<byte>, base: M, stop: int)
    requires Sound(h)
  {
    Loop(h, start, stop, base) == Invalid
  }

  /** The loop ends with message `m` and `s` not read. */
  ghost predicate Ends<M(!new)>(h: Handler<M>, start: seq<byte>, base: M, stop: int, s: seq<byte>, m: M)
    requires Sound(h)
  {
    Loop(h, start, stop, base) == Done(m, s)
  }

  /** What a decode function's result says about the loop. */
  ghost predicate Outcome<M(!new)>(h: Handler<M>, start: seq<byte>, base: M, stop: int, ok: bool, m: M, s: seq<byte>)
    requires Sound(h)
  {
    if ok then Ends(h, start, base, stop, s, m) else Fails(h, start, base, stop)
  }

  lemma AtEnd<M(!new)>(h: Handler<M>, start: seq<byte>, base: M, stop: int, s: seq<byte>, m: M)
    requires Sound(h) && Follows(h, start, base, stop, s, m) && |s| <= stop
    ensures Ends(h, start, base, stop, s, m)
  {
  }

  lemma NoTag<M(!new)>(h: Handler<M>, start: seq<byte>, base: M, stop: int, s: seq<byte>, m: M)
    requires Sound(h) && Follows(h, start, base, stop, s, m) && |s| > stop && Uint32(s).Fail?
    ensures Fails(h, start, base, stop)
  {
  }

  /** A tag of the message's own. */
  lemma OwnField<M(!new)>(h: Handler<M>, start: seq<byte>, base: M, stop: int, s: seq<byte>, m: M, tag: nat, k: nat,
    t: seq<byte>)
    requires Sound(h) && Follows(h, start, base, stop, s, m) && |s| > stop && Uint32(s) == Got(tag, k) && t == s[k..]
    ensures h(m, tag, t).Broken? ==> Fails(h, start, base, stop)
    ensures h(m, tag, t).Taken? ==> Follows(h, start, base, stop, t[h(m, tag, t).length..], h(m, tag, t).msg)
  {
    if h(m, tag, t).Taken? {
      assert t[h(m, tag, t).length..] == s[k + h(m, tag, t).length..];
    }
  }

  /** A tag of some other message. */
  lemma OtherField<M(!new)>(h: Handler<M>, start: seq<byte>, base: M, stop: int, s: seq<byte>, m: M, tag: nat, k: nat,
    t: seq<byte>)
    requires Sound(h) && Follows(h, start, base, stop, s, m) && |s| > stop && Uint32(s) == Got(tag, k) && t == s[k..]
    requires h(m, tag, t).Unhandled?
    ensures tag % 8 == 4 || tag == 0 ==> Ends(h, start, base, stop, t, m)
    ensures !(tag % 8 == 4 || tag == 0) ==>
      if Skip(t, tag % 8).NoPass? then Fails(h, start, base, stop)
        else Follows(h, start, base, stop, t[Skip(t, tag % 8).length..], m)
  {
    if !(tag % 8 == 4 || tag == 0) && Skip(t, tag % 8).Pass? {
      assert t[Skip(t, tag % 8).length..] == s[k + Skip(t, tag % 8).length..];
    }
  }

  /** The outcome of a nested decoder, as the outcome of the nested field. */
  lemma NestedOutcome<M(!new)>(h: Handler<M>, s: seq<byte>, base: M, len: nat, k: nat, stop: int, ok: bool, m: M,
    rest: seq<byte>)
    requires Sound(h) && Uint32(s) == Got(len, k) && stop == |s| - k - len
    requires Outcome(h, s[k..], base, stop, ok, m, rest)
    ensures Nested(h, s, base) == if ok then Got(m, |s| - |rest|) else Fail
    ensures ok ==> |rest| <= |s| - k
  {
    NestedIs(h, s, len, k, stop, base);
  }

  /** The pieces of a message in one. */
  lemma Together(before: seq<byte>, so: seq<byte>, present: bool, tag: nat, value: seq<byte>)
    ensures before + (so + Optional(present, tag, value)) ==
      if present then before + so + PutUint(tag) + value else before + so
  {
  }

  class Writer {
    var buf: seq<byte>
    var saved: seq<seq<byte>>

    constructor ()
      ensures buf == [] && saved == []
    {
      buf, saved := [], [];
    }

    method WriteUint(v: nat)
      modifies this`buf
      ensures buf == old(buf) + PutUint(v)
    {
      buf := buf + PutUint(v);
    }

    method WriteInt32(v: int)
      requires -(TWO_32 / 2) <= v
      modifies this`buf
      ensures buf == old(buf) + PutInt32(v)
    {
      buf := buf + PutInt32(v);
    }

    method WriteBytes(b: seq<byte>)
      modifies this`buf
      ensures buf == old(buf) + PutBlob(b)
    {
      WriteUint(|b|);
      buf := buf + b;
    }

    /** `writer.uint32(tag).bytes(b)`, if `present`. */
    method WriteBytesField(present: bool, tag: nat, b: seq<byte>, ghost before: seq<byte>, ghost so: seq<byte>)
      requires buf == before + so
      modifies this`buf
      ensures buf == before + (so + Optional(present, tag, PutBlob(b)))
    {
      if present { WriteUint(tag); WriteBytes(b); }
      Together(before, so, present, tag, PutBlob(b));
    }

    /** `writer.uint32(tag).uint64(v)`, if `present`. */
    method WriteUintField(present: bool, tag: nat, v: nat, ghost before: seq<byte>, ghost so: seq<byte>)
      requires buf == before + so
      modifies this`buf
      ensures buf == before + (so + Optional(present, tag, PutUint(v)))
    {
      if present { WriteUint(tag); WriteUint(v); }
      Together(before, so, present, tag, PutUint(v));
    }

    /** `writer.uint32(tag).int32(v)`, if `present`. */
    method WriteInt32Field(present: bool, tag: nat, v: int, ghost before: seq<byte>, ghost so: seq<byte>)
      requires buf == before + so && -(TWO_32 / 2) <= v
      modifies this`buf
      ensures buf == before + (so + Optional(present, tag, PutInt32(v)))
    {
      if present { WriteUint(tag); WriteInt32(v); }
      Together(before, so, present, tag, PutInt32(v));
    }

    /** Start a nested message. */
    method Fork()
      modifies this
      ensures buf == [] && saved == old(saved) + [old(buf)]
    {
      saved := saved + [buf];
      buf := [];
    }

    /** End a nested message: its length and its bytes follow what was written before it. */
    method Ldelim()
      requires saved != []
      modifies this
      ensures saved == old(saved)[..|old(saved)| - 1] && buf == old(saved)[|old(saved)| - 1] + PutBlob(old(buf))
    {
      var inner := buf;
      buf := saved[|saved| - 1];
      saved := saved[..|saved| - 1];
      WriteUint(|inner|);
      buf := buf + inner;
    }
  }
}
