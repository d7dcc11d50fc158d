/** The run-length codec on buffers (src/core-manager/bitfield-rle.js): the encoder runs twice over its
    input, once to size and once to write, and the decoder twice over its input, once to check and
    measure and once to fill. Each method is tied to the meaning given in `BitfieldRle`. */
module BitfieldRleBuffers {
  import opened Words
  import Varint
  import opened BitfieldRle
  import opened Sequences

  /** `varint.encode`: writes the bytes of `v` at `offset` and returns how many. */
  method WriteVarint(v: nat, output: array<byte>, offset: nat) returns (n: nat)
    requires offset + |Varint.Encode(v)| <= output.Length
    modifies output
    ensures n == |Varint.Encode(v)|
    ensures output[..offset + n] == old(output[..offset]) + Varint.Encode(v)
    ensures output[..] == old(output[..offset]) + Varint.Encode(v) + old(output[offset + n..])
  {
    var num, k := v, offset;
    ghost var all := output[..offset] + Varint.Encode(v);
    while num >= 128
      invariant offset <= k && k + |Varint.Encode(num)| == |all|
      invariant output[..k] + Varint.Encode(num) == all
      invariant forall j :: k <= j < output.Length ==> output[j] == old(output[j])
    {
      Associates(output[..k], [128 + num % 128], Varint.Encode(num / 128));
      output[k] := 128 + num % 128;
      k, num := k + 1, num / 128;
    }
    output[k] := num;
    n := k + 1 - offset;
    assert output[..k + 1] == all && output[k + 1..] == old(output[k + 1..]);
    assert output[..] == output[..k + 1] + output[k + 1..];
  }

  /** `Buffer.copy` of `[from, from + n)` to position `at` of another buffer. */
  method CopyBytes(source: array<byte>, from: nat, n: nat, target: array<byte>, at: nat)
    requires source != target && from + n <= source.Length && at + n <= target.Length
    modifies target
    ensures target[..at + n] == old(target[..at]) + source[from..from + n]
    ensures target[..] == old(target[..at]) + source[from..from + n] + old(target[at + n..])
  {
    var k := 0;
    while k < n
      invariant 0 <= k <= n
      invariant target[..at] == old(target[..at]) && target[at..at + k] == source[from..from + k]
      invariant target[at + k..] == old(target[at + k..])
    {
      target[at + k] := source[from + k];
      k := k + 1;
    }
    assert target[..at + n] == target[..at] + target[at..at + n];
    assert target[..] == target[..at + n] + target[at + n..];
  }

  /** `Buffer.fill` of `[from, to)`. */
  method FillBytes(target: array<byte>, value: byte, from: nat, to: nat)
    requires from <= to <= target.Length
    modifies target
    ensures target[..to] == old(target[..from]) + Run(to - from, value)
    ensures target[..] == old(target[..from]) + Run(to - from, value) + old(target[to..])
  {
    var k := from;
    while k < to
      invariant from <= k <= to
      invariant target[..from] == old(target[..from]) && target[from..k] == Run(k - from, value)
      invariant target[k..] == old(target[k..])
    {
      target[k] := value;
      k := k + 1;
    }
    assert target[..to] == target[..from] + target[from..to];
    assert target[..] == target[..to] + target[to..];
  }

  /** `Buffer.swap32`. */
  method SwapInPlace(mem: array<byte>)
    requires mem.Length % 4 == 0
    modifies mem
    ensures mem[..] == Swap32(old(mem[..]))
  {
    ghost var swapped := Swap32(mem[..]);
    var k := 0;
    assert mem[0..] == mem[..];
    while k < mem.Length
      invariant k <= mem.Length && k % 4 == 0
      invariant mem[..k] + Swap32(mem[k..]) == swapped
    {
      SwapFour(mem, k);
      k := k + 4;
    }
    assert mem[..k] == mem[..];
  }

  lemma NextGroup(m: seq<byte>, k: nat)
    requires |m| % 4 == 0 && k % 4 == 0 && k + 4 <= |m|
    ensures m[..k] + Swap32(m[k..]) == m[..k] + [m[k + 3], m[k + 2], m[k + 1], m[k]] + Swap32(m[k + 4..])
  {
    assert m[k..][4..] == m[k + 4..];
  }

  method SwapFour(mem: array<byte>, k: nat)
    requires mem.Length % 4 == 0 && k % 4 == 0 && k + 4 <= mem.Length
    modifies mem
    ensures mem[..k + 4] + Swap32(mem[k + 4..]) == old(mem[..k] + Swap32(mem[k..]))
  {
    ghost var m := mem[..];
    NextGroup(m, k);
    assert m[..k] == mem[..k] && m[k..] == mem[k..];
    mem[k], mem[k + 1], mem[k + 2], mem[k + 3] := mem[k + 3], mem[k + 2], mem[k + 1], mem[k];
    assert mem[..k + 4] == m[..k] + [m[k + 3], m[k + 2], m[k + 1], m[k]];
    assert mem[k + 4..] == m[k + 4..];
  }

  lemma HeadAndRun(emitted: seq<Chunk>, head: seq<Chunk>, run: Chunk)
    requires |head| <= 1 && run.Fill?
    ensures emitted + (head + [run]) == emitted + head + [run]
    ensures Serialize(emitted + head) == Serialize(emitted) + if head == [] then [] else Wire(head[0])
    ensures Serialize(emitted + head + [run]) == Serialize(emitted + head) + Varint.Encode(Code(run))
  {
    Associates(emitted, head, [run]);
    if head != [] { SerializeOne(head[0]); }
    SerializeOne(run);
    SerializeAppend(emitted, head);
    SerializeAppend(emitted + head, [run]);
  }

  /** The encoder's state. Without an output it only counts. */
  class State {
    const input: array<byte>
    var inputOffset: nat
    const output: array?<byte>
    var outputOffset: nat
    ghost var emitted: seq<Chunk>

    /** What was emitted has been counted, and written if there is an output. */
    ghost predicate Valid()
      reads this, output
    {
      && inputOffset <= input.Length
      && outputOffset == |Serialize(emitted)|
      && (output != null ==>
        output != input && outputOffset <= output.Length && output[..outputOffset] == Serialize(emitted))
    }

    constructor (input: array<byte>, output: array?<byte>)
      requires output != input
      ensures Valid() && this.input == input && this.output == output && inputOffset == 0 && emitted == []
    {
      this.input := input;
      this.output := output;
      inputOffset, outputOffset, emitted := 0, 0, [];
    }

    /** Is there room for `more`, if anything is written at all? */
    ghost predicate Room(more: seq<Chunk>)
      reads this
    {
      output != null ==> |Serialize(emitted + more)| <= output.Length
    }

    method EncodeHead(end: nat)
      requires Valid() && output != null && inputOffset <= end <= input.Length && Room([Raw(input[inputOffset..end])])
      modifies this`outputOffset, this`emitted, output
      ensures Valid() && emitted == old(emitted) + [Raw(input[inputOffset..end])]
    {
      ghost var raw := Raw(input[inputOffset..end]);
      Appended(raw);
      var headLength := end - inputOffset;
      var n := WriteVarint(2 * headLength, output, outputOffset);
      outputOffset := outputOffset + n;
      CopyBytes(input, inputOffset, headLength, output, outputOffset);
      Associates(Serialize(emitted), Varint.Encode(2 * headLength), raw.bytes);
      outputOffset := outputOffset + headLength;
      emitted := emitted + [raw];
    }

    lemma Appended(c: Chunk)
      ensures Serialize(emitted + [c]) == Serialize(emitted) + Wire(c)
    {
      SerializeAppend(emitted, [c]);
    }

    method EncodeFinal()
      requires Valid() && Room(Final(input[..], inputOffset))
      modifies this, output
      ensures Valid() && emitted == old(emitted) + Final(input[..], old(inputOffset))
    {
      var headLength := input.Length - inputOffset;
      if headLength == 0 { return; }
      ghost var raw := Raw(input[inputOffset..]);
      assert input[inputOffset..] == input[inputOffset..input.Length] == input[..][inputOffset..];
      Appended(raw);
      if output == null {
        outputOffset := outputOffset + headLength + |Varint.Encode(2 * headLength)|;
        emitted := emitted + [raw];
      } else {
        EncodeHead(input.Length);
      }
      inputOffset := input.Length;
    }

    /** The number of a run, into the output. */
    method EncodeRun(enc: nat, ghost run: Chunk)
      requires Valid() && output != null && run.Fill? && Code(run) == enc && Room([run])
      modifies this`outputOffset, this`emitted, output
      ensures Valid() && emitted == old(emitted) + [run]
    {
      Appended(run);
      var n := WriteVarint(enc, output, outputOffset);
      outputOffset := outputOffset + n;
      emitted := emitted + [run];
    }

    /** What `encodeUpdate` emits once it has decided to: `head`, if not empty, and `run`. */
    method Emit(i: nat, headLength: nat, enc: nat, encCost: nat, ghost head: seq<Chunk>, ghost run: Chunk)
      requires Valid() && inputOffset + headLength <= i <= input.Length && run.Fill? && Code(run) == enc
      requires head == if headLength != 0 then [Raw(input[inputOffset..inputOffset + headLength])] else []
      requires encCost == (if headLength != 0 then |Wire(head[0])| else 0) + |Varint.Encode(enc)|
      requires Room(head + [run])
      modifies this, output
      ensures Valid() && emitted == old(emitted) + (head + [run]) && inputOffset == i
    {
      HeadAndRun(emitted, head, run);
      if output == null {
        outputOffset := outputOffset + encCost;
        emitted := emitted + head + [run];
      } else {
        if headLength != 0 { EncodeHead(inputOffset + headLength); }
        assert headLength == 0 ==> emitted + head == emitted;
        EncodeRun(enc, run);
      }
      inputOffset := i;
    }

    method EncodeUpdate(i: nat, len: nat, bit: byte)
      requires Valid() && inputOffset + len <= i <= input.Length && Room(Update(input[..], i, len, bit, inputOffset).0)
      modifies this, output
      ensures Valid()
      ensures emitted == old(emitted) + Update(input[..], i, len, bit, old(inputOffset)).0
      ensures inputOffset == Update(input[..], i, len, bit, old(inputOffset)).1
    {
      var headLength := i - len - inputOffset;
      var headCost := if headLength != 0 then |Varint.Encode(2 * headLength)| + headLength else 0;
      var enc := 4 * len + (if bit != 0 then 2 else 0) + 1;
      var encCost := headCost + |Varint.Encode(enc)|;
      var baseCost := |Varint.Encode(2 * (i - inputOffset))| + i - inputOffset;
      if encCost >= baseCost { return; }
      ghost var s, head := input[..], if headLength != 0 then [Raw(input[inputOffset..i - len])] else [];
      assert input[inputOffset..i - len] == s[inputOffset..i - len];
      ghost var run := Fill(len, bit != 0);
      assert Update(s, i, len, bit, inputOffset) == (head + [run], i);
      Emit(i, headLength, enc, encCost, head, run);
    }

    /** Room for everything is room for the next part. */
    lemma RoomForPart(out: seq<Chunk>, rest: seq<Chunk>)
      requires Room(out + rest)
      ensures Room(out) && emitted + (out + rest) == emitted + out + rest
    {
      assert emitted + (out + rest) == emitted + out + rest;
      SerializeAppend(emitted + out, rest);
    }

    /** The end of a run, if there is one. */
    method EndOfRun(i: nat, len: nat, bits: byte)
      requires Valid() && inputOffset + len <= i <= input.Length && Room(EndRun(input[..], i, len, bits, inputOffset).0)
      modifies this, output
      ensures Valid()
      ensures emitted == old(emitted) + EndRun(input[..], i, len, bits, old(inputOffset)).0
      ensures inputOffset == EndRun(input[..], i, len, bits, old(inputOffset)).1
    {
      if len != 0 { EncodeUpdate(i, len, bits); }
    }

    /** One pass over the whole input: emits exactly the chunks of the greedy encoder. */
    method Rle()
      requires Valid() && inputOffset == 0 && emitted == [] && Room(BitfieldRle.Rle(input[..]))
      modifies this, output
      ensures Valid() && emitted == BitfieldRle.Rle(input[..])
    {
      ghost var s, all := input[..], BitfieldRle.Rle(input[..]);
      var len: nat, bits: byte := 0, 0;
      assert emitted + all == all;
      for i := 0 to input.Length
        invariant Valid() && inputOffset + len <= i && input[..] == s
        invariant emitted + Scan(s, i, len, bits, inputOffset) == all
        invariant Room(Scan(s, i, len, bits, inputOffset))
      {
        if input[i] == bits {
          len := len + 1;
          continue;
        }
        ghost var irregular := s[i] != 0 && s[i] != 255;
        ghost var out, off := EndRun(s, i, len, bits, inputOffset).0, EndRun(s, i, len, bits, inputOffset).1;
        RoomForPart(out, Scan(s, i + 1, if irregular then 0 else 1, if irregular then bits else s[i], off));
        EndOfRun(i, len, bits);
        if input[i] == 0 || input[i] == 255 {
          bits, len := input[i], 1;
        } else {
          len := 0;
        }
      }
      ghost var out, off := EndRun(s, |s|, len, bits, inputOffset).0, EndRun(s, |s|, len, bits, inputOffset).1;
      RoomForPart(out, Final(s, off));
      EndOfRun(input.Length, len, bits);
      EncodeFinal();
    }
  }

  /** `encodingLength`: the sizing pass. */
  method EncodingLength(input: array<byte>) returns (n: nat)
    ensures n == |Serialize(Rle(input[..]))|
  {
    var state := new State(input, null);
    state.Rle();
    n := state.outputOffset;
  }

  /** `encode` of a `Uint32Array` with memory `mem`. The sizing pass and the writing pass agree: the buffer
      is filled exactly, from the first byte to the last, and no write leaves it. On a big-endian host
      the array's own memory is left byte-swapped. */
  method EncodeBitfield(mem: array<byte>, littleEndian: bool) returns (buffer: array<byte>)
    requires mem.Length % 4 == 0 && Addressable(mem[..])
    modifies mem
    ensures fresh(buffer)
    ensures mem[..] == if littleEndian then old(mem[..]) else Swap32(old(mem[..]))
    ensures buffer[..] == Encoded(View(old(mem[..]), littleEndian))
  {
    if !littleEndian { SwapInPlace(mem); }
    var n := EncodingLength(mem);
    buffer := new byte[n];
    var state := new State(mem, buffer);
    assert state.emitted + Rle(mem[..]) == Rle(mem[..]);
    state.Rle();
    LittleEndianMemory(old(mem[..]), littleEndian);
    assert buffer[..n] == buffer[..];
  }

  lemma LittleEndianMemory(mem: seq<byte>, littleEndian: bool)
    requires |mem| % 4 == 0
    ensures (if littleEndian then mem else Swap32(mem)) == Memory(View(mem, littleEndian), true)
  {
    MemoryView(mem, littleEndian);
    if !littleEndian { SwapMemory(View(mem, false)); }
  }

  lemma TotalCons(c: Chunk, rest: Parsed)
    ensures Length(Cons(c, rest)) == if rest.Bad? then -1 else |Meaning(c)| + Length(rest)
  {
    if rest.Good? { ExpandCons(c, rest.chunks); }
  }

  /** The length of an expansion, or -1 for a string that is not well formed. */
  function Length(p: Parsed): (n: int)
    ensures n == -1 <==> p.Bad?
    ensures n >= -1
  {
    match p case Bad => -1 case Good(chunks) => |Expand(chunks)|
  }

  /** The length of what the string from `offset` on stands for; -1 if it is not well formed. */
  function LengthFrom(s: seq<byte>, offset: nat): (n: int)
    ensures n >= -1
  {
    if offset > |s| then -1 else Length(ParseFrom(s, offset))
  }

  function Sum(len: nat, rest: int): int { if rest == -1 then -1 else len + rest }

  lemma LengthNext(s: seq<byte>, offset: nat, f: First)
    requires offset < |s| && f == FirstChunk(s, offset)
    ensures LengthFrom(s, offset) == if f.Cut? then -1 else Sum(|Meaning(f.chunk)|, LengthFrom(s, f.next))
  {
    if f.First? { TotalCons(f.chunk, ParseFrom(s, f.next)); }
  }

  /** One turn of the measuring loop: a number cut short, or one slice more. */
  method MeasureChunk(s: seq<byte>, offset: nat) returns (ok: bool, slice: nat, after: nat)
    requires offset < |s|
    ensures ok ==> offset < after
    ensures LengthFrom(s, offset) == if ok then Sum(slice, LengthFrom(s, after)) else -1
  {
    var r := Varint.Decode(s[offset..], VARINT_BYTES);
    FirstChunkRead(s, offset);
    LengthNext(s, offset, FirstChunk(s, offset));
    if r.NoVarint? { return false, 0, 0; }
    slice := Slice(r.value);
    after := After(r.value, offset + r.length);
    ok := true;
  }

  /** `decodingLength`: checks the whole input and measures its expansion, in whole words. */
  method DecodingLength(buffer: array<byte>) returns (ok: bool, len: nat)
    ensures ok <==> Parse(buffer[..]).Good?
    ensures ok ==> len == RoundUp(|Expand(Parse(buffer[..]).chunks)|)
  {
    var s := buffer[..];
    ghost var total := LengthFrom(s, 0);
    var offset: nat := 0;
    len := 0;
    while offset < |s|
      invariant total == Sum(len, LengthFrom(s, offset))
      decreases |s| - offset
    {
      var slice, after;
      ok, slice, after := MeasureChunk(s, offset);
      if !ok { return false, 0; }
      len := len + slice;
      offset := after;
    }
    if offset > |s| { return false, 0; }
    ok := true;
    if len % 4 != 0 { len := len + (4 - len % 4); }
  }

  /** Memory for a host from little-endian memory. */
  function HostOrder(mem: seq<byte>, littleEndian: bool): (r: seq<byte>)
    requires |mem| % 4 == 0
    ensures |r| == |mem|
  {
    if littleEndian then mem else Swap32(mem)
  }

  lemma {:induction false} ViewSwap(mem: seq<byte>, littleEndian: bool)
    requires |mem| % 4 == 0
    ensures View(HostOrder(mem, littleEndian), littleEndian) == View(mem, true)
  {
    if !littleEndian && mem != [] {
      ViewSwap(mem[4..], false);
      assert Swap32(mem)[4..] == Swap32(mem[4..]);
    }
  }

  /** Fill in one run or copy one raw chunk; returns where the next chunk starts. */
  method FillChunk(buffer: array<byte>, next: nat, offset: nat, mem: array<byte>, ptr: nat) returns (offset': nat)
    requires buffer != mem && After(next, offset) <= buffer.Length
    requires ptr + Slice(next) <= mem.Length
    modifies mem
    ensures mem[..][..ptr + Slice(next)] == old(mem[..])[..ptr] + Meaning(ChunkAt(old(buffer[..]), next, offset))
    ensures offset' == After(next, offset) && buffer[..] == old(buffer[..])
  {
    offset' := offset;
    if Repeat(next) {
      FillBytes(mem, if next / 2 % 2 == 1 then 255 else 0, ptr, ptr + Slice(next));
    } else {
      CopyBytes(buffer, offset, Slice(next), mem, ptr);
      offset' := offset + Slice(next);
      assert buffer[offset..offset'] == buffer[..][offset..offset'];
    }
    assert mem[..][..ptr + Slice(next)] == mem[..ptr + Slice(next)];
    assert old(mem[..])[..ptr] == old(mem[..ptr]);
  }

  /** The bytes that the rest of the string, from `offset` on, stands for. */
  ghost function Remaining(s: seq<byte>, offset: nat): seq<byte>
    requires offset <= |s| && ParseFrom(s, offset).Good?
  {
    Expand(ParseFrom(s, offset).chunks)
  }

  lemma FirstOfRemaining(s: seq<byte>, offset: nat, f: First)
    requires offset < |s| && ParseFrom(s, offset).Good? && f == FirstChunk(s, offset)
    ensures f.First? && ParseFrom(s, f.next).Good? && Remaining(s, offset) == Meaning(f.chunk) + Remaining(s, f.next)
  {
    ExpandCons(f.chunk, ParseFrom(s, f.next).chunks);
  }

  /** The next chunk is whole; its bytes come first, and then those of the chunks after it. */
  lemma NextChunk(s: seq<byte>, offset: nat, r: Varint.Read)
    requires offset < |s| && ParseFrom(s, offset).Good? && r == Varint.Decode(s[offset..], VARINT_BYTES)
    ensures r.Read? && After(r.value, offset + r.length) <= |s|
    ensures var c, next := ChunkAt(s, r.value, offset + r.length), After(r.value, offset + r.length);
      ParseFrom(s, next).Good? && Remaining(s, offset) == Meaning(c) + Remaining(s, next) &&
        |Meaning(c)| == Slice(r.value)
  {
    FirstChunkRead(s, offset);
    FirstOfRemaining(s, offset, FirstChunk(s, offset));
  }

  /** The memory before `ptr` is filled in; the rest of `total` is what the string from `offset` on stands for. */
  ghost predicate Filled(s: seq<byte>, offset: nat, mem: seq<byte>, ptr: nat, total: seq<byte>)
  {
    offset <= |s| && ptr <= |mem| && ParseFrom(s, offset).Good? && mem[..ptr] + Remaining(s, offset) == total
  }

  lemma NextFits(s: seq<byte>, offset: nat, mem: seq<byte>, ptr: nat, total: seq<byte>, r: Varint.Read)
    requires offset < |s| && Filled(s, offset, mem, ptr, total) && |total| <= |mem|
    requires r == Varint.Decode(s[offset..], VARINT_BYTES)
    ensures r.Read? && After(r.value, offset + r.length) <= |s| && ptr + Slice(r.value) <= |mem|
  {
    NextChunk(s, offset, r);
  }

  /** Once the next chunk's bytes are in place, so much more is filled in. */
  lemma FilledNext(s: seq<byte>, offset: nat, mem: seq<byte>, ptr: nat, total: seq<byte>, r: Varint.Read,
                   mem': seq<byte>, end: nat, next: nat)
    requires offset < |s| && Filled(s, offset, mem, ptr, total) && r == Varint.Decode(s[offset..], VARINT_BYTES)
    requires r.Read?
    requires next == After(r.value, offset + r.length) <= |s|
    requires end <= |mem'| && mem'[..end] == mem[..ptr] + Meaning(ChunkAt(s, r.value, offset + r.length))
    ensures Filled(s, next, mem', end, total)
  {
    NextChunk(s, offset, r);
    Regroup(mem[..ptr], Meaning(ChunkAt(s, r.value, offset + r.length)), Remaining(s, next), Remaining(s, offset),
      mem'[..end]);
  }

  /** One turn of the filling loop. */
  method FillNext(buffer: array<byte>, offset: nat, mem: array<byte>, ptr: nat, ghost total: seq<byte>)
    returns (offset': nat, ptr': nat)
    requires buffer != mem && offset < buffer.Length && |total| <= mem.Length
    requires Filled(buffer[..], offset, mem[..], ptr, total)
    modifies mem
    ensures offset < offset' && Filled(buffer[..], offset', mem[..], ptr', total)
  {
    var s := buffer[..];
    var r := Varint.Decode(s[offset..], VARINT_BYTES);
    ghost var m := mem[..];
    NextFits(s, offset, m, ptr, total, r);
    offset' := FillChunk(buffer, r.value, offset + r.length, mem, ptr);
    ptr' := ptr + Slice(r.value);
    FilledNext(s, offset, m, ptr, total, r, mem[..], ptr', offset');
  }

  /** The filling pass of `decode`. */
  method FillExpansion(buffer: array<byte>, mem: array<byte>)
    requires buffer != mem && Parse(buffer[..]).Good? && mem.Length == RoundUp(|Expand(Parse(buffer[..]).chunks)|)
    modifies mem
    ensures mem[..] == Padded(Expand(Parse(buffer[..]).chunks))
  {
    ghost var s, total := buffer[..], Remaining(buffer[..], 0);
    assert mem[..0] + total == total;
    var offset: nat, ptr: nat := 0, 0;
    while offset < buffer.Length
      invariant buffer[..] == s && Filled(s, offset, mem[..], ptr, total)
      decreases buffer.Length - offset
    {
      offset, ptr := FillNext(buffer, offset, mem, ptr, total);
    }
    assert mem[..ptr] == total;
    FillBytes(mem, 0, ptr, mem.Length);
  }

  /** `decode`: for every byte string that passes the check, each raw chunk is copied in full, each run
      filled, no read or write leaves its buffer, and the memory holds the expansion followed by fewer
      than four zero bytes, in the host's byte order. */
  method DecodeBitfield(buffer: array<byte>, littleEndian: bool) returns (ok: bool, mem: array<byte>)
    ensures ok <==> Parse(buffer[..]).Good?
    ensures fresh(mem)
    ensures ok ==> mem[..] == HostOrder(Padded(Expand(Parse(buffer[..]).chunks)), littleEndian)
    ensures ok ==>
      DecodedWords(buffer[..]) ==
      Bitfield(View(HostOrder(Padded(Expand(Parse(buffer[..]).chunks)), littleEndian), littleEndian))
  {
    var len;
    ok, len := DecodingLength(buffer);
    if !ok { mem := new byte[0]; return; }
    mem := new byte[len];
    FillExpansion(buffer, mem);
    ViewSwap(mem[..], littleEndian);
    if !littleEndian { SwapInPlace(mem); }
  }
}
