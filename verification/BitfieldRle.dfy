/** The run-length code for bitfields (src/core-manager/bitfield-rle.js): what an encoded byte string
    means, what the greedy encoder emits, and the theorems about the two. The methods that encode and
    decode in place are in `BitfieldRleBuffers`. */
module BitfieldRle {
  import opened Words
  import opened Varint
  import opened Sequences

  /** The `varint` package gives up after eight bytes. */
  const VARINT_BYTES: nat := 8

  /** One segment of an encoded bitfield: bytes verbatim, or a run of all-zero or all-one bytes. */
  datatype Chunk = Raw(bytes: seq<byte>) | Fill(length: nat, ones: bool)

  function Run(length: nat, b: byte): (s: seq<byte>)
    ensures |s| == length && forall k :: 0 <= k < length ==> s[k] == b
  {
    seq(length, _ => b)
  }

  /** The bytes a chunk stands for. */
  function Meaning(c: Chunk): seq<byte>
  {
    match c
    case Raw(bytes) => bytes
    case Fill(length, ones) => Run(length, if ones then 255 else 0)
  }

  function Expand(chunks: seq<Chunk>): seq<byte>
  {
    if chunks == [] then [] else Meaning(chunks[0]) + Expand(chunks[1..])
  }

  /** The number in front of a chunk: even for raw bytes, odd for a run. */
  function Code(c: Chunk): nat
  {
    match c
    case Raw(bytes) => 2 * |bytes|
    case Fill(length, ones) => 4 * length + (if ones then 2 else 0) + 1
  }

  function Wire(c: Chunk): seq<byte>
  {
    Encode(Code(c)) + if c.Raw? then c.bytes else []
  }

  function Serialize(chunks: seq<Chunk>): seq<byte>
  {
    if chunks == [] then [] else Wire(chunks[0]) + Serialize(chunks[1..])
  }

  datatype Parsed = Bad | Good(chunks: seq<Chunk>)

  function Cons(c: Chunk, p: Parsed): Parsed
  {
    match p case Bad => Bad case Good(chunks) => Good([c] + chunks)
  }

  /** A run or raw bytes, by the last bit of the number read. */
  function Repeat(next: nat): bool { next % 2 == 1 }

  /** How many bytes the chunk stands for. */
  function Slice(next: nat): nat { if Repeat(next) then (next - next % 4) / 4 else next / 2 }

  /** Where the next chunk starts; raw bytes are passed over. */
  function After(next: nat, start: nat): (after: nat)
    ensures start <= after
  {
    if Repeat(next) then start else start + Slice(next)
  }

  /** The chunk announced by `next`, whose bytes, if raw, are at `start`. */
  function ChunkAt(s: seq<byte>, next: nat, start: nat): Chunk
    requires After(next, start) <= |s|
  {
    if Repeat(next) then Fill(Slice(next), next / 2 % 2 == 1) else Raw(s[start..start + Slice(next)])
  }

  datatype First = Cut | First(chunk: Chunk, next: nat)

  /** The chunk at position `i` and where the next one starts; `Cut` if its number or its bytes are not
      all there. */
  function FirstChunk(s: seq<byte>, i: nat): (r: First)
    requires i <= |s|
    ensures r.First? ==> i < r.next <= |s|
  {
    match Varint.Decode(s[i..], VARINT_BYTES)
    case NoVarint => Cut
    case Read(next, n) => if After(next, i + n) > |s| then Cut else First(ChunkAt(s, next, i + n), After(next, i + n))
  }

  /** Reading the number at `i` and then the chunk it announces. */
  lemma FirstChunkRead(s: seq<byte>, i: nat)
    requires i <= |s|
    ensures var r, f := Varint.Decode(s[i..], VARINT_BYTES), FirstChunk(s, i);
      if r.NoVarint? || After(r.value, i + r.length) > |s| then f == Cut
      else (
        && f == First(ChunkAt(s, r.value, i + r.length), After(r.value, i + r.length))
        && |Meaning(f.chunk)| == Slice(r.value))
  {
  }

  /** The chunks from position `i` on, if well formed: every number complete and every raw chunk whole. */
  function ParseFrom(s: seq<byte>, i: nat): Parsed
    requires i <= |s|
    decreases |s| - i
  {
    if i == |s| then Good([]) else
      match FirstChunk(s, i)
      case Cut => Bad
      case First(c, next) => Cons(c, ParseFrom(s, next))
  }

  /** The chunks of a byte string, if it is well formed. */
  function Parse(s: seq<byte>): Parsed
  {
    ParseFrom(s, 0)
  }

  /** Every number short enough for the reader. */
  ghost predicate Readable(chunks: seq<Chunk>)
  {
    forall c :: c in chunks ==> Code(c) <= MAX_SAFE_INTEGER
  }

  /** Eight bytes are enough for every safe integer. */
  lemma EightBytes()
    ensures MAX_SAFE_INTEGER < Bound(8)
  {
    assert Bound(2) == 128 * Bound(1) == 0x4000;
    assert Bound(4) == 128 * Bound(3) == 0x4000 * 0x4000;
    assert Bound(6) == 128 * Bound(5) == 0x4000 * 0x4000 * 0x4000;
    assert Bound(8) == 128 * Bound(7) == 0x4000 * 0x4000 * 0x4000 * 0x4000;
  }

  lemma CodeDecoded(c: Chunk, rest: seq<byte>)
    requires Code(c) <= MAX_SAFE_INTEGER
    ensures Varint.Decode(Encode(Code(c)) + rest, VARINT_BYTES) == Varint.Read(Code(c), |Encode(Code(c))|)
  {
    EightBytes();
    EncodeFits(Code(c), 8);
    DecodeEncode(Code(c), rest, VARINT_BYTES);
  }

  lemma CodeTaken(c: Chunk)
    ensures Repeat(Code(c)) == c.Fill? && Slice(Code(c)) == if c.Raw? then |c.bytes| else c.length
    ensures c.Fill? ==> (Code(c) / 2 % 2 == 1) == c.ones
  {
  }

  lemma CodeRead(before: seq<byte>, c: Chunk, rest: seq<byte>)
    requires Code(c) <= MAX_SAFE_INTEGER
    ensures FirstChunk(before + Wire(c) + rest, |before|) == First(c, |before + Wire(c)|)
  {
    var s, head := before + Wire(c) + rest, Encode(Code(c));
    var body := if c.Raw? then c.bytes else [];
    Parts(before, head, body, rest, s, |before| + |head|);
    CodeDecoded(c, body + rest);
    CodeTaken(c);
  }

  /** Parsing is the inverse of serializing. */
  lemma {:induction false} ParseSerialize(before: seq<byte>, chunks: seq<Chunk>)
    requires Readable(chunks)
    ensures ParseFrom(before + Serialize(chunks), |before|) == Good(chunks)
    decreases |chunks|
  {
    if chunks != [] {
      var c, rest := chunks[0], Serialize(chunks[1..]);
      Associates(before, Wire(c), rest);
      CodeRead(before, c, rest);
      ParseSerialize(before + Wire(c), chunks[1..]);
      assert [c] + chunks[1..] == chunks;
    }
  }

  lemma {:induction false} SerializeAppend(a: seq<Chunk>, b: seq<Chunk>)
    ensures Serialize(a + b) == Serialize(a) + Serialize(b)
  {
    if a == [] {
      assert a + b == b;
    } else {
      SerializeAppend(a[1..], b);
      assert (a + b)[1..] == a[1..] + b;
      Associates(Wire(a[0]), Serialize(a[1..]), Serialize(b));
    }
  }

  lemma ExpandCons(c: Chunk, rest: seq<Chunk>)
    ensures Expand([c] + rest) == Meaning(c) + Expand(rest)
  {
    assert ([c] + rest)[1..] == rest;
  }

  lemma {:induction false} ExpandAppend(a: seq<Chunk>, b: seq<Chunk>)
    ensures Expand(a + b) == Expand(a) + Expand(b)
  {
    if a == [] {
      assert a + b == b;
    } else {
      ExpandAppend(a[1..], b);
      assert (a + b)[1..] == a[1..] + b;
      Associates(Meaning(a[0]), Expand(a[1..]), Expand(b));
    }
  }

  // ----- The greedy encoder -----

  /** What `encodeUpdate` decides at position `i`, with a run of `len` bytes `bits` just ended and
      everything before `off` already emitted: either nothing yet, or the bytes before the run as they
      are and then the run. */
  function Update(input: seq<byte>, i: nat, len: nat, bits: byte, off: nat): (r: (seq<Chunk>, nat))
    requires off + len <= i <= |input|
  {
    var head := i - len - off;
    var run := Fill(len, bits != 0);
    var headCost := if head != 0 then |Encode(2 * head)| + head else 0;
    var encCost := headCost + |Encode(Code(run))|;
    var baseCost := |Encode(2 * (i - off))| + i - off;
    if encCost >= baseCost then ([], off)
    else ((if head != 0 then [Raw(input[off..i - len])] else []) + [run], i)
  }

  /** `encodeFinal`: whatever is left goes out as it is. */
  function Final(input: seq<byte>, off: nat): seq<Chunk>
    requires off <= |input|
  {
    if off == |input| then [] else [Raw(input[off..])]
  }

  /** The step at the end of a run, if there is one. */
  function EndRun(input: seq<byte>, i: nat, len: nat, bits: byte, off: nat): (r: (seq<Chunk>, nat))
    requires off + len <= i <= |input|
  {
    if len != 0 then Update(input, i, len, bits, off) else ([], off)
  }

  /** The chunks the encoder emits from position `i` on, in the state `len`, `bits`, `off`. */
  function Scan(input: seq<byte>, i: nat, len: nat, bits: byte, off: nat): seq<Chunk>
    requires off + len <= i <= |input|
    decreases |input| - i
  {
    if i == |input| then
      var (out, off') := EndRun(input, i, len, bits, off);
      out + Final(input, off')
    else if input[i] == bits then
      Scan(input, i + 1, len + 1, bits, off)
    else
      var (out, off') := EndRun(input, i, len, bits, off);
      var irregular := input[i] != 0 && input[i] != 255;
      out + Scan(input, i + 1, if irregular then 0 else 1, if irregular then bits else input[i], off')
  }

  /** All chunks of an input. */
  function Rle(input: seq<byte>): seq<Chunk>
  {
    Scan(input, 0, 0, 0, 0)
  }

  /** The pending run: `len` bytes `bits` that end at `i`, and do not reach back before `off`. */
  ghost predicate Pending(input: seq<byte>, i: nat, len: nat, bits: byte, off: nat)
  {
    off + len <= i <= |input| && (bits == 0 || bits == 255) && forall k :: i - len <= k < i ==> input[k] == bits
  }

  lemma RunMeaning(input: seq<byte>, i: nat, j: nat, run: Chunk)
    requires i <= j <= |input| && run.Fill? && run.length == j - i
    requires forall k :: i <= k < j ==> input[k] == if run.ones then 255 else 0
    ensures Meaning(run) == input[i..j]
  {
  }

  lemma ExpandOne(c: Chunk)
    ensures Expand([c]) == Meaning(c)
  {
    assert Expand([c]) == Meaning(c) + [];
  }

  /** Whatever is emitted at the end of a run stands for exactly the input it passes over. */
  lemma EndRunMeaning(input: seq<byte>, i: nat, len: nat, bits: byte, off: nat)
    requires Pending(input, i, len, bits, off)
    ensures var (out, off') := EndRun(input, i, len, bits, off);
      off <= off' <= i && Expand(out) == input[off..off']
  {
    var (out, off') := EndRun(input, i, len, bits, off);
    if out != [] {
      var run := Fill(len, bits != 0);
      RunMeaning(input, i - len, i, run);
      ExpandOne(run);
      if i - len - off != 0 {
        var raw := Raw(input[off..i - len]);
        ExpandOne(raw);
        ExpandAppend([raw], [run]);
        Neighbours(input, off, i - len, i, Meaning(raw), Meaning(run));
      }
    }
  }

  /** Chunks for one part of the input and chunks for the rest of it. */
  lemma PartAndRest(input: seq<byte>, off: nat, off': nat, out: seq<Chunk>, rest: seq<Chunk>)
    requires off <= off' <= |input| && Expand(out) == input[off..off'] && Expand(rest) == input[off'..]
    ensures Expand(out + rest) == input[off..]
  {
    ExpandAppend(out, rest);
    StretchAndRest(input, off, off', Expand(out), Expand(rest));
  }

  lemma FinalMeaning(input: seq<byte>, off: nat)
    requires off <= |input|
    ensures Expand(Final(input, off)) == input[off..]
  {
    if off < |input| { assert Expand(Final(input, off)) == input[off..] + Expand([]); }
  }

  lemma ScanEnd(input: seq<byte>, len: nat, bits: byte, off: nat)
    requires Pending(input, |input|, len, bits, off)
    ensures Expand(Scan(input, |input|, len, bits, off)) == input[off..]
  {
    var (out, off') := EndRun(input, |input|, len, bits, off);
    EndRunMeaning(input, |input|, len, bits, off);
    FinalMeaning(input, off');
    PartAndRest(input, off, off', out, Final(input, off'));
  }

  /** One turn of the scan at a byte that does not continue the run. */
  lemma ScanTurn(input: seq<byte>, i: nat, len: nat, bits: byte, off: nat)
    returns (out: seq<Chunk>, len': nat, bits': byte, off': nat)
    requires Pending(input, i, len, bits, off) && i < |input| && input[i] != bits
    ensures Pending(input, i + 1, len', bits', off')
    ensures Scan(input, i, len, bits, off) == out + Scan(input, i + 1, len', bits', off')
    ensures off <= off' <= i && Expand(out) == input[off..off'] && (out, off') == EndRun(input, i, len, bits, off)
    ensures if input[i] != 0 && input[i] != 255 then len' == 0 && bits' == bits else len' == 1 && bits' == input[i]
  {
    out, off' := EndRun(input, i, len, bits, off).0, EndRun(input, i, len, bits, off).1;
    EndRunMeaning(input, i, len, bits, off);
    var irregular := input[i] != 0 && input[i] != 255;
    len', bits' := if irregular then 0 else 1, if irregular then bits else input[i];
  }

  lemma ScanContinued(input: seq<byte>, i: nat, len: nat, bits: byte, off: nat)
    requires Pending(input, i, len, bits, off) && i < |input| && input[i] == bits
    ensures Pending(input, i + 1, len + 1, bits, off)
    ensures Scan(input, i, len, bits, off) == Scan(input, i + 1, len + 1, bits, off)
  {
  }

  /** If what is emitted from the next byte on stands for the rest of the input, so does what is from this one. */
  lemma TurnMeaning(input: seq<byte>, i: nat, len: nat, bits: byte, off: nat)
    returns (len': nat, bits': byte, off': nat)
    requires Pending(input, i, len, bits, off) && i < |input| && input[i] != bits
    ensures Pending(input, i + 1, len', bits', off')
    ensures Expand(Scan(input, i + 1, len', bits', off')) == input[off'..] ==>
      Expand(Scan(input, i, len, bits, off)) == input[off..]
  {
    var out;
    out, len', bits', off' := ScanTurn(input, i, len, bits, off);
    var rest := Scan(input, i + 1, len', bits', off');
    if Expand(rest) == input[off'..] { PartAndRest(input, off, off', out, rest); }
  }

  /** The emitted chunks stand for exactly the rest of the input. */
  lemma {:induction false} ScanMeaning(input: seq<byte>, i: nat, len: nat, bits: byte, off: nat)
    requires Pending(input, i, len, bits, off)
    ensures Expand(Scan(input, i, len, bits, off)) == input[off..]
    decreases |input| - i
  {
    if i == |input| {
      ScanEnd(input, len, bits, off);
    } else if input[i] == bits {
      ScanContinued(input, i, len, bits, off);
      ScanMeaning(input, i + 1, len + 1, bits, off);
    } else {
      var len', bits', off' := TurnMeaning(input, i, len, bits, off);
      ScanMeaning(input, i + 1, len', bits', off');
    }
  }

  /** No number the encoder writes is above 4 times the input length plus 3. */
  lemma {:induction false} ScanCodes(input: seq<byte>, i: nat, len: nat, bits: byte, off: nat)
    requires off + len <= i <= |input|
    ensures forall c :: c in Scan(input, i, len, bits, off) ==> Code(c) <= 4 * |input| + 3
    decreases |input| - i
  {
    if i < |input| {
      if input[i] == bits {
        ScanCodes(input, i + 1, len + 1, bits, off);
      } else {
        var (_, off') := EndRun(input, i, len, bits, off);
        var irregular := input[i] != 0 && input[i] != 255;
        ScanCodes(input, i + 1, if irregular then 0 else 1, if irregular then bits else input[i], off');
      }
    }
  }

  /** An input short enough that every number written is a safe integer. */
  predicate Addressable(input: seq<byte>) { 4 * |input| + 3 <= MAX_SAFE_INTEGER }

  /** Round trip: parsing what the encoder wrote and expanding it gives the input back. */
  lemma RoundTrip(input: seq<byte>)
    requires Addressable(input)
    ensures Parse(Serialize(Rle(input))) == Good(Rle(input)) && Expand(Rle(input)) == input
  {
    ScanMeaning(input, 0, 0, 0, 0);
    ScanCodes(input, 0, 0, 0, 0);
    ParseSerialize([], Rle(input));
    assert [] + Serialize(Rle(input)) == Serialize(Rle(input));
  }

  // ----- Words -----

  /** An encoded bitfield: the same bytes whatever the host. */
  function Encoded(words: seq<word>): seq<byte>
  {
    Serialize(Rle(Memory(words, true)))
  }

  /** The length of the decoded memory: whole words. */
  function RoundUp(n: nat): (r: nat)
    ensures r % 4 == 0 && n <= r < n + 4
  {
    if n % 4 != 0 then n + (4 - n % 4) else n
  }

  /** The expansion, filled up with zero bytes to whole words. */
  function Padded(s: seq<byte>): (r: seq<byte>)
    ensures |r| % 4 == 0 && |s| <= |r| < |s| + 4 && r[..|s|] == s && forall k :: |s| <= k < |r| ==> r[k] == 0
  {
    s + Run(RoundUp(|s|) - |s|, 0)
  }

  datatype Decoded = InvalidBitfield | Bitfield(words: seq<word>)

  /** What a byte string decodes to. */
  function DecodedWords(s: seq<byte>): Decoded
  {
    match Parse(s)
    case Bad => InvalidBitfield
    case Good(chunks) => Bitfield(View(Padded(Expand(chunks)), true))
  }

  /** Whole words are not filled up, so the host sees what was expanded. */
  lemma WholeWords(chunks: seq<Chunk>, mem: seq<byte>)
    requires Expand(chunks) == mem && |mem| % 4 == 0
    ensures View(Padded(Expand(chunks)), true) == View(mem, true)
  {
    PaddedWhole(mem);
  }

  lemma GoodDecodes(s: seq<byte>, chunks: seq<Chunk>)
    requires Parse(s) == Good(chunks)
    ensures DecodedWords(s) == Bitfield(View(Padded(Expand(chunks)), true))
  {
  }

  lemma PaddedWhole(s: seq<byte>)
    requires |s| % 4 == 0
    ensures Padded(s) == s
  {
  }

  /** What decoding the encoding of some memory gives. */
  lemma DecodeMemory(mem: seq<byte>)
    requires |mem| % 4 == 0 && Addressable(mem)
    ensures DecodedWords(Serialize(Rle(mem))) == Bitfield(View(mem, true))
  {
    RoundTrip(mem);
    GoodDecodes(Serialize(Rle(mem)), Rle(mem));
    WholeWords(Rle(mem), mem);
  }

  /** Decoding what was encoded gives the words back, for every array of words. */
  lemma DecodeEncoded(words: seq<word>)
    requires Addressable(Memory(words, true))
    ensures DecodedWords(Encoded(words)) == Bitfield(words)
  {
    DecodeMemory(Memory(words, true));
    ViewMemory(words, true);
  }

  // ----- Size -----

  /** The number before `m` raw bytes costs at most one byte plus one for every 64 bytes. */
  lemma RawCost(m: nat)
    requires m > 0
    ensures |Encode(2 * m)| <= 1 + m / 64
  {
    if m >= 64 {
      assert 2 * m / 128 == m / 64;
      EncodeShort(m / 64);
    }
  }

  /** What is emitted at the end of a run is shorter than its raw form, so stays within `m + m / 64`. */
  lemma EndRunCost(input: seq<byte>, i: nat, len: nat, bits: byte, off: nat)
    requires off + len <= i <= |input|
    ensures var (out, off') := EndRun(input, i, len, bits, off);
      off <= off' <= i && |Serialize(out)| <= (off' - off) + (off' - off) / 64
  {
    var (out, off') := EndRun(input, i, len, bits, off);
    if out != [] {
      RawCost(i - off);
      var run := Fill(len, bits != 0);
      assert Serialize([run]) == Wire(run);
      if i - len - off != 0 {
        var raw := Raw(input[off..i - len]);
        assert out == [raw, run] && out[1..] == [run];
      }
    }
  }

  /** Size bound: at most one extra byte, and one more for every 64 bytes left. */
  lemma {:induction false} ScanCost(input: seq<byte>, i: nat, len: nat, bits: byte, off: nat)
    requires off + len <= i <= |input|
    ensures |Serialize(Scan(input, i, len, bits, off))| <= (|input| - off) + (|input| - off) / 64 + 1
    decreases |input| - i
  {
    if i < |input| && input[i] == bits {
      ScanCost(input, i + 1, len + 1, bits, off);
    } else {
      var (out, off') := EndRun(input, i, len, bits, off);
      EndRunCost(input, i, len, bits, off);
      if i == |input| {
        SerializeAppend(out, Final(input, off'));
        if off' < |input| { RawCost(|input| - off'); }
        assert |Serialize(Final(input, off'))| <= |input| - off' + (|input| - off') / 64 + 1;
      } else {
        var irregular := input[i] != 0 && input[i] != 255;
        var len', bits' := if irregular then 0 else 1, if irregular then bits else input[i];
        ScanCost(input, i + 1, len', bits', off');
        SerializeAppend(out, Scan(input, i + 1, len', bits', off'));
      }
    }
  }

  lemma SizeBound(input: seq<byte>)
    ensures |Serialize(Rle(input))| <= |input| + |input| / 64 + 1
  {
    ScanCost(input, 0, 0, 0, 0);
  }

  // ----- Where the bound is met -----

  /** Irregular bytes change nothing but the position. */
  lemma {:induction false} SkipIrregular(input: seq<byte>, i: nat, j: nat, off: nat)
    requires off <= i <= j <= |input| && forall x :: i <= x < j ==> input[x] == 5
    ensures Scan(input, i, 0, 0, off) == Scan(input, j, 0, 0, off)
    decreases j - i
  {
    if i < j {
      assert EndRun(input, i, 0, 0, off) == ([], off);
      SkipIrregular(input, i + 1, j, off);
    }
  }

  /** Zero bytes lengthen the pending run. */
  lemma {:induction false} SkipZeros(input: seq<byte>, i: nat, j: nat, len: nat, len': nat, off: nat)
    requires off + len <= i <= j <= |input| && len' == len + (j - i) && forall x :: i <= x < j ==> input[x] == 0
    ensures Scan(input, i, len, 0, off) == Scan(input, j, len', 0, off)
    decreases j - i
  {
    if i < j { SkipZeros(input, i + 1, j, len + 1, len', off); }
  }

  /** Is it worth it to emit `head` raw bytes and a run of `len` zero bytes, rather than go on? */
  predicate Worth(head: nat, len: nat)
  {
    |Encode(2 * head)| + head + |Encode(4 * len + 1)| < |Encode(2 * (head + len))| + head + len
  }

  /** A block of irregular bytes up to `mid` and zero bytes up to `end`, worth it and with an irregular byte
      behind it, goes out on its own. */
  lemma BlockScan(s: seq<byte>, off: nat, mid: nat, end: nat)
    requires off < mid < end <= |s| && Worth(mid - off, end - mid)
    requires (forall x :: off <= x < mid ==> s[x] == 5) && (forall x :: mid <= x < end ==> s[x] == 0)
    requires (end < |s| ==> s[end] == 5)
    ensures Scan(s, off, 0, 0, off) == [Raw(s[off..mid]), Fill(end - mid, false)] + Scan(s, end, 0, 0, end)
  {
    var len := end - mid;
    SkipIrregular(s, off, mid, off);
    SkipZeros(s, mid, end, 0, len, off);
    BlockUpdate(s, off, mid, end, len);
    BlockOut(s, off, end, len, [Raw(s[off..mid]), Fill(len, false)]);
  }

  /** A run that ends before an irregular byte, or at the end, and is emitted up to there. */
  lemma BlockOut(s: seq<byte>, off: nat, end: nat, len: nat, out: seq<Chunk>)
    requires off + len <= end <= |s| && EndRun(s, end, len, 0, off) == (out, end) && (end < |s| ==> s[end] == 5)
    ensures Scan(s, end, len, 0, off) == out + Scan(s, end, 0, 0, end)
  {
    assert EndRun(s, end, 0, 0, end) == ([], end);
  }

  lemma BlockUpdate(s: seq<byte>, off: nat, mid: nat, end: nat, len: nat)
    requires off < mid < end <= |s| && len == end - mid && Worth(mid - off, len)
    ensures EndRun(s, end, len, 0, off) == ([Raw(s[off..mid]), Fill(len, false)], end)
  {
    var bits: byte := 0;
    var run := Fill(len, bits != 0);
    assert run == Fill(len, false) && Code(run) == 4 * len + 1;
    assert end - len - off == mid - off && end - len == mid && end - off == mid - off + len;
    assert [Raw(s[off..mid])] + [run] == [Raw(s[off..mid]), run];
  }

  lemma BlockCost(raw: seq<byte>, len: nat)
    ensures |Serialize([Raw(raw), Fill(len, false)])| == |Encode(2 * |raw|)| + |raw| + |Encode(4 * len + 1)|
  {
    SerializeOne(Raw(raw));
    SerializeOne(Fill(len, false));
    SerializeAppend([Raw(raw)], [Fill(len, false)]);
  }

  lemma SerializeOne(c: Chunk)
    ensures Serialize([c]) == Wire(c)
  {
    assert Serialize([c]) == Wire(c) + [];
  }

  lemma TwoBytes(v: nat)
    requires 128 <= v < 16384
    ensures |Encode(v)| == 2
  {
  }

  /** `k` blocks of 63 irregular bytes and a zero byte, and then 1 to 64 irregular bytes. */
  function Tight(n: nat): (s: seq<byte>)
    ensures |s| == n
  {
    seq(n, x => if x % 64 == 63 && x / 64 < (n - 1) / 64 then 0 else 5)
  }

  /** A block that is emitted costs its head, its bytes and its run, and the rest costs what it costs. */
  lemma BlockThenRest(s: seq<byte>, off: nat, mid: nat, end: nat)
    requires off < mid < end <= |s| && Worth(mid - off, end - mid)
    requires (forall x :: off <= x < mid ==> s[x] == 5) && (forall x :: mid <= x < end ==> s[x] == 0)
    requires end < |s| ==> s[end] == 5
    ensures |Serialize(Scan(s, off, 0, 0, off))| ==
      |Encode(2 * (mid - off))| + (mid - off) + |Encode(4 * (end - mid) + 1)| + |Serialize(Scan(s, end, 0, 0, end))|
  {
    BlockScan(s, off, mid, end);
    BlockCost(s[off..mid], end - mid);
    SerializeAppend([Raw(s[off..mid]), Fill(end - mid, false)], Scan(s, end, 0, 0, end));
  }

  /** Irregular bytes up to the end are one raw chunk. */
  lemma TailCost(s: seq<byte>, off: nat)
    requires off < |s| && forall x :: off <= x < |s| ==> s[x] == 5
    ensures |Serialize(Scan(s, off, 0, 0, off))| == |Encode(2 * (|s| - off))| + (|s| - off)
  {
    SkipIrregular(s, off, |s|, off);
    assert Scan(s, |s|, 0, 0, off) == [] + [Raw(s[off..])];
    SerializeOne(Raw(s[off..]));
  }

  /** From block `b` on, each block costs 65 bytes; the irregular tail costs one byte more, or two if it has 64. */
  lemma {:induction false} TightCost(n: nat, k: nat, b: nat)
    requires n > 0 && k == (n - 1) / 64 && b <= k
    ensures |Serialize(Scan(Tight(n), 64 * b, 0, 0, 64 * b))| ==
      65 * (k - b) + (n - 64 * k) + if n == 64 * k + 64 then 2 else 1
    decreases k - b
  {
    var s, off := Tight(n), 64 * b;
    if b < k {
      TwoBytes(128);
      assert |Encode(126)| == 1 && |Encode(5)| == 1 && Worth(63, 1);
      BlockThenRest(s, off, off + 63, off + 64);
      TightCost(n, k, b + 1);
    } else {
      TailCost(s, off);
      if n == 64 * k + 64 { TwoBytes(128); }
    }
  }

  /** The bound is met at every length. */
  lemma SizeBoundTight(n: nat)
    requires n > 0
    ensures |Serialize(Rle(Tight(n)))| == n + n / 64 + 1
  {
    TightCost(n, (n - 1) / 64, 0);
  }

  /** From 128 bytes on, the bound is above the cost of one raw chunk. */
  lemma BoundOverRaw(n: nat)
    requires n >= 128
    ensures |Encode(2 * n)| < n / 64 + 1
  {
    var q := n / 64;
    assert 2 * n / 128 == q;
    if q >= 128 { EncodeShort(q / 128); }
  }

  /** Which lengths are safe from the greedy choice: no input of `n` bytes encodes to more than one raw chunk
      of it would take, if and only if `n` is below 128. */
  lemma NeverLongerExact(n: nat)
    ensures (forall input: seq<byte> :: |input| == n ==> |Serialize(Rle(input))| <= |Wire(Raw(input))|) <==> n < 128
  {
    if n < 128 {
      forall input: seq<byte> | |input| == n ensures |Serialize(Rle(input))| <= |Wire(Raw(input))| {
        SizeBound(input);
        if n >= 64 { TwoBytes(2 * n); }
      }
    } else {
      SizeBoundTight(n);
      BoundOverRaw(n);
      assert |Tight(n)| == n && |Serialize(Rle(Tight(n)))| > |Wire(Raw(Tight(n)))|;
    }
  }

  /** `k` times 64 irregular bytes and two zero bytes. */
  function Sparse(k: nat): (s: seq<byte>)
    ensures |s| == 66 * k
  {
    seq(66 * k, x => if x % 66 < 64 then 5 else 0)
  }

  lemma SparseBlock(k: nat, n: nat)
    requires n < k
    ensures var s, off := Sparse(k), 66 * n;
      && off + 66 <= |s| && (off + 66 < |s| ==> s[off + 66] == 5)
      && (forall x :: off <= x < off + 64 ==> s[x] == 5) && (forall x :: off + 64 <= x < off + 66 ==> s[x] == 0)
  {
    var s, off := Sparse(k), 66 * n;
    forall x | off <= x < off + 66 ensures s[x] == if x < off + 64 then 5 else 0 {
      assert x % 66 == x - off;
    }
    assert (off + 66) % 66 == 0;
  }

  /** A block costs 67 bytes. */
  lemma SparseBlockCost(k: nat, n: nat)
    requires n < k
    ensures |Serialize(Scan(Sparse(k), 66 * n, 0, 0, 66 * n))| ==
      67 + |Serialize(Scan(Sparse(k), 66 * (n + 1), 0, 0, 66 * (n + 1)))|
  {
    SparseBlock(k, n);
    TwoBytes(128);
    TwoBytes(132);
    assert |Encode(9)| == 1 && Worth(64, 2);
    BlockThenRest(Sparse(k), 66 * n, 66 * n + 64, 66 * n + 66);
  }

  /** Each block of 66 bytes costs 67. */
  lemma {:induction false} SparseCost(k: nat, n: nat)
    requires n <= k
    ensures |Serialize(Scan(Sparse(k), 66 * n, 0, 0, 66 * n))| == 67 * (k - n)
    decreases k - n
  {
    if n < k {
      SparseBlockCost(k, n);
      SparseCost(k, n + 1);
    }
  }

  /** A concrete input: three such blocks encode to more than one raw chunk would take. */
  lemma GreedyCanExpand()
    ensures |Serialize(Rle(Sparse(3)))| == 201 && |Wire(Raw(Sparse(3)))| == 200
  {
    SparseCost(3, 0);
    TwoBytes(396);
  }
}
