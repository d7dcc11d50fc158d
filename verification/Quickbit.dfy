/** The part of the `quickbit` package that the remote bitfield relies on: bit primitives on one
    page of memory, and the sparse index that summarises 128-bit blocks.

    A page's memory is an `array<bool>`; a `Uint32Array` argument is a sequence of words whose bits
    are numbered from the least significant bit of the first word. */
module Quickbit {
  import opened Words

  const BITS_PER_PAGE: nat := 32768
  const BYTES_PER_PAGE: nat := 4096
  const PAGES_PER_SEGMENT: nat := 64
  const BITS_PER_SEGMENT: nat := 2097152
  const BITS_PER_BLOCK: nat := 128
  const BLOCKS_PER_SEGMENT: nat := 16384

  /** `quickbit.set`: tells whether the bit changed. */
  method SetBit(field: array<bool>, index: nat, val: bool) returns (changed: bool)
    requires index < field.Length
    modifies field
    ensures changed == (old(field[index]) != val)
    ensures field[..] == old(field[..])[index := val]
  {
    changed := field[index] != val;
    field[index] := val;
  }

  /** `quickbit.fill` on `[start, end)`. */
  method Fill(field: array<bool>, val: bool, start: nat, end: nat)
    requires start <= end <= field.Length
    modifies field
    ensures forall k :: 0 <= k < field.Length ==>
      field[k] == if start <= k < end then val else old(field[k])
  {
    var k := start;
    while k < end
      invariant start <= k <= end
      invariant forall m :: 0 <= m < field.Length ==>
        field[m] == if start <= m < k then val else old(field[m])
    {
      field[k] := val;
      k := k + 1;
    }
  }

  /** `TypedArray.set` of words at bit `start`. */
  method CopyWords(field: array<bool>, words: seq<word>, start: nat)
    requires start + 32 * |words| <= field.Length
    modifies field
    ensures forall k :: 0 <= k < field.Length ==>
      field[k] == if start <= k < start + 32 * |words| then WordBit(words, k - start) else old(field[k])
  {
    var k := 0;
    while k < 32 * |words|
      invariant 0 <= k <= 32 * |words|
      invariant forall m :: 0 <= m < field.Length ==>
        field[m] == if start <= m < start + k then WordBit(words, m - start) else old(field[m])
    {
      field[start + k] := WordBit(words, k);
      k := k + 1;
    }
  }

  /** `quickbit.findFirst`: the least index at or after `position` holding `val`, or -1. */
  method FindFirst(field: array<bool>, val: bool, position: nat) returns (r: int)
    requires position <= field.Length
    ensures r == -1 || position <= r < field.Length
    ensures r == -1 ==> forall k :: position <= k < field.Length ==> field[k] != val
    ensures r != -1 ==> field[r] == val && forall k :: position <= k < r ==> field[k] != val
  {
    r := position;
    while r < field.Length && field[r] != val
      invariant position <= r <= field.Length
      invariant forall k :: position <= k < r ==> field[k] != val
    {
      r := r + 1;
    }
    if r == field.Length {
      r := -1;
    }
  }

  /** `quickbit.findLast`: the greatest index at or before `position` holding `val`, or -1. */
  method FindLast(field: array<bool>, val: bool, position: nat) returns (r: int)
    requires position < field.Length
    ensures -1 <= r <= position
    ensures forall k :: r < k <= position ==> field[k] != val
    ensures r != -1 ==> field[r] == val
  {
    r := position;
    while r >= 0 && field[r] != val
      invariant -1 <= r <= position
      invariant forall k :: r < k <= position ==> field[k] != val
    {
      r := r - 1;
    }
  }

  /** A page's memory (shared with the page itself) and its byte offset in the segment. */
  datatype Chunk = Chunk(field: array<bool>, offset: nat)

  predicate ChunkOk(c: Chunk)
  {
    c.field.Length == BITS_PER_PAGE && c.offset % BYTES_PER_PAGE == 0 && c.offset < PAGES_PER_SEGMENT * BYTES_PER_PAGE
  }

  /** Does chunk `c` hold bit `x` of the segment? */
  predicate Covers(c: Chunk, x: nat)
  {
    8 * c.offset <= x < 8 * c.offset + c.field.Length
  }

  /** The index of a chunk that holds bit `x`, or -1. */
  function Select(chunks: seq<Chunk>, x: nat): (k: int)
    ensures -1 <= k < |chunks|
    ensures k != -1 ==> Covers(chunks[k], x)
    ensures k == -1 ==> forall c :: c in chunks ==> !Covers(c, x)
  {
    if chunks == [] then -1
    else if Covers(chunks[|chunks| - 1], x) then |chunks| - 1
    else
      var k := Select(chunks[..|chunks| - 1], x);
      assert chunks == chunks[..|chunks| - 1] + [chunks[|chunks| - 1]];
      k
  }

  ghost function Fields(chunks: seq<Chunk>): set<object>
  {
    set c | c in chunks :: c.field
  }

  /** What the chunk list says about bit `x`; memory no chunk covers reads as zeros. */
  ghost predicate ChunkBit(chunks: seq<Chunk>, x: nat)
    reads Fields(chunks)
  {
    var k := Select(chunks, x);
    k != -1 && chunks[k].field[x - 8 * chunks[k].offset]
  }

  ghost predicate Increasing(chunks: seq<Chunk>)
  {
    forall i, j :: 0 <= i < j < |chunks| ==> chunks[i].offset < chunks[j].offset
  }

  /** Chunks in order of offset, no two at the same offset. */
  ghost predicate Sorted(chunks: seq<Chunk>)
  {
    (forall c :: c in chunks ==> ChunkOk(c)) && Increasing(chunks)
  }

  /** In a sorted list at most one chunk holds a given bit. */
  lemma SelectUnique(chunks: seq<Chunk>, c: Chunk, x: nat)
    requires Sorted(chunks) && c in chunks && Covers(c, x)
    ensures Select(chunks, x) != -1 && chunks[Select(chunks, x)] == c
  {
    var k := Select(chunks, x);
    var m :| 0 <= m < |chunks| && chunks[m] == c;
    assert ChunkOk(chunks[k]) && ChunkOk(c);
    assert chunks[k].offset == c.offset;
  }

  /** Block boundaries never split a chunk. */
  lemma CoversBlock(c: Chunk, b: nat, x: nat)
    requires ChunkOk(c) && BITS_PER_BLOCK * b <= x < BITS_PER_BLOCK * (b + 1)
    ensures Covers(c, x) <==> Covers(c, BITS_PER_BLOCK * b)
  {
    assert 8 * c.offset == BITS_PER_BLOCK * (256 * (c.offset / BYTES_PER_PAGE));
  }

  /** The set positions, as the chunk list shows them. */
  ghost function Ones(chunks: seq<Chunk>): iset<nat>
    reads Fields(chunks)
  {
    iset x: nat | ChunkBit(chunks, x)
  }

  /** Do all positions of block `b` have the value `v`? */
  ghost predicate AllOf(ones: iset<nat>, b: nat, v: bool)
  {
    forall x: nat :: BITS_PER_BLOCK * b <= x < BITS_PER_BLOCK * (b + 1) ==> (x in ones) == v
  }

  /** The two flags of block `b` say of a set of positions what is so, and all that is so. */
  ghost predicate FlagsTrue(ones: iset<nat>, b: nat, zero: bool, one: bool)
  {
    zero == AllOf(ones, b, false) && one == AllOf(ones, b, true)
  }

  ghost predicate AllFlagsTrue(ones: iset<nat>, allZero: seq<bool>, allOne: seq<bool>)
    requires |allZero| == |allOne|
  {
    forall b :: 0 <= b < |allZero| ==> FlagsTrue(ones, b, allZero[b], allOne[b])
  }

  lemma UncoveredBlock(chunks: seq<Chunk>, b: nat)
    requires Sorted(chunks) && Select(chunks, BITS_PER_BLOCK * b) == -1
    ensures FlagsTrue(Ones(chunks), b, true, false)
  {
    forall x | BITS_PER_BLOCK * b <= x < BITS_PER_BLOCK * (b + 1)
      ensures x !in Ones(chunks)
    {
      var k := Select(chunks, x);
      if k != -1 {
        CoversBlock(chunks[k], b, x);
      }
    }
    assert BITS_PER_BLOCK * b !in Ones(chunks);
  }

  /** Are all bits of block `b` of chunk `c` equal to `v`? */
  predicate Uniform(c: Chunk, b: nat, v: bool)
    requires ChunkOk(c) && Covers(c, BITS_PER_BLOCK * b)
    reads c.field
  {
    CoversBlock(c, b, BITS_PER_BLOCK * b + 127);
    var start := BITS_PER_BLOCK * b - 8 * c.offset;
    forall k | start <= k < start + BITS_PER_BLOCK :: c.field[k] == v
  }

  lemma CoveredBlock(chunks: seq<Chunk>, b: nat, c: Chunk)
    requires Sorted(chunks) && c in chunks && Covers(c, BITS_PER_BLOCK * b)
    ensures FlagsTrue(Ones(chunks), b, Uniform(c, b, false), Uniform(c, b, true))
  {
    BlockShown(chunks, b, c, false);
    BlockShown(chunks, b, c, true);
  }

  lemma BlockShown(chunks: seq<Chunk>, b: nat, c: Chunk, v: bool)
    requires Sorted(chunks) && c in chunks && Covers(c, BITS_PER_BLOCK * b)
    ensures Uniform(c, b, v) == AllOf(Ones(chunks), b, v)
  {
    CoversBlock(c, b, BITS_PER_BLOCK * b + 127);
    var start := BITS_PER_BLOCK * b - 8 * c.offset;
    forall x | BITS_PER_BLOCK * b <= x < BITS_PER_BLOCK * (b + 1)
      ensures (x in Ones(chunks)) == c.field[x - 8 * c.offset]
    {
      CoversBlock(c, b, x);
      SelectUnique(chunks, c, x);
    }
    if AllOf(Ones(chunks), b, v) {
      forall k | start <= k < start + BITS_PER_BLOCK ensures c.field[k] == v {
        assert (8 * c.offset + k in Ones(chunks)) == v;
      }
    }
  }

  /** `quickbit.Index` over a chunk list: for each 128-bit block one flag "all zeros" and one flag
      "all ones". */
  class SparseIndex {
    var chunks: seq<Chunk>
    var allZero: seq<bool>
    var allOne: seq<bool>

    ghost predicate Wf()
      reads this
    {
      |allZero| == |allOne| == BLOCKS_PER_SEGMENT && Sorted(chunks)
    }

    /** Index soundness: every flag tells the truth. */
    ghost predicate Sound()
      requires Wf()
      reads this, Fields(chunks)
    {
      AllFlagsTrue(Ones(chunks), allZero, allOne)
    }

    /** `Index.from` a chunk list: every block summarised afresh. */
    constructor From(chunks: seq<Chunk>)
      requires Sorted(chunks)
      ensures Wf() && Sound() && this.chunks == chunks
    {
      this.chunks := chunks;
      allZero := seq(BLOCKS_PER_SEGMENT, _ => true);
      allOne := seq(BLOCKS_PER_SEGMENT, _ => false);
      new;
      var b := 0;
      while b < BLOCKS_PER_SEGMENT
        invariant 0 <= b <= BLOCKS_PER_SEGMENT
        invariant this.chunks == chunks && Wf()
        invariant forall d :: 0 <= d < b ==> FlagsTrue(Ones(chunks), d, allZero[d], allOne[d])
      {
        Summarise(b);
        b := b + 1;
      }
    }

    /** Recompute the flags of block `b`. */
    method Summarise(b: nat)
      requires Wf() && b < BLOCKS_PER_SEGMENT
      modifies this
      ensures Wf() && chunks == old(chunks) && Ones(chunks) == old(Ones(chunks))
      ensures FlagsTrue(Ones(chunks), b, allZero[b], allOne[b])
      ensures forall d :: 0 <= d < BLOCKS_PER_SEGMENT && d != b ==>
        allZero[d] == old(allZero[d]) && allOne[d] == old(allOne[d])
    {
      var k := Select(chunks, BITS_PER_BLOCK * b);
      if k == -1 {
        // Memory without a chunk reads as zeros.
        UncoveredBlock(chunks, b);
        allZero, allOne := allZero[b := true], allOne[b := false];
      } else {
        var zero, one := Uniform(chunks[k], b, false), Uniform(chunks[k], b, true);
        CoveredBlock(chunks, b, chunks[k]);
        allZero, allOne := allZero[b := zero], allOne[b := one];
      }
      assert Ones(chunks) == old(Ones(chunks)) by {
        assert forall o :: o in Fields(chunks) ==> old(allocated(o)) && unchanged(o);
      }
    }

    /** `Index.update`: refresh the block of one bit; positions past the segment are ignored. */
    method Update(bit: nat)
      requires Wf()
      modifies this
      ensures Wf() && chunks == old(chunks) && Ones(chunks) == old(Ones(chunks))
      ensures bit < BITS_PER_SEGMENT ==>
        var b := bit / BITS_PER_BLOCK;
        FlagsTrue(Ones(chunks), b, allZero[b], allOne[b])
      ensures forall d :: 0 <= d < BLOCKS_PER_SEGMENT && d != bit / BITS_PER_BLOCK ==>
        allZero[d] == old(allZero[d]) && allOne[d] == old(allOne[d])
    {
      if bit < BITS_PER_SEGMENT {
        Summarise(bit / BITS_PER_BLOCK);
      }
    }

    /** `Index.skipFirst`: jump over leading blocks that are all `v`, and stop in the first that is not. */
    method SkipFirst(v: bool, position: nat) returns (r: nat)
      requires Wf() && Sound() && position < BITS_PER_SEGMENT
      ensures position <= r <= BITS_PER_SEGMENT
      ensures forall x :: position <= x < r ==> (x in Ones(chunks)) == v
      ensures r < BITS_PER_SEGMENT ==> !AllOf(Ones(chunks), r / BITS_PER_BLOCK, v)
    {
      r := position;
      while r < BITS_PER_SEGMENT && (if v then allOne[r / BITS_PER_BLOCK] else allZero[r / BITS_PER_BLOCK])
        invariant position <= r <= BITS_PER_SEGMENT
        invariant forall x :: position <= x < r ==> (x in Ones(chunks)) == v
      {
        assert FlagsTrue(Ones(chunks), r / BITS_PER_BLOCK, allZero[r / BITS_PER_BLOCK], allOne[r / BITS_PER_BLOCK]);
        r := BITS_PER_BLOCK * (r / BITS_PER_BLOCK + 1);
      }
      assert r < BITS_PER_SEGMENT ==>
        FlagsTrue(Ones(chunks), r / BITS_PER_BLOCK, allZero[r / BITS_PER_BLOCK], allOne[r / BITS_PER_BLOCK]);
    }

    /** `Index.skipLast`: jump back over trailing blocks that are all `v`, and stop in the first that is not. */
    method SkipLast(v: bool, position: nat) returns (r: int)
      requires Wf() && Sound() && position < BITS_PER_SEGMENT
      ensures -1 <= r <= position
      ensures forall x :: r < x <= position ==> (x in Ones(chunks)) == v
      ensures r >= 0 ==> !AllOf(Ones(chunks), r / BITS_PER_BLOCK, v)
    {
      r := position;
      while r >= 0 && (if v then allOne[r / BITS_PER_BLOCK] else allZero[r / BITS_PER_BLOCK])
        invariant -1 <= r <= position
        invariant forall x :: r < x <= position ==> (x in Ones(chunks)) == v
      {
        assert FlagsTrue(Ones(chunks), r / BITS_PER_BLOCK, allZero[r / BITS_PER_BLOCK], allOne[r / BITS_PER_BLOCK]);
        r := BITS_PER_BLOCK * (r / BITS_PER_BLOCK) - 1;
      }
      assert r >= 0 ==>
        FlagsTrue(Ones(chunks), r / BITS_PER_BLOCK, allZero[r / BITS_PER_BLOCK], allOne[r / BITS_PER_BLOCK]);
    }
  }
}
