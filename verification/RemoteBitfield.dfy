/** The paged sparse bitfield that mirrors what a remote peer has (src/core-manager/remote-bitfield.js):
    bits in 32768-bit pages, pages in 2097152-bit segments, and per segment an index that lets
    searches skip uniform blocks. */
module RemoteBitfields {
  import opened Quickbit
  import opened Sequences
  import opened Words

  /** A set of positions overwritten with `val` on `[start, start + length)`. */
  ghost function Overwrite(bits: iset<nat>, start: nat, length: int, val: bool): iset<nat>
  {
    iset x: nat | if start <= x < start + length then val else x in bits
  }

  /** A set of positions overwritten with the bits of `words` from `start` on. */
  ghost function Write(bits: iset<nat>, start: nat, words: seq<word>): iset<nat>
  {
    iset x: nat | if start <= x < start + 32 * |words| then WordBit(words, x - start) else x in bits
  }

  /** Page contents of one segment: entry `q` is the memory of page `q`, or empty for no page. */
  type Memory = seq<seq<bool>>

  predicate PageBit(page: seq<bool>, k: nat) { k < |page| && page[k] }

  /** Bit `x` of a segment; a missing page is all unset. */
  predicate Member(mem: Memory, x: nat)
  {
    var q := x / BITS_PER_PAGE;
    q < |mem| && PageBit(mem[q], x % BITS_PER_PAGE)
  }

  ghost function Members(mem: Memory): iset<nat>
  {
    iset x: nat | Member(mem, x)
  }

  class RemoteBitfieldPage {
    const index: nat
    const offset: nat
    const bitfield: array<bool>
    const segment: RemoteBitfieldSegment

    constructor (index: nat, bitfield: array<bool>, segment: RemoteBitfieldSegment)
      requires segment.Valid() && segment.Owns(index) && segment.pages[segment.Local(index)] == null
      requires bitfield.Length == BITS_PER_PAGE && forall k :: 0 <= k < BITS_PER_PAGE ==> !bitfield[k]
      requires bitfield !in segment.Memories()
      modifies segment, segment.tree
      ensures this.index == index && this.bitfield == bitfield && this.segment == segment
      ensures segment.Valid() && segment.tree == old(segment.tree)
      ensures segment.pages == old(segment.pages)[segment.Local(index) := this]
      ensures segment.pagesLength ==
        if segment.Local(index) < old(segment.pagesLength) then old(segment.pagesLength) else segment.Local(index) + 1
      ensures Members(segment.mem) == old(Members(segment.mem))
    {
      this.index := index;
      this.offset := index * BYTES_PER_PAGE - segment.offset;
      this.bitfield := bitfield;
      this.segment := segment;
      new;
      segment.Add(this);
    }

    /** This page is the one its segment holds at its number. */
    ghost predicate Mine()
      reads segment
    {
      |segment.pages| == PAGES_PER_SEGMENT && segment.Owns(index) && segment.pages[segment.Local(index)] == this
    }

    /** Where the page starts, in bits from the start of its segment. */
    function Base(): nat { 8 * offset }

    function Get(index: nat): bool
      requires index < bitfield.Length
      reads bitfield
    {
      bitfield[index]
    }

    /** Rewriting this page's memory, with `mem` following, leaves the structure linked. */
    twostate lemma Rewritten()
      requires old(segment.Linked()) && old(Mine())
      requires segment.pages == old(segment.pages) && segment.pagesLength == old(segment.pagesLength)
      requires segment.tree == old(segment.tree) && unchanged(segment.tree)
      requires segment.mem == old(segment.mem)[segment.Local(index) := bitfield[..]]
      requires forall p :: p in segment.pages && p != null && p != this ==> unchanged(p.bitfield)
      ensures segment.Linked()
    {
      var q := segment.Local(index);
      forall r | 0 <= r < PAGES_PER_SEGMENT ensures segment.PageOk(r) {
        assert old(segment.PageOk(r));
      }
    }

    /** `RemoteBitfieldPage.setRange`: the refresh loop runs up to block
        `floor(start / 128) + ceil(length / 128)`, which may lie past the page or the segment. */
    method SetRange(start: nat, length: nat, val: bool)
      requires segment.Valid() && Mine() && start + length <= BITS_PER_PAGE
      modifies bitfield, segment.tree, segment`mem
      ensures segment.Valid() && segment.tree.chunks == old(segment.tree.chunks)
      ensures Members(segment.mem) == old(Overwrite(Members(segment.mem), Base() + start, length, val))
    {
      ghost var q := segment.Local(this.index);
      assert segment.PageOk(q);
      Fill(bitfield, val, start, start + length);
      segment.mem := segment.mem[q := bitfield[..]];
      forall p | p in segment.pages && p != null && p != this ensures unchanged(p.bitfield) {
        var r :| 0 <= r < PAGES_PER_SEGMENT && segment.pages[r] == p;
        assert old(segment.PageOk(r));
      }
      Rewritten();
      PageOverwrite(old(segment.mem), q, bitfield[..], start, length, val);
      RefreshBlocks(start, length, val, old(Members(segment.mem)));
    }

    /** The loop that refreshes the index after `SetRange`. */
    method RefreshBlocks(start: nat, length: nat, ghost val: bool, ghost before: iset<nat>)
      requires segment.Linked() && Mine() && start + length <= BITS_PER_PAGE
      requires AllFlagsTrue(before, segment.tree.allZero, segment.tree.allOne)
      requires Members(segment.mem) == Overwrite(before, Base() + start, length, val)
      modifies segment.tree
      ensures segment.Valid() && segment.tree.chunks == old(segment.tree.chunks)
    {
      segment.ChunksShowMemory();
      assert segment.PageOk(segment.Local(index));
      ghost var base := 256 * segment.Local(index);
      ghost var lo, n := base + start / 128, (length + 127) / 128 + 1;
      ghost var ones := Members(segment.mem);
      RefreshLoop(start, length, base);
      assert Members(segment.mem) == ones;
      Refreshed(before, ones, Base() + start, length, val, lo, lo + n,
        old(segment.tree.allZero), old(segment.tree.allOne), segment.tree.allZero, segment.tree.allOne);
      Reflagged();
    }

    /** The loop; the page's first block is number `base`. */
    method RefreshLoop(start: nat, length: nat, ghost base: nat)
      requires segment.tree.Wf() && offset * 8 == BITS_PER_BLOCK * base
      modifies segment.tree
      ensures segment.tree.Wf() && segment.tree.chunks == old(segment.tree.chunks)
      ensures Ones(segment.tree.chunks) == old(Ones(segment.tree.chunks))
      ensures var lo, n := base + start / 128, (length + 127) / 128 + 1;
        && FlagsIn(Ones(segment.tree.chunks), segment.tree.allZero, segment.tree.allOne, lo, lo + n)
        && forall d :: 0 <= d < BLOCKS_PER_SEGMENT && !(lo <= d < lo + n) ==>
             && segment.tree.allZero[d] == old(segment.tree.allZero[d])
             && segment.tree.allOne[d] == old(segment.tree.allOne[d])
    {
      ghost var ones := Ones(segment.tree.chunks);
      var i := start / 128;
      var n := i + (length + 127) / 128;
      while i <= n
        modifies segment.tree
        invariant start / 128 <= i <= n + 1
        invariant segment.tree.Wf() && segment.tree.chunks == old(segment.tree.chunks)
        invariant Ones(segment.tree.chunks) == ones
        invariant forall d :: 0 <= d < BLOCKS_PER_SEGMENT && !(base + start / 128 <= d < base + i) ==>
          && segment.tree.allZero[d] == old(segment.tree.allZero[d])
          && segment.tree.allOne[d] == old(segment.tree.allOne[d])
        invariant FlagsIn(ones, segment.tree.allZero, segment.tree.allOne, base + start / 128, base + i)
      {
        assert (offset * 8 + i * 128) / BITS_PER_BLOCK == base + i;
        ghost var zero, one := segment.tree.allZero, segment.tree.allOne;
        segment.tree.Update(offset * 8 + i * 128);
        FlagsMore(ones, zero, one, segment.tree.allZero, segment.tree.allOne, base + start / 128, base + i);
        i := i + 1;
      }
    }

    /** New flags in the index leave the structure linked. */
    twostate lemma Reflagged()
      requires old(segment.Linked()) && unchanged(segment) && segment.tree.chunks == old(segment.tree.chunks)
      requires segment.tree.Wf() && forall p :: p in segment.pages && p != null ==> unchanged(p.bitfield)
      ensures segment.Linked()
    {
      forall r | 0 <= r < PAGES_PER_SEGMENT ensures segment.PageOk(r) {
        assert old(segment.PageOk(r));
      }
    }

    /** `RemoteBitfieldPage.insert`: copy words in and rebuild the whole index. */
    method Insert(start: nat, words: seq<word>)
      requires segment.Valid() && Mine() && start % 32 == 0 && start + 32 * |words| <= BITS_PER_PAGE
      modifies bitfield, segment`tree, segment`mem
      ensures segment.Valid() && segment.tree.chunks == old(segment.tree.chunks) && fresh(segment.tree)
      ensures Members(segment.mem) == Write(old(Members(segment.mem)), Base() + start, words)
    {
      ghost var q := segment.Local(index);
      assert segment.PageOk(q);
      CopyWords(bitfield, words, start);
      segment.mem := segment.mem[q := bitfield[..]];
      forall p | p in segment.pages && p != null && p != this ensures unchanged(p.bitfield) {
        var r :| 0 <= r < PAGES_PER_SEGMENT && segment.pages[r] == p;
        assert old(segment.PageOk(r));
      }
      Rewritten();
      PageWrite(old(segment.mem), q, bitfield[..], start, words);
      segment.ChunksShowMemory();
      segment.Refresh();
    }

    method Set(index: nat, val: bool)
      requires segment.Valid() && Mine() && index < BITS_PER_PAGE
      modifies bitfield, segment.tree, segment`mem
      ensures segment.Valid() && segment.tree.chunks == old(segment.tree.chunks)
      ensures Members(segment.mem) == old(Overwrite(Members(segment.mem), Base() + index, 1, val))
    {
      ghost var q := segment.Local(this.index);
      assert segment.PageOk(q);
      var changed := SetBit(bitfield, index, val);
      segment.mem := segment.mem[q := bitfield[..]];
      forall p | p in segment.pages && p != null && p != this ensures unchanged(p.bitfield) {
        var r :| 0 <= r < PAGES_PER_SEGMENT && segment.pages[r] == p;
        assert old(segment.PageOk(r));
      }
      Rewritten();
      PageOverwrite(old(segment.mem), q, bitfield[..], index, 1, val);
      if changed {
        RefreshBit(index, val, old(Members(segment.mem)));
      } else {
        assert old(segment.PageOk(q)) && bitfield[..] == old(bitfield[..]);
        assert segment.mem == old(segment.mem);
      }
    }

    /** The index is refreshed where a bit has changed. */
    method RefreshBit(index: nat, ghost val: bool, ghost before: iset<nat>)
      requires segment.Linked() && Mine() && index < BITS_PER_PAGE
      requires AllFlagsTrue(before, segment.tree.allZero, segment.tree.allOne)
      requires Members(segment.mem) == Overwrite(before, Base() + index, 1, val)
      modifies segment.tree
      ensures segment.Valid() && segment.tree.chunks == old(segment.tree.chunks)
    {
      segment.ChunksShowMemory();
      assert segment.PageOk(segment.Local(this.index));
      segment.tree.Update(offset * 8 + index);
      ghost var b := (offset * 8 + index) / BITS_PER_BLOCK;
      Refreshed(before, Members(segment.mem), Base() + index, 1, val, b, b + 1,
        old(segment.tree.allZero), old(segment.tree.allOne), segment.tree.allZero, segment.tree.allOne);
      Reflagged();
    }
  }

  class RemoteBitfieldSegment {
    const index: nat
    const offset: nat
    var tree: SparseIndex
    var pages: seq<RemoteBitfieldPage?>
    var pagesLength: nat
    ghost var mem: Memory

    constructor (index: nat)
      ensures this.index == index && Valid() && fresh(tree)
      ensures pages == seq(PAGES_PER_SEGMENT, _ => null) && pagesLength == 0
      ensures Members(mem) == iset{} && tree.chunks == []
    {
      this.index := index;
      this.offset := index * PAGES_PER_SEGMENT * BYTES_PER_PAGE;
      var t := new SparseIndex.From([]);
      assert Ones(t.chunks) == iset{} && AllFlagsTrue(iset{}, t.allZero, t.allOne);
      tree := t;
      pages := seq(PAGES_PER_SEGMENT, _ => null);
      pagesLength := 0;
      mem := seq(PAGES_PER_SEGMENT, _ => []);
      new;
      assert Members(mem) == iset{};
    }

    /** The number of page `page` inside its segment. */
    function Local(page: nat): int { page - PAGES_PER_SEGMENT * index }

    predicate Owns(page: nat) { 0 <= Local(page) < PAGES_PER_SEGMENT }

    ghost function Memories(): set<object>
      reads this
    {
      set p | p in pages && p != null :: p.bitfield
    }

    /** Page `q`, if present, sits where its number says and has one chunk, over the same memory. */
    ghost predicate PageOk(q: nat)
      requires q < |pages| == |mem|
      reads this, tree, if pages[q] == null then {} else {pages[q].bitfield}
    {
      if pages[q] == null then mem[q] == []
      else
        && pages[q].segment == this
        && Local(pages[q].index) == q
        && pages[q].offset == BYTES_PER_PAGE * q
        && pages[q].bitfield.Length == BITS_PER_PAGE
        && mem[q] == pages[q].bitfield[..]
        && Chunk(pages[q].bitfield, BYTES_PER_PAGE * q) in tree.chunks
    }

    /** Every chunk is the memory of the page at its offset. */
    ghost predicate ChunksOk()
      requires |pages| == PAGES_PER_SEGMENT && tree.Wf()
      reads this, tree
    {
      forall c :: c in tree.chunks ==> var q := c.offset / BYTES_PER_PAGE;
        pages[q] != null && pages[q].bitfield == c.field
    }

    /** `pagesLength` is one more than the last page present. */
    ghost predicate LengthOk()
      requires |pages| == PAGES_PER_SEGMENT
      reads this
    {
      && pagesLength <= PAGES_PER_SEGMENT
      && (forall q :: pagesLength <= q < PAGES_PER_SEGMENT ==> pages[q] == null)
      && (pagesLength > 0 ==> pages[pagesLength - 1] != null)
    }

    ghost predicate Distinct()
      reads this
    {
      forall q, r :: 0 <= q < r < |pages| && pages[q] != null && pages[r] != null ==>
        pages[q].bitfield != pages[r].bitfield
    }

    /** Everything but the truth of the index. */
    ghost predicate Linked()
      reads this, tree, Memories()
    {
      && offset == index * PAGES_PER_SEGMENT * BYTES_PER_PAGE
      && |pages| == |mem| == PAGES_PER_SEGMENT
      && tree.Wf() && ChunksOk() && LengthOk() && Distinct()
      && (forall q :: 0 <= q < PAGES_PER_SEGMENT ==> PageOk(q))
    }

    ghost predicate Valid()
      reads this, tree, Memories()
    {
      Linked() && AllFlagsTrue(Members(mem), tree.allZero, tree.allOne)
    }

    /** What the index reads through the chunks is what the pages hold. */
    lemma ChunksShowMemory()
      requires Linked()
      ensures Ones(tree.chunks) == Members(mem)
    {
      forall x: nat
        ensures x in Members(mem) <==> x in Ones(tree.chunks)
      {
        var q := x / BITS_PER_PAGE;
        var k := Select(tree.chunks, x);
        if q < PAGES_PER_SEGMENT && PageOk(q) && pages[q] != null {
          SelectUnique(tree.chunks, Chunk(pages[q].bitfield, BYTES_PER_PAGE * q), x);
        }
        if k != -1 {
          assert ChunkOk(tree.chunks[k]);
          assert tree.chunks[k] in tree.chunks && tree.chunks[k].offset == BYTES_PER_PAGE * q;
          assert PageOk(q) && tree.chunks[k].field == pages[q].bitfield;
          assert x - 8 * tree.chunks[k].offset == x % BITS_PER_PAGE;
        }
      }
    }

    /** What the chunks show of a stretch, the pages show. */
    lemma NoneOnPages(lo: nat, hi: nat, val: bool)
      requires Linked() && hi <= BITS_PER_SEGMENT
      requires forall x :: lo <= x < hi ==> (x in Ones(tree.chunks)) == !val
      ensures forall x :: lo <= x < hi ==> Member(mem, x) != val
    {
      ChunksShowMemory();
      forall x | lo <= x < hi ensures Member(mem, x) != val {
        assert (x in Members(mem)) == !val;
      }
    }

    /** Skipping in the index is skipping on the pages. */
    method SkipFirst(val: bool, position: nat) returns (p: nat)
      requires Valid() && position < BITS_PER_SEGMENT
      ensures position <= p <= BITS_PER_SEGMENT && forall x :: position <= x < p ==> Member(mem, x) != val
    {
      ChunksShowMemory();
      p := tree.SkipFirst(!val, position);
      NoneOnPages(position, p, val);
    }

    method SkipLast(val: bool, position: nat) returns (p: int)
      requires Valid() && position < BITS_PER_SEGMENT
      ensures -1 <= p <= position && forall x :: p < x <= position ==> Member(mem, x) != val
    {
      ChunksShowMemory();
      p := tree.SkipLast(!val, position);
      NoneOnPages(p + 1, position + 1, val);
    }

    /** `RemoteBitfieldSegment.findFirst`: pages from `pagesLength` on are not looked at. */
    method FindFirst(val: bool, position: nat) returns (r: int)
      requires Valid() && position < BITS_PER_SEGMENT
      ensures r == -1 || position <= r < BITS_PER_PAGE * pagesLength
      ensures r == -1 ==> forall x :: position <= x < BITS_PER_PAGE * pagesLength ==> Member(mem, x) != val
      ensures r != -1 ==> Member(mem, r) == val && forall x :: position <= x < r ==> Member(mem, x) != val
    {
      var p := SkipFirst(val, position);
      var j := p % BITS_PER_PAGE;
      var i := p / BITS_PER_PAGE;
      if i >= PAGES_PER_SEGMENT { return -1; }
      while i < pagesLength
        invariant 0 <= j < BITS_PER_PAGE && position <= BITS_PER_PAGE * i + j
        invariant forall x :: position <= x < BITS_PER_PAGE * i + j ==> Member(mem, x) != val
      {
        assert PageOk(i);
        var index := -1;
        if pages[i] != null {
          index := Quickbit.FindFirst(pages[i].bitfield, val, j);
        } else if !val {
          index := j;
        }
        if index != -1 {
          NothingBefore(mem, i, j, index, val);
          return BITS_PER_PAGE * i + index;
        }
        NothingBefore(mem, i, j, BITS_PER_PAGE, val);
        j := 0;
        i := i + 1;
      }
      return -1;
    }

    /** `RemoteBitfieldSegment.findLast`. */
    method FindLast(val: bool, position: nat) returns (r: int)
      requires Valid() && position < BITS_PER_SEGMENT
      ensures -1 <= r <= position
      ensures forall x :: r < x <= position ==> Member(mem, x) != val
      ensures r != -1 ==> Member(mem, r) == val
    {
      var p := SkipLast(val, position);
      var j := p % BITS_PER_PAGE;
      var i := (p - j) / BITS_PER_PAGE;
      while i >= 0
        invariant 0 <= j < BITS_PER_PAGE && -1 <= i < PAGES_PER_SEGMENT && BITS_PER_PAGE * i + j <= position
        invariant forall x: nat :: BITS_PER_PAGE * i + j < x <= position ==> Member(mem, x) != val
      {
        assert PageOk(i);
        var index := -1;
        if pages[i] != null {
          index := Quickbit.FindLast(pages[i].bitfield, val, j);
        } else if !val {
          index := j;
        }
        NothingAfter(mem, i, j, index, val);
        if index != -1 {
          return BITS_PER_PAGE * i + index;
        }
        j := BITS_PER_PAGE - 1;
        i := i - 1;
      }
      return -1;
    }

    /** Rebuild the index from the chunks. */
    method Refresh()
      requires Linked()
      modifies this`tree
      ensures Valid() && tree.chunks == old(tree.chunks) && fresh(tree)
    {
      var t := new SparseIndex.From(tree.chunks);
      ChunksShowMemory();
      tree := t;
      forall r | 0 <= r < PAGES_PER_SEGMENT ensures PageOk(r) {
        assert old(PageOk(r));
      }
    }

    method Add(page: RemoteBitfieldPage)
      requires Valid() && Owns(page.index) && pages[Local(page.index)] == null
      requires page.segment == this && page.bitfield.Length == BITS_PER_PAGE
      requires page.offset == BYTES_PER_PAGE * Local(page.index)
      requires forall k :: 0 <= k < BITS_PER_PAGE ==> !page.bitfield[k]
      requires page.bitfield !in Memories()
      modifies this, tree
      ensures Valid() && tree == old(tree)
      ensures pages == old(pages)[Local(page.index) := page]
      ensures pagesLength == if Local(page.index) < old(pagesLength) then old(pagesLength) else Local(page.index) + 1
      ensures Members(mem) == old(Members(mem))
    {
      var pageIndex := Local(page.index);
      NotYetThere(page);
      if pageIndex >= pagesLength { pagesLength := pageIndex + 1; }
      pages := pages[pageIndex := page];
      mem := mem[pageIndex := page.bitfield[..]];
      Place(Chunk(page.bitfield, page.offset));
      ZeroPage(old(mem), pageIndex, page.bitfield[..]);
      Added(page);
    }

    /** A page that is missing has no memory and no chunk. */
    lemma NotYetThere(page: RemoteBitfieldPage)
      requires Valid() && Owns(page.index) && pages[Local(page.index)] == null
      ensures mem[Local(page.index)] == []
      ensures forall c :: c in tree.chunks ==> c.offset != BYTES_PER_PAGE * Local(page.index)
    {
      assert PageOk(Local(page.index));
    }

    /** A page, its chunk and its memory fit in where there was none. */
    twostate lemma Added(page: RemoteBitfieldPage)
      requires old(Valid()) && Owns(page.index) && old(pages)[Local(page.index)] == null
      requires page.segment == this && page.bitfield.Length == BITS_PER_PAGE
      requires page.offset == BYTES_PER_PAGE * Local(page.index) && page.bitfield !in old(Memories())
      requires tree == old(tree) && pages == old(pages)[Local(page.index) := page]
      requires mem == old(mem)[Local(page.index) := page.bitfield[..]]
      requires pagesLength == if Local(page.index) < old(pagesLength) then old(pagesLength) else Local(page.index) + 1
      requires tree.Wf()
      requires forall c :: c in tree.chunks <==> c == Chunk(page.bitfield, page.offset) || c in old(tree.chunks)
      requires forall p :: p in old(pages) && p != null ==> unchanged(p.bitfield)
      ensures Linked()
    {
      assert forall q :: 0 <= q < PAGES_PER_SEGMENT && old(pages[q]) != null ==>
        old(pages)[q].bitfield in old(Memories());
      forall q | 0 <= q < PAGES_PER_SEGMENT ensures PageOk(q) {
        assert old(PageOk(q));
      }
    }

    /** Append a chunk, then sink it to its place by offset. */
    method Place(chunk: Chunk)
      requires tree.Wf() && ChunkOk(chunk) && forall c :: c in tree.chunks ==> c.offset != chunk.offset
      modifies tree
      ensures tree.Wf() && tree.allZero == old(tree.allZero) && tree.allOne == old(tree.allOne)
      ensures forall c :: c in tree.chunks <==> c == chunk || c in old(tree.chunks)
    {
      ghost var before := tree.chunks;
      tree.chunks := tree.chunks + [chunk];
      var i := |tree.chunks| - 2;
      while i >= 0
        modifies tree`chunks
        invariant -1 <= i < |before|
        invariant tree.chunks == Inserted(before, i + 1, chunk)
        invariant forall j :: i < j < |before| ==> before[j].offset > chunk.offset
      {
        var prev := tree.chunks[i];
        if prev.offset <= chunk.offset { break; }
        tree.chunks := tree.chunks[i := chunk][i + 1 := prev];
        i := i - 1;
      }
      InsertedIncreasing(before, chunk, i + 1);
      InsertedMembers(before, i + 1, chunk);
    }
  }

  /** Reading a page at an offset is reading the segment at the page's start plus that offset. */
  lemma MemberInPage(mem: Memory, q: nat, j: nat)
    requires q < |mem| && j < BITS_PER_PAGE
    ensures Member(mem, BITS_PER_PAGE * q + j) == PageBit(mem[q], j)
  {
  }

  /** A search forward in one page, told in positions of the segment. */
  lemma NothingBefore(mem: Memory, q: nat, from: nat, to: nat, val: bool)
    requires q < |mem| && from <= to <= BITS_PER_PAGE
    requires forall k :: from <= k < to ==> PageBit(mem[q], k) != val
    ensures forall x :: BITS_PER_PAGE * q + from <= x < BITS_PER_PAGE * q + to ==> Member(mem, x) != val
  {
    forall x | BITS_PER_PAGE * q + from <= x < BITS_PER_PAGE * q + to ensures Member(mem, x) != val {
      var j := x - BITS_PER_PAGE * q;
      MemberInPage(mem, q, j);
      assert PageBit(mem[q], j) != val;
    }
  }

  /** A search backward in one page, told in positions of the segment. */
  lemma NothingAfter(mem: Memory, q: nat, from: nat, to: int, val: bool)
    requires q < |mem| && -1 <= to <= from < BITS_PER_PAGE
    requires forall k :: to < k <= from ==> PageBit(mem[q], k) != val
    ensures forall x :: BITS_PER_PAGE * q + to < x <= BITS_PER_PAGE * q + from ==> Member(mem, x) != val
  {
    NothingBefore(mem, q, to + 1, from + 1, val);
  }

  /** Overwriting part of a page overwrites that part of the segment. */
  lemma PageOverwrite(mem: Memory, q: nat, page: seq<bool>, start: nat, length: nat, val: bool)
    requires q < |mem| && |mem[q]| == |page| == BITS_PER_PAGE && start + length <= BITS_PER_PAGE
    requires forall k :: 0 <= k < |page| ==> page[k] == if start <= k < start + length then val else mem[q][k]
    ensures Members(mem[q := page]) == Overwrite(Members(mem), BITS_PER_PAGE * q + start, length, val)
  {
  }

  lemma PageWrite(mem: Memory, q: nat, page: seq<bool>, start: nat, words: seq<word>)
    requires q < |mem| && |mem[q]| == |page| == BITS_PER_PAGE && start + 32 * |words| <= BITS_PER_PAGE
    requires forall k :: 0 <= k < |page| ==>
      page[k] == if start <= k < start + 32 * |words| then WordBit(words, k - start) else mem[q][k]
    ensures Members(mem[q := page]) == Write(Members(mem), BITS_PER_PAGE * q + start, words)
  {
  }

  /** A block the overwritten range does not meet keeps the truth of its flags. */
  lemma UntouchedBlock(ones: iset<nat>, start: nat, length: nat, val: bool, b: nat, zero: bool, one: bool)
    requires FlagsTrue(ones, b, zero, one)
    requires BITS_PER_BLOCK * (b + 1) <= start || start + length <= BITS_PER_BLOCK * b
    ensures FlagsTrue(Overwrite(ones, start, length, val), b, zero, one)
  {
    var ones' := Overwrite(ones, start, length, val);
    assert forall x: nat :: BITS_PER_BLOCK * b <= x < BITS_PER_BLOCK * (b + 1) ==> (x in ones' <==> x in ones);
    assert forall v :: AllOf(ones', b, v) == AllOf(ones, b, v);
  }

  /** The flags of the blocks `[lo, hi)` are true, as far as there are such blocks. */
  ghost predicate FlagsIn(ones: iset<nat>, zero: seq<bool>, one: seq<bool>, lo: nat, hi: nat)
    requires |zero| == |one|
  {
    forall d :: 0 <= d < |zero| && lo <= d < hi ==> FlagsTrue(ones, d, zero[d], one[d])
  }

  lemma FlagsMore(ones: iset<nat>, zero: seq<bool>, one: seq<bool>, zero': seq<bool>, one': seq<bool>, lo: nat, hi: nat)
    requires |zero| == |one| == |zero'| == |one'| && FlagsIn(ones, zero, one, lo, hi)
    requires hi < |zero| ==> FlagsTrue(ones, hi, zero'[hi], one'[hi])
    requires forall d :: 0 <= d < |zero| && d != hi ==> zero'[d] == zero[d] && one'[d] == one[d]
    ensures FlagsIn(ones, zero', one', lo, hi + 1)
  {
  }

  /** Flags refreshed over blocks `[lo, hi)`, which hold the whole range overwritten, are all true again. */
  lemma Refreshed(before: iset<nat>, after: iset<nat>, start: nat, length: nat, val: bool, lo: nat, hi: nat,
                  zero: seq<bool>, one: seq<bool>, zero': seq<bool>, one': seq<bool>)
    requires after == Overwrite(before, start, length, val)
    requires |zero| == |one| == |zero'| == |one'| && AllFlagsTrue(before, zero, one)
    requires BITS_PER_BLOCK * lo <= start && start + length <= BITS_PER_BLOCK * hi
    requires forall d :: 0 <= d < |zero| && !(lo <= d < hi) ==> zero'[d] == zero[d] && one'[d] == one[d]
    requires FlagsIn(after, zero', one', lo, hi)
    ensures AllFlagsTrue(after, zero', one')
  {
    forall d | 0 <= d < |zero| && !(lo <= d < hi) ensures FlagsTrue(after, d, zero'[d], one'[d])
    {
      UntouchedBlock(before, start, length, val, d, zero[d], one[d]);
    }
  }

  /** Allocating an all-zero page changes no bit. */
  lemma ZeroPage(mem: Memory, q: nat, page: seq<bool>)
    requires q < |mem| && mem[q] == [] && forall k :: 0 <= k < |page| ==> !page[k]
    ensures Members(mem[q := page]) == Members(mem)
  {
  }

  /** The pages that `[start, start + length)` meets. */
  ghost function PagesMet(start: nat, length: int): set<nat>
  {
    set i: nat | i < start + length && Meets(start, length, i)
  }

  predicate Meets(start: nat, length: int, i: nat)
  {
    length > 0 && start / BITS_PER_PAGE <= i <= (start + length - 1) / BITS_PER_PAGE
  }

  /** One more page's share extends the pages met by that page. */
  lemma PagesMetGrow(start: nat, done: nat, range: nat, i: nat, j: nat)
    requires range > 0 && j + range <= BITS_PER_PAGE && BITS_PER_PAGE * i + j == start + done && (done > 0 ==> j == 0)
    ensures PagesMet(start, done + range) == PagesMet(start, done) + {i}
  {
    assert (start + done + range - 1) / BITS_PER_PAGE == i;
    assert done == 0 ==> start / BITS_PER_PAGE == i;
    assert done > 0 ==> (start + done - 1) / BITS_PER_PAGE == i - 1;
    forall h: nat ensures Meets(start, done + range, h) <==> Meets(start, done, h) || h == i {
    }
    forall h: nat ensures h in PagesMet(start, done + range) <==> h in PagesMet(start, done) + {i} {
    }
  }

  lemma OverwriteJoin(bits: iset<nat>, start: nat, m: nat, n: nat, val: bool)
    ensures Overwrite(Overwrite(bits, start, m, val), start + m, n, val) == Overwrite(bits, start, m + n, val)
  {
  }

  /** The segments of some pages. */
  ghost function SegmentsOf(pages: set<nat>): set<nat>
  {
    set i | i in pages :: i / PAGES_PER_SEGMENT
  }

  /** What a client can tell of a bitfield: its bits, and which pages and segments there are. */
  datatype Shape = Shape(bits: iset<nat>, pages: set<nat>, segments: set<nat>)

  /** Some pages were allocated, with their segments. */
  ghost predicate Allocated(s: Shape, s': Shape, pages: set<nat>)
  {
    s'.pages == s.pages + pages && s'.segments == s.segments + SegmentsOf(pages)
  }

  /** The pages a range operation allocates: none to clear. */
  ghost function PagesWanted(start: nat, length: int, val: bool): set<nat>
  {
    if val then PagesMet(start, length) else {}
  }

  /** Which pages a range needs: none to clear it, and to set it those that hold some position of it. */
  lemma PagesTouched(start: nat, length: int, val: bool, i: nat)
    ensures i in PagesWanted(start, length, val) <==>
      val && exists x: nat :: start <= x < start + length && x / 32768 == i
  {
    if x: nat :| start <= x < start + length && x / 32768 == i { assert Meets(start, length, i); }
    if length > 0 && Meets(start, length, i) {
      var x := if start >= 32768 * i then start else 32768 * i;
      assert start <= x < start + length && x / 32768 == i;
    }
  }

  /** A range was overwritten; where it was set, its pages were allocated. */
  ghost predicate RangeSet(s: Shape, s': Shape, start: nat, length: int, val: bool)
  {
    s'.bits == Overwrite(s.bits, start, length, val) && Allocated(s, s', PagesWanted(start, length, val))
  }

  /** Words were written; all their pages were allocated. */
  ghost predicate WordsSet(s: Shape, s': Shape, start: nat, words: seq<word>)
  {
    s'.bits == Write(s.bits, start, words) && Allocated(s, s', PagesMet(start, 32 * |words|))
  }

  lemma AllocatedMore(s: Shape, s0: Shape, s1: Shape, a: set<nat>, b: set<nat>, ab: set<nat>)
    requires Allocated(s, s0, a) && Allocated(s0, s1, b) && ab == a + b
    ensures Allocated(s, s1, ab)
  {
    assert SegmentsOf(ab) == SegmentsOf(a) + SegmentsOf(b);
  }

  lemma NothingAllocated(s: Shape)
    ensures Allocated(s, s, {})
  {
    assert SegmentsOf({}) == {};
  }

  lemma NothingSet(s: Shape, start: nat, length: int, val: bool)
    requires length <= 0
    ensures RangeSet(s, s, start, length, val)
  {
    assert PagesWanted(start, length, val) == {};
    NothingAllocated(s);
  }

  lemma NoWords(s: Shape, start: nat)
    ensures WordsSet(s, s, start, [])
  {
    assert PagesMet(start, 0) == {};
    NothingAllocated(s);
  }

  /** `done` positions of a range were set. */
  ghost predicate SetSoFar(s: Shape, s': Shape, start: nat, done: nat, val: bool)
  {
    if done == 0 then s' == s else RangeSet(s, s', start, done, val)
  }

  lemma RangeDone(s: Shape, s': Shape, start: nat, length: int, done: nat, left: int, val: bool)
    requires SetSoFar(s, s', start, done, val) && left == length - done && left <= 0 && (done > 0 ==> left >= 0)
    ensures RangeSet(s, s', start, length, val)
  {
    if length <= 0 { NothingSet(s, start, length, val); }
  }

  lemma OnePageMet(i: nat, j: nat, at: nat, length: nat)
    requires length > 0 && j + length <= BITS_PER_PAGE && at == BITS_PER_PAGE * i + j
    ensures PagesMet(at, length) == {i}
  {
    PagesMetGrow(at, 0, length, i, j);
    assert PagesMet(at, 0) == {};
  }

  lemma PagesWantedGrow(start: nat, done: nat, next: nat, at: nat, range: nat, i: nat, j: nat, val: bool)
    requires range > 0 && next == done + range && j + range <= BITS_PER_PAGE
    requires at == BITS_PER_PAGE * i + j == start + done && (done > 0 ==> j == 0)
    ensures PagesWanted(start, next, val) == PagesWanted(start, done, val) + PagesWanted(at, range, val)
  {
    PagesMetGrow(start, done, range, i, j);
    OnePageMet(i, j, at, range);
  }

  /** One turn of the loop of `RemoteBitfield.SetRange`, on values: `done` positions of the range were set
      before, and `next` are now. */
  lemma SetRangeTurn(s: Shape, s0: Shape, s1: Shape, start: nat, done: nat, next: nat, at: nat, range: nat, i: nat,
    j: nat, val: bool)
    requires range > 0 && next == done + range && j + range <= BITS_PER_PAGE
    requires at == BITS_PER_PAGE * i + j == start + done && (done > 0 ==> j == 0)
    requires RangeSet(s, s0, start, done, val) && RangeSet(s0, s1, at, range, val)
    ensures RangeSet(s, s1, start, next, val)
  {
    OverwriteJoin(s.bits, start, done, range, val);
    PagesWantedGrow(start, done, next, at, range, i, j, val);
    AllocatedMore(s, s0, s1, PagesWanted(start, done, val), PagesWanted(at, range, val), PagesWanted(start, next, val));
  }

  /** One turn of the loop of `RemoteBitfield.Insert`, on values: the words `a` were written before, and `b`
      are now. */
  lemma InsertTurn(s: Shape, s0: Shape, s1: Shape, start: nat, a: seq<word>, b: seq<word>, ab: seq<word>, at: nat,
    i: nat, j: nat)
    requires b != [] && ab == a + b && j + 32 * |b| <= BITS_PER_PAGE
    requires at == BITS_PER_PAGE * i + j == start + 32 * |a| && (a != [] ==> j == 0)
    requires WordsSet(s, s0, start, a) && WordsSet(s0, s1, at, b)
    ensures WordsSet(s, s1, start, ab)
  {
    WriteJoin(s.bits, start, a, b);
    WordPagesGrow(start, a, b, ab, at, i, j);
    AllocatedMore(s, s0, s1, PagesMet(start, 32 * |a|), PagesMet(at, 32 * |b|), PagesMet(start, 32 * |ab|));
  }

  lemma WordPagesGrow(start: nat, a: seq<word>, b: seq<word>, ab: seq<word>, at: nat, i: nat, j: nat)
    requires b != [] && ab == a + b && j + 32 * |b| <= BITS_PER_PAGE
    requires at == BITS_PER_PAGE * i + j == start + 32 * |a| && (a != [] ==> j == 0)
    ensures PagesMet(start, 32 * |ab|) == PagesMet(start, 32 * |a|) + PagesMet(at, 32 * |b|)
  {
    PagesMetGrow(start, 32 * |a|, 32 * |b|, i, j);
    OnePageMet(i, j, at, 32 * |b|);
  }

  lemma WordBitJoin(a: seq<word>, b: seq<word>, k: nat)
    requires k < 32 * (|a| + |b|)
    ensures WordBit(a + b, k) == if k < 32 * |a| then WordBit(a, k) else WordBit(b, k - 32 * |a|)
  {
    var q, r := k / 32, k % 32;
    assert k == 32 * q + r;
    if q < |a| {
      assert (a + b)[q] == a[q];
    } else {
      assert (a + b)[q] == b[q - |a|];
      assert (k - 32 * |a|) / 32 == q - |a| && (k - 32 * |a|) % 32 == r;
    }
  }

  lemma WriteJoin(bits: iset<nat>, start: nat, a: seq<word>, b: seq<word>)
    ensures Write(Write(bits, start, a), start + 32 * |a|, b) == Write(bits, start, a + b)
  {
    forall x: nat
      ensures x in Write(Write(bits, start, a), start + 32 * |a|, b) <==> x in Write(bits, start, a + b)
    {
      if start <= x < start + 32 * |a + b| { WordBitJoin(a, b, x - start); }
    }
  }

  /** Below any unset position there is a first one. */
  lemma LeastUnset(bits: iset<nat>, from: nat, x: nat) returns (u: nat)
    requires from <= x && x !in bits
    ensures from <= u <= x && u !in bits && forall y :: from <= y < u ==> y in bits
    decreases x - from
  {
    if from !in bits { return from; }
    u := LeastUnset(bits, from + 1, x);
  }

  lemma ScanMeets(s: Reach, k: nat, j: nat) returns (u: nat)
    requires ReachOk(s) && ScanMeetsUnset(s, k, j) && j < BITS_PER_SEGMENT
    ensures BITS_PER_SEGMENT * k + j <= u && Seen(s, u) && u !in s.bits
    ensures forall x :: BITS_PER_SEGMENT * k + j <= x < u ==> x in s.bits
    decreases s.maxSegments - k
  {
    var q := BITS_PER_SEGMENT * k + j;
    if k !in s.limits {
      u := q;
    } else if UnsetListed(s, k, j) {
      var x :| q <= x < BITS_PER_SEGMENT * k + BITS_PER_PAGE * s.limits[k] && x !in s.bits;
      u := LeastUnset(s.bits, q, x);
    } else {
      u := ScanMeets(s, k + 1, 0);
    }
  }

  lemma ScanMisses(s: Reach, k: nat, j: nat, u: nat)
    requires ReachOk(s) && !ScanMeetsUnset(s, k, j) && j < BITS_PER_SEGMENT
    requires k in s.limits ==> j <= BITS_PER_PAGE * s.limits[k]
    requires BITS_PER_SEGMENT * k + j <= u && u !in s.bits
    requires forall x :: BITS_PER_SEGMENT * k + j <= x < u ==> x in s.bits
    ensures !Seen(s, u)
    decreases s.maxSegments - k
  {
    var q := BITS_PER_SEGMENT * k + j;
    if k >= s.maxSegments {
      assert !Seen(s, q);
      assert q !in s.bits;
    } else {
      var v := BITS_PER_SEGMENT * k + BITS_PER_PAGE * s.limits[k];
      assert u >= v;
      if s.limits[k] == PAGES_PER_SEGMENT {
        ScanMisses(s, k + 1, 0, u);
      } else {
        assert !Seen(s, v);
        assert u == v;
      }
    }
  }

  /** `firstUnset` returns the first unset position if and only if the scan is in one of the cases of
      `FirstUnsetRight`. */
  lemma FirstUnsetExact(s: Reach, position: nat, r: int)
    requires ReachOk(s) && FirstSeen(s, false, position, r)
    ensures IsFirst(s.bits, false, position, r) <==> FirstUnsetRight(s, position)
  {
    var k, j := position / BITS_PER_SEGMENT, position % BITS_PER_SEGMENT;
    if k >= s.maxSegments || k !in s.limits {
      assert position !in s.bits;
    } else if j >= BITS_PER_PAGE * s.limits[k] {
      assert !Seen(s, position) && position !in s.bits;
      NothingUnsetIsNothingSeen(s, position);
    } else if ScanMeetsUnset(s, k, j) {
      var u := ScanMeets(s, k, j);
      assert r == u;
    } else {
      assert position in s.bits;
      if IsFirst(s.bits, false, position, r) {
        ScanMisses(s, k, j, r);
      }
    }
  }

  /** Past the listed pages of its segment, nothing unset lies ahead of the scan exactly when every
      later segment is present and full as far as listed. */
  lemma NothingUnsetIsNothingSeen(s: Reach, position: nat)
    requires ReachOk(s)
    requires var k := position / BITS_PER_SEGMENT;
      k in s.limits && position % BITS_PER_SEGMENT >= BITS_PER_PAGE * s.limits[k]
    ensures NothingUnsetFrom(s, position / BITS_PER_SEGMENT + 1) <==>
      forall x :: position <= x && Seen(s, x) ==> x in s.bits
  {
    var k := position / BITS_PER_SEGMENT;
    if NothingUnsetFrom(s, k + 1) {
      forall x | position <= x && Seen(s, x) ensures x in s.bits {
        var h := x / BITS_PER_SEGMENT;
        assert h in s.limits && !UnsetListed(s, h, 0);
      }
    }
    if !NothingUnsetFrom(s, k + 1) {
      var h :| k + 1 <= h < s.maxSegments && !(h in s.limits && !UnsetListed(s, h, 0));
      var x := BITS_PER_SEGMENT * h;
      if h in s.limits {
        x :| BITS_PER_SEGMENT * h <= x < BITS_PER_SEGMENT * h + BITS_PER_PAGE * s.limits[h] && x !in s.bits;
      }
      assert position <= x && Seen(s, x) && x !in s.bits;
    }
  }

  /** One full page and nothing else: bit 32768 is the first unset one, yet the scan from 0 can only answer
      0, which is set. */
  lemma OneFullPage(s: Reach, r: int)
    requires s == Reach(Overwrite(iset{}, 0, BITS_PER_PAGE, true), map[0 := 1], 1)
    ensures FirstSeen(s, false, 0, r) <==> r == 0
    ensures 0 in s.bits && IsFirst(s.bits, false, 0, BITS_PER_PAGE)
  {
    assert 0 in s.bits;
  }

  /** Two sets, one `shift` positions up from the other, changed on matching ranges and alike there. */
  ghost predicate InStep(members: iset<nat>, members': iset<nat>, bits: iset<nat>, bits': iset<nat>, shift: nat,
    base: nat, length: nat)
  {
    && (forall x: nat :: x in members' <==> if base <= x < base + length then shift + x in bits' else x in members)
    && (forall y: nat :: shift + base <= y < shift + base + length || (y in bits' <==> y in bits))
  }

  lemma OverwriteInStep(members: iset<nat>, bits: iset<nat>, shift: nat, base: nat, length: nat, val: bool)
    ensures InStep(members, Overwrite(members, base, length, val), bits, Overwrite(bits, shift + base, length, val),
      shift, base, length)
  {
  }

  lemma WriteInStep(members: iset<nat>, bits: iset<nat>, shift: nat, base: nat, words: seq<word>)
    ensures InStep(members, Write(members, base, words), bits, Write(bits, shift + base, words), shift, base,
      32 * |words|)
  {
    forall x: nat | base <= x < base + 32 * |words|
      ensures x in Write(members, base, words) <==> shift + x in Write(bits, shift + base, words)
    {
      assert shift + x - (shift + base) == x - base;
    }
  }

  /** What decides a search: the set bits, the `pagesLength` of every segment, and `maxSegments`. */
  datatype Reach = Reach(bits: iset<nat>, limits: map<nat, nat>, maxSegments: nat)

  /** Does the forward scan look at position `x`? Pages from `pagesLength` on and segments from
      `maxSegments` on are skipped. */
  predicate Seen(s: Reach, x: nat)
  {
    var k := x / BITS_PER_SEGMENT;
    k < s.maxSegments && (k in s.limits ==> x % BITS_PER_SEGMENT < BITS_PER_PAGE * s.limits[k])
  }

  /** Set bits are seen, and no limit passes its segment. */
  ghost predicate ReachOk(s: Reach)
  {
    && (forall x :: x in s.bits ==> x / BITS_PER_SEGMENT in s.limits && Seen(s, x))
    && (forall k :: k in s.limits ==> k < s.maxSegments && s.limits[k] <= PAGES_PER_SEGMENT)
  }

  /** `r` is the least position at or after `position` with value `val`, or -1 when there is none. */
  ghost predicate IsFirst(bits: iset<nat>, val: bool, position: nat, r: int)
  {
    if r == -1 then forall x :: position <= x ==> (x in bits) != val
    else position <= r && (r in bits) == val && forall x :: position <= x < r ==> (x in bits) != val
  }

  /** `r` is the greatest position up to `position` with value `val`, or -1 when there is none. */
  ghost predicate IsLast(bits: iset<nat>, val: bool, position: nat, r: int)
  {
    -1 <= r <= position && (r != -1 ==> (r in bits) == val) && forall x: nat :: r < x <= position ==> (x in bits) != val
  }

  /** Is there an unset bit in the pages that segment `k` lists, from offset `j` on? */
  ghost predicate UnsetListed(s: Reach, k: nat, j: nat)
    requires k in s.limits
  {
    exists x :: BITS_PER_SEGMENT * k + j <= x < BITS_PER_SEGMENT * k + BITS_PER_PAGE * s.limits[k] && x !in s.bits
  }

  /** The scan over segments `k`, `k + 1`, ... meets the first unset bit before any unlisted page: each
      segment is either absent, or has an unset bit in its listed pages, or lists all 64 pages, all
      full, and hands over to the next. */
  ghost predicate ScanMeetsUnset(s: Reach, k: nat, j: nat)
    decreases s.maxSegments - k
  {
    k < s.maxSegments &&
    (k in s.limits ==> UnsetListed(s, k, j) || (s.limits[k] == PAGES_PER_SEGMENT && ScanMeetsUnset(s, k + 1, 0)))
  }

  /** From segment `k` on, every segment below `maxSegments` is present and full as far as listed. */
  ghost predicate NothingUnsetFrom(s: Reach, k: nat)
  {
    forall h :: k <= h < s.maxSegments ==> h in s.limits && !UnsetListed(s, h, 0)
  }

  /** When `firstUnset` answers right: the start's segment is absent or past the last one; or the start
      lies past the listed pages and the scan finds nothing further on; or the scan meets an unset bit
      before any unlisted page. */
  ghost predicate FirstUnsetRight(s: Reach, position: nat)
  {
    var k, j := position / BITS_PER_SEGMENT, position % BITS_PER_SEGMENT;
    if k >= s.maxSegments || k !in s.limits then true
    else if j >= BITS_PER_PAGE * s.limits[k] then NothingUnsetFrom(s, k + 1)
    else ScanMeetsUnset(s, k, j)
  }

  ghost predicate FirstSeen(s: Reach, val: bool, position: nat, r: int)
  {
    || (position <= r && Seen(s, r) && (r in s.bits) == val &&
        forall x :: position <= x < r && Seen(s, x) ==> (x in s.bits) != val)
    || (r == (if val then -1 else position) && forall x :: position <= x && Seen(s, x) ==> (x in s.bits) != val)
  }

  class RemoteBitfield {
    var pages: map<nat, RemoteBitfieldPage>
    var segments: map<nat, RemoteBitfieldSegment>
    var maxSegments: nat
    ghost var bits: iset<nat>
    ghost var Repr: set<object>

    /** What a client can tell. */
    ghost function Shown(): Shape
      reads this
    {
      Shape(bits, pages.Keys, segments.Keys)
    }

    /** Segment `k` is sound, lies in the footprint, and holds its share of the bits. */
    ghost predicate SegmentOk(k: nat)
      requires k in segments
      reads this, Repr
    {
      var s := segments[k];
      && s in Repr && s.tree in Repr && s.Memories() <= Repr
      && s.index == k < maxSegments
      && s.Valid()
      && forall x: nat :: x < BITS_PER_SEGMENT ==> (Member(s.mem, x) <==> BITS_PER_SEGMENT * k + x in bits)
    }

    ghost predicate Disjoint(k: nat, l: nat)
      requires k in segments && l in segments
      reads this, segments[k], segments[l]
    {
      segments[k] != segments[l] && segments[k].tree != segments[l].tree &&
        segments[k].Memories() !! segments[l].Memories()
    }

    /** The page table and the segments list the same pages. */
    ghost predicate PageOk(i: nat)
      reads this, Repr
    {
      if i in pages then
        var k := i / PAGES_PER_SEGMENT;
        && k in segments && segments[k] in Repr && |segments[k].pages| == PAGES_PER_SEGMENT
        && segments[k].pages[i % PAGES_PER_SEGMENT] == pages[i]
      else
        var k := i / PAGES_PER_SEGMENT;
        k in segments ==>
          segments[k] in Repr && |segments[k].pages| == PAGES_PER_SEGMENT &&
          segments[k].pages[i % PAGES_PER_SEGMENT] == null
    }

    ghost predicate SegmentsOk()
      reads this, Repr
    {
      forall k {:trigger SegmentOk(k)} :: k in segments ==> SegmentOk(k)
    }

    ghost predicate AllDisjoint()
      requires SegmentsOk()
      reads this, Repr
    {
      forall k, l {:trigger Disjoint(k, l)} :: k in segments && l in segments && k < l ==>
        SegmentOk(k) && SegmentOk(l) && Disjoint(k, l)
    }

    ghost predicate PagesOk()
      reads this, Repr
    {
      forall i: nat :: PageOk(i)
    }

    /** The table of segments: where bits can be, and one more than the last segment. */
    ghost predicate TableOk()
      reads this
    {
      && (forall x :: x in bits ==> x / BITS_PER_SEGMENT in segments)
      && (maxSegments > 0 ==> maxSegments - 1 in segments)
    }

    ghost predicate Valid()
      reads this, Repr
    {
      this in Repr && SegmentsOk() && AllDisjoint() && PagesOk() && TableOk()
    }

    constructor ()
      ensures Valid() && fresh(Repr) && bits == iset{} && pages == map[] && segments == map[]
    {
      pages := map[];
      segments := map[];
      maxSegments := 0;
      bits := iset{};
      Repr := {this};
    }

    function Get(index: nat): (r: bool)
      requires Valid()
      reads this, Repr
      ensures r == (index in bits)
    {
      var i, j := index / BITS_PER_PAGE, index % BITS_PER_PAGE;
      PageBitIsMember(index);
      i in pages && pages[i].Get(j)
    }

    /** Nothing outside segment `k` changed. */
    twostate predicate OnlyTouched(k: nat)
      reads *
    {
      && this in Repr && old(Repr) <= Repr && maxSegments >= old(maxSegments)
      && segments.Keys == old(segments.Keys) + {k}
      && (forall l :: l in old(segments) ==> segments[l] == old(segments[l]))
      && (forall l :: l in old(segments) && l != k ==> unchanged(segments[l]) && unchanged(segments[l].tree))
      && (forall l, o :: l in old(segments) && l != k && o in segments[l].Memories() ==> unchanged(o))
      && (forall x :: x / BITS_PER_SEGMENT != k ==> (x in bits <==> x in old(bits)))
      && (forall i: nat :: i / PAGES_PER_SEGMENT != k ==>
        (i in pages <==> i in old(pages)) && (i in pages ==> pages[i] == old(pages[i])))
    }

    twostate lemma SegmentsStillOk(k: nat)
      requires old(Valid()) && OnlyTouched(k) && SegmentOk(k)
      ensures SegmentsOk()
    {
      forall l | l in segments && l != k ensures SegmentOk(l) {
        assert old(SegmentOk(l));
      }
    }

    twostate lemma PagesStillOk(k: nat)
      requires old(Valid()) && OnlyTouched(k)
      requires forall i: nat :: i / PAGES_PER_SEGMENT == k ==> PageOk(i)
      ensures PagesOk()
    {
      forall i: nat | i / PAGES_PER_SEGMENT != k ensures PageOk(i) {
        assert old(PageOk(i));
      }
    }

    twostate lemma PairsStillOk(k: nat)
      requires old(Valid()) && OnlyTouched(k) && SegmentsOk()
      requires forall l :: l in segments && l != k ==> Disjoint(l, k)
      ensures AllDisjoint()
    {
      forall l, m | l in segments && m in segments && l < m ensures SegmentOk(l) && SegmentOk(m) && Disjoint(l, m) {
        if l != k && m != k {
          assert old(Disjoint(l, m));
        }
      }
    }

    twostate lemma TableStillOk(k: nat)
      requires old(Valid()) && OnlyTouched(k)
      requires maxSegments == if k < old(maxSegments) then old(maxSegments) else k + 1
      ensures TableOk()
    {
    }

    /** Validity again after a change to one segment, from facts about that segment alone. */
    twostate lemma Revalidate(k: nat)
      requires old(Valid()) && OnlyTouched(k) && SegmentOk(k)
      requires forall l :: l in segments && l != k ==> Disjoint(l, k)
      requires forall i: nat :: i / PAGES_PER_SEGMENT == k ==> PageOk(i)
      requires maxSegments == if k < old(maxSegments) then old(maxSegments) else k + 1
      ensures Valid()
    {
      SegmentsStillOk(k);
      PagesStillOk(k);
      PairsStillOk(k);
      TableStillOk(k);
    }

    method EnsureSegment(k: nat)
      requires Valid()
      modifies this
      ensures Valid() && fresh(Repr - old(Repr)) && k in segments
      ensures bits == old(bits) && pages == old(pages)
      ensures segments.Keys == old(segments.Keys) + {k}
    {
      if k in segments { return; }
      Footprints();
      NewSegment(k);
      EmptySegmentOk(k);
      NoPagesYet(k);
      Revalidate(k);
    }

    lemma Footprints()
      requires Valid()
      ensures forall l :: l in segments ==>
        segments[l] in Repr && segments[l].tree in Repr && segments[l].Memories() <= Repr
    {
      assert forall l :: l in segments ==> SegmentOk(l);
    }

    twostate lemma NoPagesYet(k: nat)
      requires old(Valid()) && k !in old(segments) && k in segments && pages == old(pages)
      requires segments[k] in Repr && segments[k].pages == seq(PAGES_PER_SEGMENT, _ => null)
      ensures forall i: nat :: i / PAGES_PER_SEGMENT == k ==> PageOk(i)
    {
      forall i: nat | i / PAGES_PER_SEGMENT == k ensures PageOk(i) {
        assert old(PageOk(i));
      }
    }

    method NewSegment(k: nat)
      requires k !in segments && this in Repr
      requires forall l :: l in segments ==>
        segments[l] in Repr && segments[l].tree in Repr && segments[l].Memories() <= Repr
      modifies this
      ensures bits == old(bits) && pages == old(pages)
      ensures k in segments && segments == old(segments)[k := segments[k]]
      ensures maxSegments == if k < old(maxSegments) then old(maxSegments) else k + 1
      ensures var s := segments[k];
        && s.index == k && s.Valid() && Members(s.mem) == iset{} && s.pages == seq(PAGES_PER_SEGMENT, _ => null)
        && fresh(s) && fresh(s.tree) && Repr == old(Repr) + {s, s.tree}
      ensures OnlyTouched(k)
    {
      var s := new RemoteBitfieldSegment(k);
      segments := segments[k := s];
      if maxSegments <= k { maxSegments := k + 1; }
      Repr := Repr + {s, s.tree};
    }

    lemma EmptySegmentOk(k: nat)
      requires k in segments && k < maxSegments
      requires var s := segments[k];
        s.index == k && s in Repr && s.tree in Repr && s.Memories() <= Repr && s.Valid() && Members(s.mem) == iset{}
      requires forall x :: x in bits ==> x / BITS_PER_SEGMENT != k
      ensures SegmentOk(k)
    {
      var s := segments[k];
      forall x: nat | x < BITS_PER_SEGMENT ensures !Member(s.mem, x) && BITS_PER_SEGMENT * k + x !in bits {
        assert x !in Members(s.mem) && (BITS_PER_SEGMENT * k + x) / BITS_PER_SEGMENT == k;
      }
    }

    /** Find page `i`, allocating it, and its segment, when absent. */
    method EnsurePage(i: nat) returns (p: RemoteBitfieldPage)
      requires Valid()
      modifies Repr
      ensures Valid() && fresh(Repr - old(Repr)) && bits == old(bits)
      ensures pages.Keys == old(pages.Keys) + {i} && pages[i] == p
      ensures segments.Keys == old(segments.Keys) + {i / PAGES_PER_SEGMENT}
    {
      if i in pages {
        assert PageOk(i);
        return pages[i];
      }
      var k := i / PAGES_PER_SEGMENT;
      EnsureSegment(k);
      assert SegmentOk(k);
      p := AddPage(i);
    }

    method AddPage(i: nat) returns (p: RemoteBitfieldPage)
      requires Valid() && i !in pages && i / PAGES_PER_SEGMENT in segments
      modifies this, segments[i / PAGES_PER_SEGMENT], segments[i / PAGES_PER_SEGMENT].tree
      ensures Valid() && fresh(Repr - old(Repr)) && bits == old(bits)
      ensures pages == old(pages)[i := p] && segments == old(segments)
    {
      var k := i / PAGES_PER_SEGMENT;
      assert PageOk(i) && SegmentOk(k);
      Separate(k);
      p := NewPage(i);
      PageListed(i, p);
      SameMembers(k);
      NewMemoryApart(k, p.bitfield);
      Revalidate(k);
    }

    twostate lemma PageListed(i: nat, new p: RemoteBitfieldPage)
      requires var k := i / PAGES_PER_SEGMENT;
        && old(Valid()) && segments == old(segments) && k in segments && segments[k] in Repr
        && pages == old(pages)[i := p] && |old(segments[k].pages)| == PAGES_PER_SEGMENT
        && segments[k].pages == old(segments[k].pages)[i % PAGES_PER_SEGMENT := p]
      ensures forall h: nat :: h / PAGES_PER_SEGMENT == i / PAGES_PER_SEGMENT ==> PageOk(h)
    {
      forall h: nat | h / PAGES_PER_SEGMENT == i / PAGES_PER_SEGMENT ensures PageOk(h) {
        assert old(PageOk(h));
      }
    }

    twostate lemma SameMembers(k: nat)
      requires old(Valid()) && segments == old(segments) && k in segments && bits == old(bits)
      requires maxSegments == old(maxSegments)
      requires var s := segments[k];
        s in Repr && s.tree in Repr && s.Memories() <= Repr && s.Valid() && Members(s.mem) == old(Members(s.mem))
      ensures SegmentOk(k)
    {
      var s := segments[k];
      assert old(SegmentOk(k));
      forall x: nat | x < BITS_PER_SEGMENT ensures Member(s.mem, x) <==> BITS_PER_SEGMENT * k + x in bits {
        assert Member(s.mem, x) <==> x in old(Members(s.mem));
      }
    }

    /** New memory belongs to no other segment. */
    twostate lemma NewMemoryApart(k: nat, new field: array<bool>)
      requires old(Valid()) && segments == old(segments) && k in segments && segments[k].tree == old(segments[k].tree)
      requires !old(allocated(field)) && segments[k].Memories() <= old(segments[k].Memories()) + {field}
      requires forall l :: l in segments && l != k ==> unchanged(segments[l])
      ensures forall l :: l in segments && l != k ==> Disjoint(l, k)
    {
      forall l | l in segments && l != k ensures Disjoint(l, k) {
        assert old(SegmentOk(l)) && old(Disjoint(if l < k then l else k, if l < k then k else l));
      }
    }

    method NewPage(i: nat) returns (p: RemoteBitfieldPage)
      requires this in Repr && i / PAGES_PER_SEGMENT in segments
      requires var s := segments[i / PAGES_PER_SEGMENT];
        s in Repr && s.tree in Repr && s.Memories() <= Repr && s.Valid() && s.Owns(i) && s.pages[s.Local(i)] == null
      modifies this, segments[i / PAGES_PER_SEGMENT], segments[i / PAGES_PER_SEGMENT].tree
      ensures bits == old(bits) && maxSegments == old(maxSegments)
      ensures pages == old(pages)[i := p] && segments == old(segments)
      ensures var s := segments[i / PAGES_PER_SEGMENT];
        && s.Valid() && s.tree == old(s.tree) && Members(s.mem) == old(Members(s.mem))
        && s.pages == old(s.pages)[s.Local(i) := p]
        && s.Memories() <= old(s.Memories()) + {p.bitfield}
        && fresh(p.bitfield) && Repr == old(Repr) + {p.bitfield}
    {
      var k := i / PAGES_PER_SEGMENT;
      var field := new bool[BITS_PER_PAGE](_ => false);
      p := new RemoteBitfieldPage(i, field, segments[k]);
      assert forall h :: h in segments[k].pages ==> h == p || h in old(segments[k].pages);
      pages := pages[i := p];
      Repr := Repr + {field};
    }

    /** Page `i` sits in segment `k`, and no object of that segment belongs to another one. */
    ghost predicate Located(i: nat, k: nat)
      reads *
    {
      && i in pages && k in segments && this in Repr
      && var p, s := pages[i], segments[k];
      && p.segment == s && s.Valid() && s.index == k && p.Mine() && p.bitfield.Length == BITS_PER_PAGE
      && BITS_PER_SEGMENT * k + p.Base() == BITS_PER_PAGE * i && p.Base() + BITS_PER_PAGE <= BITS_PER_SEGMENT
      && s in Repr && s.tree in Repr && p.bitfield in Repr
      && forall l :: l in segments && l != k ==> Elsewhere(l, s, s.tree, p.bitfield)
    }

    /** Segment `l` is made of other objects, all in the footprint. */
    ghost predicate Elsewhere(l: nat, s: RemoteBitfieldSegment, t: SparseIndex, field: array<bool>)
      requires l in segments
      reads this, segments[l]
    {
      segments[l] != s && segments[l].tree != t && segments[l].tree in Repr && segments[l].Memories() <= Repr &&
        field !in segments[l].Memories()
    }

    lemma Locate(i: nat) returns (k: nat)
      requires Valid() && i in pages
      ensures Located(i, k) && SegmentOk(k)
    {
      k := i / PAGES_PER_SEGMENT;
      var q := i % PAGES_PER_SEGMENT;
      assert PageOk(i) && SegmentOk(k) && segments[k].PageOk(q);
      Separate(k);
      assert pages[i].bitfield in segments[k].Memories();
    }

    /** No object of segment `k` belongs to another segment. */
    lemma Separate(k: nat)
      requires Valid() && k in segments
      ensures forall l :: l in segments && l != k ==>
        && segments[l] in Repr && segments[l].tree in Repr && segments[l].Memories() <= Repr
        && segments[l] != segments[k] && segments[l].tree != segments[k].tree
        && segments[l].Memories() !! segments[k].Memories()
    {
      forall l | l in segments && l != k
        ensures segments[l] in Repr && segments[l].tree in Repr && segments[l].Memories() <= Repr
        ensures segments[l] != segments[k] && segments[l].tree != segments[k].tree
        ensures segments[l].Memories() !! segments[k].Memories()
      {
        assert SegmentOk(l) && Disjoint(if l < k then l else k, if l < k then k else l);
      }
    }

    /** Validity again after one page's memory was rewritten. */
    twostate lemma PageRewritten(k: nat)
      requires old(Valid()) && k in old(segments) && k in segments && OnlyRewrote(k) && BitsAgree(k)
      ensures Valid()
    {
      assert old(SegmentOk(k));
      forall h: nat | h / PAGES_PER_SEGMENT == k ensures PageOk(h) {
        assert old(PageOk(h));
      }
      forall l | l in segments && l != k ensures Disjoint(l, k) {
        assert old(Disjoint(if l < k then l else k, if l < k then k else l));
      }
      Revalidate(k);
    }

    /** Rewriting positions of a segment and the same positions of the whole bitfield keeps the two in step. */
    twostate lemma BitsFollow(k: nat, new base: nat, new length: nat)
      requires k in segments && k in old(segments) && segments[k] == old(segments[k]) && old(SegmentOk(k))
      requires base + length <= BITS_PER_SEGMENT
      requires InStep(old(Members(segments[k].mem)), Members(segments[k].mem), old(bits), bits, BITS_PER_SEGMENT * k,
        base, length)
      ensures BitsAgree(k)
    {
      var s := segments[k];
      forall x: nat | x < BITS_PER_SEGMENT ensures Member(s.mem, x) <==> BITS_PER_SEGMENT * k + x in bits {
        assert Member(s.mem, x) <==> x in Members(s.mem);
        assert old(Member(s.mem, x)) <==> x in old(Members(s.mem));
      }
    }

    /** Segment `k` holds its share of the bits, and no other bit changed. */
    twostate predicate BitsAgree(k: nat)
      requires k in segments
      reads this, segments[k]
    {
      && (forall x: nat :: x < BITS_PER_SEGMENT ==> (Member(segments[k].mem, x) <==> BITS_PER_SEGMENT * k + x in bits))
      && (forall x :: x / BITS_PER_SEGMENT != k ==> (x in bits <==> x in old(bits)))
    }

    /** Nothing but the memory of segment `k` was touched, and its index is sound. */
    twostate predicate OnlyRewrote(k: nat)
      requires k in segments
      reads *
    {
      && this in Repr && old(Repr) <= Repr && segments[k].tree in Repr && OthersAlone(k)
    }

    twostate predicate OthersAlone(k: nat)
      requires k in segments
      reads *
    {
      && pages == old(pages) && segments == old(segments) && maxSegments == old(maxSegments)
      && segments[k].Valid() && segments[k].pages == old(segments[k].pages)
      && (forall l :: l in segments && l != k ==>
        unchanged(segments[l]) && unchanged(segments[l].tree) && segments[l].tree != segments[k].tree)
      && (forall l, o :: l in segments && l != k && o in segments[l].Memories() ==> unchanged(o))
    }

    method SetPart(i: nat, ghost k: nat, j: nat, val: bool)
      requires Located(i, k) && j < BITS_PER_PAGE
      modifies this`bits, pages[i].bitfield, segments[k], segments[k].tree
      ensures bits == Overwrite(old(bits), BITS_PER_PAGE * i + j, 1, val)
      ensures Repr == old(Repr) && OnlyRewrote(k)
      ensures Members(segments[k].mem) == Overwrite(old(Members(segments[k].mem)), pages[i].Base() + j, 1, val)
    {
      ghost var s := segments[k];
      pages[i].Set(j, val);
      ghost var members := Members(s.mem);
      bits := Overwrite(bits, BITS_PER_PAGE * i + j, 1, val);
      assert Members(s.mem) == members;
    }

    method SetRangePart(i: nat, ghost k: nat, j: nat, length: nat, val: bool)
      requires Located(i, k) && j + length <= BITS_PER_PAGE
      modifies this`bits, pages[i].bitfield, segments[k], segments[k].tree
      ensures bits == Overwrite(old(bits), BITS_PER_PAGE * i + j, length, val)
      ensures Repr == old(Repr) && OnlyRewrote(k)
      ensures Members(segments[k].mem) == Overwrite(old(Members(segments[k].mem)), pages[i].Base() + j, length, val)
    {
      ghost var s := segments[k];
      pages[i].SetRange(j, length, val);
      ghost var members := Members(s.mem);
      bits := Overwrite(bits, BITS_PER_PAGE * i + j, length, val);
      assert Members(s.mem) == members;
    }

    method InsertMemory(i: nat, ghost k: nat, j: nat, words: seq<word>)
      requires Located(i, k) && j % 32 == 0 && j + 32 * |words| <= BITS_PER_PAGE
      modifies pages[i].bitfield, segments[k]
      ensures OthersAlone(k) && fresh(segments[k].tree)
      ensures Members(segments[k].mem) == Write(old(Members(segments[k].mem)), pages[i].Base() + j, words)
    {
      pages[i].Insert(j, words);
    }

    method InsertPart(i: nat, ghost k: nat, j: nat, words: seq<word>)
      requires Located(i, k) && j % 32 == 0 && j + 32 * |words| <= BITS_PER_PAGE
      modifies this`bits, this`Repr, pages[i].bitfield, segments[k]
      ensures bits == Write(old(bits), BITS_PER_PAGE * i + j, words)
      ensures fresh(Repr - old(Repr)) && OnlyRewrote(k)
      ensures Members(segments[k].mem) == Write(old(Members(segments[k].mem)), pages[i].Base() + j, words)
    {
      InsertMemory(i, k, j, words);
      Recorded(k, Write(bits, BITS_PER_PAGE * i + j, words));
    }

    /** The abstract bits follow, and a new index joins the footprint. */
    ghost method Recorded(k: nat, newBits: iset<nat>)
      requires k in segments && this in Repr && segments[k].Valid()
      modifies this`bits, this`Repr
      ensures bits == newBits && Repr == old(Repr) + {segments[k].tree}
      ensures segments[k].Valid()
    {
      bits := newBits;
      Repr := Repr + {segments[k].tree};
    }

    method SetInPage(i: nat, j: nat, val: bool)
      requires Valid() && i in pages && j < BITS_PER_PAGE
      modifies Repr
      ensures Valid() && Repr == old(Repr) && pages == old(pages) && segments == old(segments)
      ensures bits == Overwrite(old(bits), BITS_PER_PAGE * i + j, 1, val)
    {
      ghost var k := Locate(i);
      SetPart(i, k, j, val);
      OverwriteInStep(old(Members(segments[k].mem)), old(bits), BITS_PER_SEGMENT * k, pages[i].Base() + j, 1, val);
      BitsFollow(k, pages[i].Base() + j, 1);
      PageRewritten(k);
    }

    method SetRangeInPage(i: nat, j: nat, length: nat, val: bool)
      requires Valid() && i in pages && j + length <= BITS_PER_PAGE
      modifies Repr
      ensures Valid() && Repr == old(Repr) && pages == old(pages) && segments == old(segments)
      ensures bits == Overwrite(old(bits), BITS_PER_PAGE * i + j, length, val)
    {
      ghost var k := Locate(i);
      SetRangePart(i, k, j, length, val);
      OverwriteInStep(old(Members(segments[k].mem)), old(bits), BITS_PER_SEGMENT * k, pages[i].Base() + j, length, val);
      BitsFollow(k, pages[i].Base() + j, length);
      PageRewritten(k);
    }

    method InsertInPage(i: nat, j: nat, words: seq<word>)
      requires Valid() && i in pages && j % 32 == 0 && j + 32 * |words| <= BITS_PER_PAGE
      modifies Repr
      ensures Valid() && fresh(Repr - old(Repr)) && pages == old(pages) && segments == old(segments)
      ensures bits == Write(old(bits), BITS_PER_PAGE * i + j, words)
    {
      ghost var k := Locate(i);
      InsertPart(i, k, j, words);
      WriteInStep(old(Members(segments[k].mem)), old(bits), BITS_PER_SEGMENT * k, pages[i].Base() + j, words);
      BitsFollow(k, pages[i].Base() + j, 32 * |words|);
      PageRewritten(k);
    }

    /** Clearing where there is no page clears nothing. */
    lemma NoPage(start: nat, length: nat)
      requires Valid() && start / BITS_PER_PAGE !in pages && start % BITS_PER_PAGE + length <= BITS_PER_PAGE
      ensures Overwrite(bits, start, length, false) == bits
    {
      forall x | start <= x < start + length ensures x !in bits {
        PageBitIsMember(x);
      }
    }

    /** A page's segment is in the table. */
    lemma SegmentListed(i: nat)
      requires Valid() && i in pages
      ensures i / PAGES_PER_SEGMENT in segments
    {
      assert PageOk(i);
    }

    /** Find page `i` where it is wanted. */
    method WantPage(i: nat, wanted: bool)
      requires Valid()
      modifies Repr
      ensures Valid() && fresh(Repr - old(Repr)) && (wanted ==> i in pages)
      ensures bits == old(bits) && Allocated(old(Shown()), Shown(), if wanted then {i} else {})
    {
      NothingAllocated(Shown());
      if i in pages {
        SegmentListed(i);
      } else if wanted {
        var _ := EnsurePage(i);
      }
    }

    method Set(index: nat, val: bool)
      requires Valid()
      modifies Repr
      ensures Valid() && fresh(Repr - old(Repr)) && RangeSet(old(Shown()), Shown(), index, 1, val)
    {
      var j := index % BITS_PER_PAGE;
      var i := index / BITS_PER_PAGE;
      OnePageMet(i, j, index, 1);
      WantPage(i, val);
      if i in pages {
        SetInPage(i, j, val);
      } else {
        NoPage(index, 1);
      }
    }

    /** One turn of the loop in `SetRange`. */
    method SetRangeStep(i: nat, j: nat, range: nat, val: bool, ghost at: nat)
      requires Valid() && j + range <= BITS_PER_PAGE && range > 0 && at == BITS_PER_PAGE * i + j
      modifies Repr
      ensures Valid() && fresh(Repr - old(Repr)) && RangeSet(old(Shown()), Shown(), at, range, val)
    {
      OnePageMet(i, j, at, range);
      WantPage(i, val);
      if i in pages {
        SetRangeInPage(i, j, range, val);
      } else {
        NoPage(BITS_PER_PAGE * i + j, range);
      }
    }

    /** The same, told from the whole range. */
    method SetRangeNext(i: nat, j: nat, range: nat, val: bool, ghost s: Shape, ghost start: nat, ghost done: nat,
      ghost next: nat)
      requires Valid() && j + range <= BITS_PER_PAGE && range > 0 && next == done + range
      requires BITS_PER_PAGE * i + j == start + done && (done > 0 ==> j == 0) && SetSoFar(s, Shown(), start, done, val)
      modifies Repr
      ensures Valid() && fresh(Repr - old(Repr)) && SetSoFar(s, Shown(), start, next, val)
    {
      ghost var before, at := Shown(), BITS_PER_PAGE * i + j;
      if done == 0 { NothingSet(before, start, 0, val); }
      SetRangeStep(i, j, range, val, at);
      SetRangeTurn(s, before, Shown(), start, done, next, at, range, i, j, val);
    }

    /** `RemoteBitfield.setRange`; a length that is not positive does nothing. */
    method SetRange(start: nat, length: int, val: bool)
      requires Valid()
      modifies Repr
      ensures Valid() && fresh(Repr - old(Repr)) && RangeSet(old(Shown()), Shown(), start, length, val)
    {
      var j := start % BITS_PER_PAGE;
      var i := start / BITS_PER_PAGE;
      var left := length;
      ghost var done: nat := 0;
      while left > 0
        invariant Valid() && fresh(Repr - old(Repr)) && 0 <= j < BITS_PER_PAGE
        invariant left == length - done && (done > 0 ==> j == 0 && left >= 0)
        invariant left > 0 ==> BITS_PER_PAGE * i + j == start + done
        invariant SetSoFar(old(Shown()), Shown(), start, done, val)
      {
        var end := if j + left < BITS_PER_PAGE then j + left else BITS_PER_PAGE;
        var range := end - j;
        ghost var next := done + range;
        SetRangeNext(i, j, range, val, old(Shown()), start, done, next);
        j := 0;
        i := i + 1;
        left := left - range;
        done := next;
      }
      RangeDone(old(Shown()), Shown(), start, length, done, left, val);
    }

    /** One turn of the loop in `Insert`. */
    method InsertStep(i: nat, j: nat, words: seq<word>, ghost at: nat)
      requires Valid() && j % 32 == 0 && words != [] && j + 32 * |words| <= BITS_PER_PAGE && at == BITS_PER_PAGE * i + j
      modifies Repr
      ensures Valid() && fresh(Repr - old(Repr)) && WordsSet(old(Shown()), Shown(), at, words)
    {
      OnePageMet(i, j, at, 32 * |words|);
      WantPage(i, true);
      InsertInPage(i, j, words);
    }

    /** The same, told from all words. */
    method InsertNext(i: nat, j: nat, part: seq<word>, ghost s: Shape, ghost start: nat, ghost before: seq<word>,
      ghost all: seq<word>)
      requires Valid() && j % 32 == 0 && part != [] && all == before + part && j + 32 * |part| <= BITS_PER_PAGE
      requires BITS_PER_PAGE * i + j == start + 32 * |before| && (before != [] ==> j == 0)
      requires WordsSet(s, Shown(), start, before)
      modifies Repr
      ensures Valid() && fresh(Repr - old(Repr)) && WordsSet(s, Shown(), start, all)
    {
      ghost var s0, at := Shown(), BITS_PER_PAGE * i + j;
      InsertStep(i, j, part, at);
      InsertTurn(s, s0, Shown(), start, before, part, all, at, i, j);
    }

    /** `RemoteBitfield.insert`: refuses a start that is not word-aligned. */
    method Insert(start: nat, words: seq<word>) returns (ok: bool)
      requires Valid()
      modifies Repr
      ensures Valid() && fresh(Repr - old(Repr)) && ok == (start % 32 == 0)
      ensures if ok then WordsSet(old(Shown()), Shown(), start, words) else Shown() == old(Shown())
    {
      if start % 32 != 0 { return false; }
      var length := 32 * |words|;
      var rest := words;
      var j := start % BITS_PER_PAGE;
      var i := start / BITS_PER_PAGE;
      ghost var done := [];
      NoWords(Shown(), start);
      while length > 0
        invariant Valid() && fresh(Repr - old(Repr)) && 0 <= j < BITS_PER_PAGE && j % 32 == 0
        invariant words == done + rest && length == 32 * |rest| && (done != [] ==> j == 0)
        invariant length > 0 ==> BITS_PER_PAGE * i + j == start + 32 * |done|
        invariant WordsSet(old(Shown()), Shown(), start, done)
      {
        var end := if j + length < BITS_PER_PAGE then j + length else BITS_PER_PAGE;
        var range := end - j;
        ghost var next := done + rest[..range / 32];
        MoveOver(words, done, rest, range / 32);
        InsertNext(i, j, rest[..range / 32], old(Shown()), start, done, next);
        rest := rest[range / 32..];
        done := next;
        j := 0;
        i := i + 1;
        length := length - range;
      }
      TakeAll(words, done, rest);
      return true;
    }

    /** The shape that a search meets: the bits, and how far each segment's page list reaches. */
    ghost function Reached(): Reach
      requires Valid()
      reads this, Repr
    {
      Reach(bits, map k | k in segments :: (assert SegmentOk(k); segments[k].pagesLength), maxSegments)
    }

    /** With page 0 and no other, the scan looks at that page and no further. */
    lemma OnePageReached()
      requires Valid() && pages.Keys == {0} && segments.Keys == {0}
      ensures Reached() == Reach(bits, map[0 := 1], 1)
    {
      assert SegmentOk(0) && PageOk(0) && segments[0].LengthOk();
      assert PageOk(segments[0].pagesLength - 1);
    }

    /** So, that page being full, it answers 0. */
    lemma OneFullPageAnswer(r: int)
      requires Valid() && Shown() == Shape(Overwrite(iset{}, 0, BITS_PER_PAGE, true), {0}, {0})
      requires FirstSeen(Reached(), false, 0, r)
      ensures r == 0 && 0 in bits && !IsFirst(bits, false, 0, r) && IsFirst(bits, false, 0, BITS_PER_PAGE)
    {
      OnePageReached();
      OneFullPage(Reached(), r);
    }

    /** A stretch of a segment without `val`, told in positions of the whole bitfield. */
    lemma ScanSegment(k: nat, val: bool, from: nat, to: int)
      requires k in segments && SegmentOk(k) && to <= BITS_PER_SEGMENT
      requires forall x :: from <= x < to ==> Member(segments[k].mem, x) != val
      ensures forall y :: BITS_PER_SEGMENT * k + from <= y < BITS_PER_SEGMENT * k + to ==> (y in bits) != val
      ensures to < BITS_PER_SEGMENT && 0 <= to ==> (BITS_PER_SEGMENT * k + to in bits <==> Member(segments[k].mem, to))
    {
      forall y | BITS_PER_SEGMENT * k + from <= y < BITS_PER_SEGMENT * k + to ensures (y in bits) != val {
        var x := y - BITS_PER_SEGMENT * k;
        assert Member(segments[k].mem, x) != val && BITS_PER_SEGMENT * k + x == y;
      }
    }

    lemma AbsentSegment(k: nat)
      requires TableOk() && k !in segments
      ensures forall y :: BITS_PER_SEGMENT * k <= y < BITS_PER_SEGMENT * (k + 1) ==> y !in bits
    {
    }

    /** One turn of the loop in `FindFirst`: a search in segment `i`, or in the place of an absent one. */
    method FindFirstStep(i: nat, j: nat, val: bool, ghost s: Reach) returns (index: int)
      requires Valid() && i < maxSegments && j < BITS_PER_SEGMENT && s == Reached()
      ensures index == -1 || j <= index < BITS_PER_SEGMENT
      ensures index != -1 ==> var x := BITS_PER_SEGMENT * i + index; Seen(s, x) && (x in bits) == val
      ensures var end := BITS_PER_SEGMENT * i + (if index == -1 then BITS_PER_SEGMENT else index);
        forall x :: BITS_PER_SEGMENT * i + j <= x < end && Seen(s, x) ==> (x in bits) != val
    {
      index := -1;
      if i in segments {
        assert SegmentOk(i);
        index := segments[i].FindFirst(val, j);
        ScanSegment(i, val, j, if index == -1 then BITS_PER_PAGE * segments[i].pagesLength else index);
      } else {
        if !val { index := j; }
        AbsentSegment(i);
      }
    }

    /** `RemoteBitfield.findFirst`: the first matching position among those the scan looks at, else -1
        for a set bit and the start itself for an unset one. */
    method FindFirst(val: bool, position: nat) returns (r: int)
      requires Valid()
      ensures FirstSeen(Reached(), val, position, r)
    {
      ghost var s := Reached();
      var j := position % BITS_PER_SEGMENT;
      var i := position / BITS_PER_SEGMENT;
      while i < maxSegments
        invariant 0 <= j < BITS_PER_SEGMENT && position <= BITS_PER_SEGMENT * i + j && s == Reached()
        invariant forall x :: position <= x < BITS_PER_SEGMENT * i + j && Seen(s, x) ==> (x in bits) != val
      {
        var index := FindFirstStep(i, j, val, s);
        if index != -1 {
          return BITS_PER_SEGMENT * i + index;
        }
        j := 0;
        i := i + 1;
      }
      return if val then -1 else position;
    }

    /** `RemoteBitfield.findLast`: the last matching position up to the start, or -1. */
    method FindLast(val: bool, position: nat) returns (r: int)
      requires Valid()
      ensures IsLast(bits, val, position, r)
    {
      var j := position % BITS_PER_SEGMENT;
      var i := position / BITS_PER_SEGMENT;
      while i >= 0
        invariant -1 <= i && 0 <= j < BITS_PER_SEGMENT && BITS_PER_SEGMENT * i + j <= position
        invariant forall x: nat :: BITS_PER_SEGMENT * i + j < x <= position ==> (x in bits) != val
      {
        var index := -1;
        if i in segments {
          assert SegmentOk(i);
          index := segments[i].FindLast(val, j);
          ScanSegment(i, val, index + 1, j + 1);
          if index != -1 { ScanSegment(i, val, index, index); }
        } else {
          if !val { index := j; }
          AbsentSegment(i);
        }
        if index != -1 {
          return BITS_PER_SEGMENT * i + index;
        }
        j := BITS_PER_SEGMENT - 1;
        i := i - 1;
      }
      return -1;
    }

    /** Every set bit is among the positions the forward scan looks at. */
    lemma SetBitsSeen()
      requires Valid()
      ensures ReachOk(Reached())
    {
      forall x | x in bits ensures x / BITS_PER_SEGMENT in segments && Seen(Reached(), x) {
        var k := x / BITS_PER_SEGMENT;
        assert SegmentOk(k);
        var y := x % BITS_PER_SEGMENT;
        assert BITS_PER_SEGMENT * k + y == x && Member(segments[k].mem, y);
        assert segments[k].PageOk(y / BITS_PER_PAGE);
      }
      forall k | k in segments ensures k < maxSegments && segments[k].pagesLength <= PAGES_PER_SEGMENT {
        assert SegmentOk(k);
      }
    }

    method FirstSet(position: nat) returns (r: int)
      requires Valid()
      ensures IsFirst(bits, true, position, r)
    {
      SetBitsSeen();
      r := FindFirst(true, position);
    }

    /** `firstUnset`: right exactly under the condition `FirstUnsetRight`. */
    method FirstUnset(position: nat) returns (r: int)
      requires Valid()
      ensures FirstSeen(Reached(), false, position, r)
      ensures IsFirst(bits, false, position, r) <==> FirstUnsetRight(Reached(), position)
    {
      SetBitsSeen();
      r := FindFirst(false, position);
      FirstUnsetExact(Reached(), position, r);
    }

    method LastSet(position: nat) returns (r: int)
      requires Valid()
      ensures IsLast(bits, true, position, r)
    {
      r := FindLast(true, position);
    }

    method LastUnset(position: nat) returns (r: int)
      requires Valid()
      ensures IsLast(bits, false, position, r)
    {
      r := FindLast(false, position);
    }

    lemma PageBitIsMember(index: nat)
      requires Valid()
      ensures var i := index / BITS_PER_PAGE;
        if i in pages
        then
          && pages[i].bitfield in Repr && pages[i].bitfield.Length == BITS_PER_PAGE
          && pages[i].bitfield[index % BITS_PER_PAGE] == (index in bits)
        else index !in bits
    {
      var i, k := index / BITS_PER_PAGE, index / BITS_PER_SEGMENT;
      assert PageOk(i);
      assert i / PAGES_PER_SEGMENT == k;
      if k in segments {
        var s, q := segments[k], i % PAGES_PER_SEGMENT;
        assert SegmentOk(k) && s.PageOk(q);
        var x := index % BITS_PER_SEGMENT;
        assert x / BITS_PER_PAGE == q && x % BITS_PER_PAGE == index % BITS_PER_PAGE;
        assert Member(s.mem, x) <==> BITS_PER_SEGMENT * k + x in bits;
        if s.pages[q] != null { assert s.pages[q].bitfield in s.Memories(); }
      }
    }
  }

  function Inserted<T>(s: seq<T>, i: nat, x: T): (r: seq<T>)
    requires i <= |s|
    ensures |r| == |s| + 1
    ensures forall j :: 0 <= j < |r| ==> r[j] == if j < i then s[j] else if j == i then x else s[j - 1]
  {
    s[..i] + [x] + s[i..]
  }

  lemma InsertedMembers<T>(s: seq<T>, i: nat, x: T)
    requires i <= |s|
    ensures forall y :: y in Inserted(s, i, x) <==> y == x || y in s
  {
    var r := Inserted(s, i, x);
    assert r[i] == x;
    forall y | y in s ensures y in r {
      var j :| 0 <= j < |s| && s[j] == y;
      assert r[if j < i then j else j + 1] == y;
    }
  }

  /** Putting a chunk between the smaller and the larger offsets keeps the list in order. */
  lemma InsertedIncreasing(chunks: seq<Chunk>, chunk: Chunk, i: nat)
    requires Increasing(chunks) && i <= |chunks|
    requires forall j :: 0 <= j < |chunks| ==> chunks[j].offset != chunk.offset
    requires forall j :: i <= j < |chunks| ==> chunks[j].offset > chunk.offset
    requires i > 0 ==> chunks[i - 1].offset < chunk.offset
    ensures Increasing(Inserted(chunks, i, chunk))
  {
    forall j | 0 <= j < i
      ensures chunks[j].offset < chunk.offset
    {
      if j < i - 1 { assert chunks[j].offset < chunks[i - 1].offset; }
    }
  }

  /** A write operation of a client. */
  datatype Op =
    | SetOp(index: nat, val: bool)
    | SetRangeOp(start: nat, length: int, val: bool)
    | InsertOp(at: nat, words: seq<word>)

  /** What one operation does to the plain set of positions. */
  ghost function Apply(bits: iset<nat>, op: Op): iset<nat>
  {
    match op
    case SetOp(index, val) => Overwrite(bits, index, 1, val)
    case SetRangeOp(start, length, val) => Overwrite(bits, start, length, val)
    case InsertOp(at, words) => if at % 32 == 0 then Write(bits, at, words) else bits
  }

  ghost function ApplyAll(ops: seq<Op>): iset<nat>
  {
    if ops == [] then iset{} else Apply(ApplyAll(ops[..|ops| - 1]), ops[|ops| - 1])
  }

  /** Any sequence of operations, run from an empty bitfield, keeps the structure valid (so every index
      flag true) and holds exactly the plain set. */
  method Replay(ops: seq<Op>) returns (b: RemoteBitfield)
    ensures fresh(b) && b.Valid() && b.bits == ApplyAll(ops)
  {
    b := new RemoteBitfield();
    for n := 0 to |ops|
      invariant fresh(b) && b.Valid() && fresh(b.Repr) && b.bits == ApplyAll(ops[..n])
    {
      assert ops[..n + 1][..n] == ops[..n];
      match ops[n]
      case SetOp(index, val) => b.Set(index, val);
      case SetRangeOp(start, length, val) => b.SetRange(start, length, val);
      case InsertOp(at, words) => var _ := b.Insert(at, words);
    }
    assert ops[..|ops|] == ops;
  }

  lemma OnlyFirstPage(s: Shape)
    requires RangeSet(Shape(iset{}, {}, {}), s, 0, BITS_PER_PAGE, true)
    ensures s == Shape(Overwrite(iset{}, 0, BITS_PER_PAGE, true), {0}, {0})
  {
    OnePageMet(0, 0, 0, BITS_PER_PAGE);
    assert SegmentsOf({0}) == {0};
  }

  /** The concrete miss: a client sets the first page of a new bitfield and asks for the first unset position
      from 0. It is 32768; the answer is 0, which is set. */
  method FirstUnsetMiss() returns (b: RemoteBitfield, r: int)
    ensures fresh(b) && b.Valid() && b.bits == Overwrite(iset{}, 0, 32768, true)
    ensures r == 0 && 0 in b.bits && !IsFirst(b.bits, false, 0, r) && IsFirst(b.bits, false, 0, 32768)
  {
    b := new RemoteBitfield();
    b.SetRange(0, 32768, true);
    OnlyFirstPage(b.Shown());
    r := b.FirstUnset(0);
    b.OneFullPageAnswer(r);
  }

  /** Does operation `op` write position `x`? */
  predicate Writes(op: Op, x: nat)
  {
    match op
    case SetOp(index, _) => x == index
    case SetRangeOp(start, length, _) => start <= x < start + length
    case InsertOp(at, words) => at % 32 == 0 && at <= x < at + 32 * |words|
  }

  /** The value operation `op` writes at position `x`. */
  predicate Written(op: Op, x: nat)
    requires Writes(op, x)
  {
    match op
    case SetOp(_, val) => val
    case SetRangeOp(_, _, val) => val
    case InsertOp(at, words) => WordBit(words, x - at)
  }

  /** Position `x` holds what the last operation that wrote it wrote, and is unset if none did. */
  lemma {:induction false} LastWriteWins(ops: seq<Op>, x: nat)
    ensures (forall n :: 0 <= n < |ops| ==> !Writes(ops[n], x)) ==> x !in ApplyAll(ops)
    ensures forall n :: 0 <= n < |ops| && Writes(ops[n], x) && (forall m :: n < m < |ops| ==> !Writes(ops[m], x)) ==>
      (x in ApplyAll(ops) <==> Written(ops[n], x))
  {
    if ops != [] {
      LastWriteWins(ops[..|ops| - 1], x);
    }
  }
}
