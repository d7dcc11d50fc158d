/** What the run-length decoder accepts, told without it: a string is well formed if it spells a list of chunks,
    and it spells at most one (src/core-manager/bitfield-rle.js). */
module ParsedChunks {
  import opened Words
  import opened Varint
  import opened BitfieldRle

  /** The number in front of a chunk. */
  function Head(c: Chunk): nat
  {
    match c
    case Raw(bytes) => 2 * |bytes|
    case Fill(length, ones) => if ones then 4 * length + 3 else 4 * length + 1
  }

  function Body(c: Chunk): seq<byte> { if c.Raw? then c.bytes else [] }

  /** `s` begins with the chunk: its number, in at most eight bytes but not necessarily the fewest, and its raw
      bytes; `n` bytes in all. */
  ghost predicate Begins(s: seq<byte>, c: Chunk, n: nat)
  {
    exists k: nat :: BeginsWith(s, c, k, n)
  }

  /** The number takes `k` bytes. */
  predicate BeginsWith(s: seq<byte>, c: Chunk, k: nat, n: nat)
  {
    k <= 8 && Ends(s, k) && Groups(s, k) == Head(c) && n == k + |Body(c)| && n <= |s| && s[k..n] == Body(c)
  }

  /** `s` is these chunks, one after the other. */
  ghost predicate Spells(s: seq<byte>, chunks: seq<Chunk>)
    decreases |chunks|
  {
    if chunks == [] then s == []
    else exists n: nat :: n <= |s| && Begins(s, chunks[0], n) && Spells(s[n..], chunks[1..])
  }

  lemma {:induction false} DecodeEnds(s: seq<byte>, limit: nat)
    ensures var r := Decode(s, limit);
      r.Read? ==> Ends(s, r.length) && r.value == Groups(s, r.length) && r.length <= limit
  {
    if s != [] && limit > 0 && s[0] >= 128 { DecodeEnds(s[1..], limit - 1); }
  }

  lemma OneEnd(s: seq<byte>, k: nat, m: nat)
    requires Ends(s, k) && Ends(s, m)
    ensures k == m
  {
  }

  /** The number in front of a chunk says what chunk it is. */
  lemma HeadSays(c: Chunk)
    ensures Repeat(Head(c)) == c.Fill?
    ensures c.Fill? ==> Slice(Head(c)) == c.length && (Head(c) / 2 % 2 == 1) == c.ones
    ensures c.Raw? ==> Slice(Head(c)) == |c.bytes|
  {
  }

  /** A string that begins with a chunk has it as its first chunk. */
  lemma BeginsFirst(s: seq<byte>, i: nat, c: Chunk, n: nat)
    requires i <= |s| && Begins(s[i..], c, n)
    ensures i + n <= |s| && FirstChunk(s, i) == First(c, i + n)
  {
    var k: nat :| BeginsWith(s[i..], c, k, n);
    DecodeExact(s[i..], k, 8);
    HeadAt(s, i, c, k, n);
  }

  lemma HeadAt(s: seq<byte>, i: nat, c: Chunk, k: nat, n: nat)
    requires i <= |s| && BeginsWith(s[i..], c, k, n) && Decode(s[i..], 8) == Read(Head(c), k)
    ensures i + n <= |s| && FirstChunk(s, i) == First(c, i + n)
  {
    HeadSays(c);
    FirstChunkRead(s, i);
    SamePart(s, i, k, n);
  }

  lemma ChunkHead(s: seq<byte>, next: nat, start: nat)
    requires After(next, start) <= |s|
    ensures Head(ChunkAt(s, next, start)) == next
    ensures Body(ChunkAt(s, next, start)) == s[start..After(next, start)]
  {
    Quarters(next);
  }

  lemma Quarters(next: nat)
    ensures next % 2 == 1 ==> next == 4 * ((next - next % 4) / 4) + if next / 2 % 2 == 1 then 3 else 1
    ensures next % 2 == 0 ==> next == 2 * (next / 2)
  {
    var q, r := next / 4, next % 4;
    assert next == 4 * q + r && (next - r) / 4 == q && next / 2 == 2 * q + r / 2;
  }

  lemma SamePart(s: seq<byte>, i: nat, k: nat, n: nat)
    requires k <= n && i + n <= |s|
    ensures s[i..][k..n] == s[i + k..i + n]
  {
  }

  /** And begins with the one that is its first. */
  lemma FirstBegins(s: seq<byte>, i: nat)
    requires i < |s| && FirstChunk(s, i).First?
    ensures Begins(s[i..], FirstChunk(s, i).chunk, FirstChunk(s, i).next - i)
  {
    var t, r, f := s[i..], Decode(s[i..], 8), FirstChunk(s, i);
    DecodeEnds(t, 8);
    FirstChunkRead(s, i);
    ChunkHead(s, r.value, i + r.length);
    SamePart(s, i, r.length, f.next - i);
    assert BeginsWith(t, f.chunk, r.length, f.next - i);
  }

  /** The first chunk of a string is the one it begins with. */
  lemma FirstExact(s: seq<byte>, i: nat)
    requires i < |s|
    ensures var r := FirstChunk(s, i);
      r.First? ==>
        && Begins(s[i..], r.chunk, r.next - i)
        && forall c, n: nat :: Begins(s[i..], c, n) ==> c == r.chunk && n == r.next - i
    ensures FirstChunk(s, i).Cut? ==> forall c, n: nat :: !Begins(s[i..], c, n)
  {
    forall c, n: nat | Begins(s[i..], c, n) ensures i + n <= |s| && FirstChunk(s, i) == First(c, i + n) {
      BeginsFirst(s, i, c, n);
    }
    if FirstChunk(s, i).First? { FirstBegins(s, i); }
  }

  /** A string that begins with one chunk alone spells what begins with it. */
  lemma SpellsFirst(s: seq<byte>, c: Chunk, n: nat, chunks: seq<Chunk>)
    requires s != [] && n <= |s| && Begins(s, c, n)
    requires forall d, m: nat :: Begins(s, d, m) ==> d == c && m == n
    ensures Spells(s, chunks) <==> chunks != [] && chunks[0] == c && Spells(s[n..], chunks[1..])
  {
  }

  lemma SpellsNone(s: seq<byte>, chunks: seq<Chunk>)
    requires s != [] && forall d, m: nat :: !Begins(s, d, m)
    ensures !Spells(s, chunks)
  {
  }

  lemma {:induction false} FromExact(s: seq<byte>, i: nat, chunks: seq<Chunk>)
    requires i <= |s|
    ensures ParseFrom(s, i) == Good(chunks) <==> Spells(s[i..], chunks)
    decreases |s| - i
  {
    if i == |s| {
      NothingSpelled(s[i..], chunks);
    } else {
      FirstExact(s, i);
      var r := FirstChunk(s, i);
      if r.Cut? {
        SpellsNone(s[i..], chunks);
      } else {
        SpellsFirst(s[i..], r.chunk, r.next - i, chunks);
        RestParsed(s, i, chunks);
        if chunks != [] { FromExact(s, r.next, chunks[1..]); }
        assert s[i..][r.next - i..] == s[r.next..];
      }
    }
  }

  /** What the rest parses to, behind the first chunk. */
  lemma RestParsed(s: seq<byte>, i: nat, chunks: seq<Chunk>)
    requires i < |s| && FirstChunk(s, i).First?
    ensures ParseFrom(s, i) == Good(chunks) <==>
      chunks != [] && FirstChunk(s, i).chunk == chunks[0] && ParseFrom(s, FirstChunk(s, i).next) == Good(chunks[1..])
  {
    assert chunks != [] ==> chunks == [chunks[0]] + chunks[1..];
    match ParseFrom(s, FirstChunk(s, i).next)
    case Bad =>
    case Good(rest) => assert ([FirstChunk(s, i).chunk] + rest)[1..] == rest;
  }

  lemma NothingSpelled(s: seq<byte>, chunks: seq<Chunk>)
    requires s == []
    ensures Spells(s, chunks) <==> chunks == []
  {
    assert forall c, n: nat :: !Begins(s, c, n);
  }

  /** The decoder reads a list of chunks out of a string exactly when the string spells that list. */
  lemma ParseExact(s: seq<byte>, chunks: seq<Chunk>)
    ensures Parse(s) == Good(chunks) <==> Spells(s, chunks)
  {
    FromExact(s, 0, chunks);
    assert s[0..] == s;
  }

  /** And it refuses the string exactly when it spells no list at all. */
  lemma BadExact(s: seq<byte>)
    ensures Parse(s) == Bad <==> forall chunks: seq<Chunk> :: !Spells(s, chunks)
  {
    if Parse(s) == Bad {
      forall chunks: seq<Chunk> ensures !Spells(s, chunks) { ParseExact(s, chunks); }
    } else {
      ParseExact(s, Parse(s).chunks);
    }
  }
}
