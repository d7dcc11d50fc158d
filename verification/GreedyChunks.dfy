/** What the greedy run-length encoder chooses, told without the encoder: a run of all-zero or all-one bytes is
    split off exactly where that is shorter than going on raw (src/core-manager/bitfield-rle.js). */
module GreedyChunks {
  import opened Words
  import opened Varint
  import opened Sequences
  import opened BitfieldRle

  // ----- The choice -----

  /** `[i, j)` is a maximal stretch of bytes 0, or of bytes 255, in `s`. */
  predicate Stretch(s: seq<byte>, i: nat, j: nat)
  {
    && i < j <= |s| && (s[i] == 0 || s[i] == 255) && (forall k :: i <= k < j ==> s[k] == s[i])
    && (i > 0 ==> s[i - 1] != s[i]) && (j < |s| ==> s[j] != s[i])
  }

  function Cost(s: seq<byte>): nat { if s == [] then 0 else |Wire(Raw(s))| }

  /** Is a head of raw bytes and then a run shorter than both of them raw? */
  predicate Pays(head: seq<byte>, run: seq<byte>)
    requires run != []
  {
    Cost(head) + |Wire(Fill(|run|, run[0] == 255))| < Cost(head + run)
  }

  /** Nothing is empty, and no stretch of a raw chunk would pay as a run. */
  ghost predicate ChunkOk(c: Chunk)
  {
    match c
    case Fill(length, _) => length > 0
    case Raw(bytes) => bytes != [] && forall i: nat, j: nat :: Stretch(bytes, i, j) ==> !Pays(bytes[..i], bytes[i..j])
  }

  /** Of two neighbours one is a run, which the other one does not continue; a run behind raw bytes pays. */
  ghost predicate NeighboursOk(c: Chunk, d: Chunk)
    requires ChunkOk(c) && ChunkOk(d)
  {
    && (c.Fill? || d.Fill?) && Meaning(c)[|Meaning(c)| - 1] != Meaning(d)[0]
    && (c.Raw? ==> Pays(c.bytes, Meaning(d)))
  }

  ghost predicate Greedy(chunks: seq<Chunk>)
  {
    chunks == [] || (
      && ChunkOk(chunks[0]) && Greedy(chunks[1..])
      && (|chunks| > 1 ==> NeighboursOk(chunks[0], chunks[1])))
  }

  // ----- The encoder chooses so -----

  lemma UpdatePays(input: seq<byte>, i: nat, len: nat, bits: byte, off: nat)
    requires Pending(input, i, len, bits, off) && len > 0
    ensures (Update(input, i, len, bits, off).0 != []) == Pays(input[off..i - len], input[i - len..i])
  {
    assert input[off..i - len] + input[i - len..i] == input[off..i];
  }

  /** Where a scan is at position `i`: a run of `len` bytes pends that has begun there, or a byte of another
      kind was last; what was emitted last ends where a stretch ends; and no stretch since then pays. */
  ghost predicate Scanned(input: seq<byte>, i: nat, len: nat, bits: byte, off: nat)
  {
    && Pending(input, i, len, bits, off)
    && (len > 0 && i > len ==> input[i - len - 1] != bits)
    && (len == 0 && i > 0 ==> input[i - 1] != 0 && input[i - 1] != 255)
    && (0 < off < |input| ==> input[off - 1] != input[off])
    && NonePays(input, off, i - len)
  }

  ghost predicate NonePays(input: seq<byte>, off: nat, to: nat)
    requires to <= |input|
  {
    forall i: nat, j: nat :: off <= i && j <= to && Stretch(input, i, j) ==> !Pays(input[off..i], input[i..j])
  }

  /** The stretches of a part that begins and ends at a border are stretches of the whole. */
  lemma RawOk(input: seq<byte>, off: nat, to: nat)
    requires off < to <= |input| && NonePays(input, off, to)
    requires 0 < off ==> input[off - 1] != input[off]
    requires to < |input| ==> input[to - 1] != input[to]
    ensures ChunkOk(Raw(input[off..to]))
  {
    var s := input[off..to];
    forall i: nat, j: nat | Stretch(s, i, j) ensures !Pays(s[..i], s[i..j]) {
      StretchOfPart(input, off, to, i, j);
      PartOfPart(input, off, to, i, j);
    }
  }

  lemma StretchOfPart(input: seq<byte>, off: nat, to: nat, i: nat, j: nat)
    requires off < to <= |input| && Stretch(input[off..to], i, j)
    requires 0 < off ==> input[off - 1] != input[off]
    requires to < |input| ==> input[to - 1] != input[to]
    ensures Stretch(input, off + i, off + j)
  {
    forall k | off + i <= k < off + j ensures input[k] == input[off + i] {
      assert input[k] == input[off..to][k - off];
    }
    if i > 0 { assert input[off + i - 1] == input[off..to][i - 1]; }
    if off + j < to { assert input[off + j] == input[off..to][j]; }
  }

  /** A stretch is one of a longer part, too. */
  lemma StretchOfFront(s: seq<byte>, m: nat, l: nat, n: nat)
    requires 0 < l && 0 < n && l + n <= m <= |s| && (s[l] == 0 || s[l] == 255)
    requires (forall k :: l <= k < l + n ==> s[k] == s[l]) && s[l - 1] != s[l] && (l + n < |s| ==> s[l + n] != s[l])
    ensures Stretch(s[..m], l, l + n)
  {
  }

  /** A run that pends and ends at `i` is the only stretch that ends behind its beginning and not behind `i`. */
  lemma OnlyRun(input: seq<byte>, i: nat, len: nat, bits: byte, off: nat, j: nat, k: nat)
    requires Scanned(input, i, len, bits, off) && (i < |input| ==> input[i] != bits)
    requires off <= j && i - len < k <= i && Stretch(input, j, k)
    ensures len > 0 && j == i - len && k == i
  {
    if len > 0 {
      assert input[i - len] == bits && input[k - 1] == input[j] == bits;
    }
  }

  /** A stretch that does not pay is passed over. */
  lemma PassedOver(input: seq<byte>, i: nat, len: nat, bits: byte, off: nat)
    requires Scanned(input, i, len, bits, off) && (i < |input| ==> input[i] != bits)
    requires len > 0 ==> !Pays(input[off..i - len], input[i - len..i])
    ensures NonePays(input, off, i)
  {
    forall j: nat, k: nat | off <= j && k <= i && Stretch(input, j, k) ensures !Pays(input[off..j], input[j..k]) {
      if k > i - len { OnlyRun(input, i, len, bits, off, j, k); }
    }
  }

  /** The scan goes on at a byte that does not continue the run. */
  lemma TurnScanned(input: seq<byte>, i: nat, len: nat, bits: byte, off: nat)
    requires Scanned(input, i, len, bits, off) && i < |input| && input[i] != bits
    ensures var off' := EndRun(input, i, len, bits, off).1;
      if input[i] != 0 && input[i] != 255 then Scanned(input, i + 1, 0, bits, off')
      else Scanned(input, i + 1, 1, input[i], off')
  {
    if len > 0 { UpdatePays(input, i, len, bits, off); }
    var off' := EndRun(input, i, len, bits, off).1;
    if off' == off { PassedOver(input, i, len, bits, off); }
    assert NonePays(input, off', i);
    if input[i] != 0 && input[i] != 255 {
      forall j: nat, k: nat | off' <= j && k <= i + 1 && Stretch(input, j, k)
        ensures !Pays(input[off'..j], input[j..k])
      {
      }
    }
  }

  /** Chunks that stand for something begin with its first byte. */
  lemma FirstByte(chunks: seq<Chunk>, s: seq<byte>)
    requires Greedy(chunks) && Expand(chunks) == s
    ensures chunks == [] <==> s == []
    ensures chunks != [] ==> Meaning(chunks[0]) != [] && Meaning(chunks[0])[0] == s[0]
  {
    if chunks != [] { assert s == Meaning(chunks[0]) + Expand(chunks[1..]); }
  }

  lemma GreedyCons(c: Chunk, rest: seq<Chunk>)
    requires ChunkOk(c) && Greedy(rest) && (rest != [] ==> NeighboursOk(c, rest[0]))
    ensures Greedy([c] + rest)
  {
    assert ([c] + rest)[1..] == rest;
  }

  /** The raw bytes `[off, mid)`, if any, and then a run. */
  function HeadAndRun(input: seq<byte>, off: nat, mid: nat, run: Chunk): seq<Chunk>
    requires off <= mid <= |input|
  {
    (if mid > off then [Raw(input[off..mid])] else []) + [run]
  }

  lemma UpdateOut(input: seq<byte>, i: nat, len: nat, bits: byte, off: nat)
    requires Pending(input, i, len, bits, off) && len > 0 && Pays(input[off..i - len], input[i - len..i])
    ensures Update(input, i, len, bits, off).0 == HeadAndRun(input, off, i - len, Fill(len, bits != 0))
  {
    UpdatePays(input, i, len, bits, off);
  }

  /** A run that pays, with the raw bytes before it, in front of what is chosen for the rest. */
  lemma Emitted(input: seq<byte>, i: nat, len: nat, bits: byte, off: nat, rest: seq<Chunk>)
    requires Pending(input, i, len, bits, off) && len > 0 && (i < |input| ==> input[i] != bits)
    requires i - len > off ==> ChunkOk(Raw(input[off..i - len])) && input[i - len - 1] != bits
    requires Pays(input[off..i - len], input[i - len..i]) && Greedy(rest) && Expand(rest) == input[i..]
    ensures Greedy(HeadAndRun(input, off, i - len, Fill(len, bits != 0)) + rest)
  {
    var run := Fill(len, bits != 0);
    RunMeaning(input, i - len, i, run);
    RunThenRest(run, rest, input, i);
    if i - len > off { RawThenRun(input, off, i - len, i, run, [run] + rest); }
    HeadInFront(input, off, i - len, run, rest);
  }

  lemma HeadInFront(input: seq<byte>, off: nat, mid: nat, run: Chunk, rest: seq<Chunk>)
    requires off <= mid <= |input|
    ensures HeadAndRun(input, off, mid, run) + rest ==
      if mid > off then [Raw(input[off..mid])] + ([run] + rest) else [run] + rest
  {
  }

  lemma RawThenRun(input: seq<byte>, off: nat, mid: nat, i: nat, run: Chunk, tail: seq<Chunk>)
    requires off < mid < i <= |input| && ChunkOk(Raw(input[off..mid]))
    requires run.Fill? && Meaning(run) == input[mid..i] && tail != [] && tail[0] == run && Greedy(tail)
    requires Pays(input[off..mid], input[mid..i]) && input[mid - 1] != input[mid]
    ensures Greedy([Raw(input[off..mid])] + tail)
  {
    assert input[off..mid][mid - off - 1] == input[mid - 1] && input[mid..i][0] == input[mid];
    GreedyCons(Raw(input[off..mid]), tail);
  }

  lemma RunThenRest(run: Chunk, rest: seq<Chunk>, input: seq<byte>, i: nat)
    requires run.Fill? && run.length > 0 && i <= |input| && Greedy(rest) && Expand(rest) == input[i..]
    requires i < |input| ==> input[i] != if run.ones then 255 else 0
    ensures Greedy([run] + rest)
  {
    FirstByte(rest, input[i..]);
    GreedyCons(run, rest);
  }

  lemma Continued(input: seq<byte>, i: nat, len: nat, bits: byte, off: nat)
    requires Scanned(input, i, len, bits, off) && i < |input| && input[i] == bits
    ensures Scanned(input, i + 1, len + 1, bits, off)
    ensures Scan(input, i, len, bits, off) == Scan(input, i + 1, len + 1, bits, off)
  {
  }

  /** The scan goes on at a byte that does not continue the run. */
  lemma Turn(input: seq<byte>, i: nat, len: nat, bits: byte, off: nat) returns (len': nat, bits': byte, off': nat)
    requires Scanned(input, i, len, bits, off) && i < |input| && input[i] != bits
    ensures Scanned(input, i + 1, len', bits', off')
    ensures Greedy(Scan(input, i + 1, len', bits', off')) ==> Greedy(Scan(input, i, len, bits, off))
  {
    TurnScanned(input, i, len, bits, off);
    var out;
    out, len', bits', off' := ScanTurn(input, i, len, bits, off);
    var rest := Scan(input, i + 1, len', bits', off');
    ScanMeaning(input, i + 1, len', bits', off');
    if Greedy(rest) { TurnGreedy(input, i, len, bits, off, rest); }
  }

  lemma {:induction false} ScanGreedy(input: seq<byte>, i: nat, len: nat, bits: byte, off: nat)
    requires Scanned(input, i, len, bits, off)
    ensures Greedy(Scan(input, i, len, bits, off))
    decreases |input| - i
  {
    if i == |input| {
      ScanLast(input, len, bits, off);
    } else if input[i] == bits {
      Continued(input, i, len, bits, off);
      ScanGreedy(input, i + 1, len + 1, bits, off);
    } else {
      var len', bits', off' := Turn(input, i, len, bits, off);
      ScanGreedy(input, i + 1, len', bits', off');
    }
  }

  /** What is emitted at the end of a run, if anything, in front of what is chosen for the rest. */
  lemma TurnGreedy(input: seq<byte>, i: nat, len: nat, bits: byte, off: nat, rest: seq<Chunk>)
    requires Scanned(input, i, len, bits, off) && (i < |input| ==> input[i] != bits)
    requires Greedy(rest) && Expand(rest) == input[EndRun(input, i, len, bits, off).1..]
    ensures Greedy(EndRun(input, i, len, bits, off).0 + rest)
  {
    if EndRun(input, i, len, bits, off).0 != [] {
      UpdatePays(input, i, len, bits, off);
      UpdateOut(input, i, len, bits, off);
      if i - len > off { RawOk(input, off, i - len); }
      Emitted(input, i, len, bits, off, rest);
    } else {
      assert EndRun(input, i, len, bits, off).0 + rest == rest;
    }
  }

  lemma ScanLast(input: seq<byte>, len: nat, bits: byte, off: nat)
    requires Scanned(input, |input|, len, bits, off)
    ensures Greedy(Scan(input, |input|, len, bits, off))
  {
    var n := |input|;
    var (out, off') := EndRun(input, n, len, bits, off);
    if len > 0 { UpdatePays(input, n, len, bits, off); }
    if out == [] && off < n {
      PassedOver(input, n, len, bits, off);
      RawOk(input, off, n);
      GreedyCons(Raw(input[off..n]), []);
      assert input[off..] == input[off..n];
      assert [Raw(input[off..n])] + [] == Final(input, off);
    }
    FinalMeaning(input, off');
    TurnGreedy(input, n, len, bits, off, Final(input, off'));
  }

  // ----- And whoever chooses so is the encoder -----

  /** The first chunk and the rest, as parts of what they stand for. */
  lemma FirstAndRest(chunks: seq<Chunk>, s: seq<byte>) returns (k: nat)
    requires Greedy(chunks) && chunks != [] && Expand(chunks) == s
    ensures 0 < k <= |s| && Meaning(chunks[0]) == s[..k] && Expand(chunks[1..]) == s[k..]
    ensures |chunks| > 1 <==> k < |s|
    ensures |chunks| > 1 ==> ChunkOk(chunks[0]) && ChunkOk(chunks[1])
    ensures |chunks| > 1 ==> NeighboursOk(chunks[0], chunks[1]) && Meaning(chunks[1])[0] == s[k]
  {
    var m := Meaning(chunks[0]);
    k := |m|;
    assert s == m + Expand(chunks[1..]);
    FirstByte(chunks[1..], s[k..]);
  }

  /** A run alone always pays. */
  lemma AlonePays(run: seq<byte>)
    requires run != []
    ensures Pays([], run)
  {
    var n, c := |run|, Code(Fill(|run|, run[0] == 255));
    assert [] + run == run;
    var k := |Encode(2 * n)|;
    EncodeFits(2 * n, k);
    assert Bound(k + 1) == 128 * Bound(k);
    EncodeFits(c, k + 1);
    if n == 1 { assert |Encode(c)| == 1; }
  }

  /** A run and raw bytes do not stand for the beginning of the same. */
  lemma FillNotRaw(a: seq<Chunk>, b: seq<Chunk>, s: seq<byte>)
    requires Greedy(a) && Greedy(b) && Expand(a) == Expand(b) == s && a != [] && b != []
    ensures a[0].Raw? || b[0].Fill?
  {
    var l := FirstAndRest(a, s);
    var m := FirstAndRest(b, s);
    if a[0].Fill? && b[0].Raw? {
      FillAt(a[0], s, 0, l);
      if m >= l {
        if l < |s| { Border(a, s, l); }
        NotInFront(s, m, l);
        AlonePays(s[..l]);
      }
    }
  }

  /** A stretch in front of raw bytes does not pay. */
  lemma NotInFront(s: seq<byte>, m: nat, n: nat)
    requires 0 < n <= m <= |s| && ChunkOk(Raw(s[..m])) && (s[0] == 0 || s[0] == 255)
    requires (forall k :: 0 <= k < n ==> s[k] == s[0]) && (n < |s| ==> s[n] != s[0])
    ensures !Pays([], s[..n])
  {
    assert s[..m][..0] == [] && s[..m][0..n] == s[..n];
    assert Stretch(s[..m], 0, n);
  }

  /** Two runs at the beginning of the same are the same. */
  lemma SameFill(a: seq<Chunk>, b: seq<Chunk>, s: seq<byte>)
    requires Greedy(a) && Greedy(b) && Expand(a) == Expand(b) == s && a != [] && b != [] && a[0].Fill? && b[0].Fill?
    ensures a[0].length <= b[0].length && a[0].ones == b[0].ones
  {
    var l := FirstAndRest(a, s);
    var m := FirstAndRest(b, s);
    assert s[..l][0] == s[..m][0];
  }

  /** The run behind raw bytes: it pays, and is a stretch. */
  lemma RunBehind(a: seq<Chunk>, s: seq<byte>, l: nat) returns (n: nat)
    requires Greedy(a) && |a| > 1 && a[0].Raw? && Expand(a) == s && |a[0].bytes| == l < |s|
    requires a[0].bytes == s[..l] && Expand(a[1..]) == s[l..] && l > 0
    ensures 0 < n && l + n <= |s| && (s[l] == 0 || s[l] == 255) && (forall k :: l <= k < l + n ==> s[k] == s[l])
    ensures s[l - 1] != s[l] && (l + n < |s| ==> s[l + n] != s[l]) && Pays(s[..l], s[l..l + n])
  {
    var tail := a[1..];
    n := FirstAndRest(tail, s[l..]);
    FillAt(a[1], s, l, n);
    assert a[0].bytes[l - 1] == s[l - 1] && Meaning(a[1])[0] == s[l];
    if l + n < |s| {
      assert s[l..][n] == s[l + n] && Meaning(tail[0])[n - 1] == s[l..l + n][n - 1] == s[l + n - 1];
    }
  }

  /** Chunks meet at a border. */
  lemma Border(b: seq<Chunk>, s: seq<byte>, m: nat)
    requires Greedy(b) && b != [] && Expand(b) == s && 0 < m < |s| && Meaning(b[0]) == s[..m]
    ensures s[m - 1] != s[m]
  {
    var k := FirstAndRest(b, s);
    assert s[..m][m - 1] == s[m - 1];
  }

  /** A stretch inside raw bytes does not pay. */
  lemma NotInside(s: seq<byte>, m: nat, l: nat, n: nat)
    requires m <= |s| && ChunkOk(Raw(s[..m])) && 0 < l && 0 < n && l + n <= m && (s[l] == 0 || s[l] == 255)
    requires (forall k :: l <= k < l + n ==> s[k] == s[l]) && s[l - 1] != s[l] && (l + n < |s| ==> s[l + n] != s[l])
    ensures !Pays(s[..l], s[l..l + n])
  {
    StretchOfFront(s, m, l, n);
    assert s[..m][..l] == s[..l] && s[..m][l..l + n] == s[l..l + n];
  }

  /** Nor do different raw bytes. */
  lemma SameRaw(a: seq<Chunk>, b: seq<Chunk>, s: seq<byte>)
    requires Greedy(a) && Greedy(b) && Expand(a) == Expand(b) == s && a != [] && b != [] && a[0].Raw? && b[0].Raw?
    ensures |a[0].bytes| >= |b[0].bytes|
  {
    var l := FirstAndRest(a, s);
    var m := FirstAndRest(b, s);
    if l < m {
      var n := RunBehind(a, s, l);
      if l + n <= m { NotInside(s, m, l, n); } else { Border(b, s, m); }
    }
  }

  lemma FillAt(c: Chunk, s: seq<byte>, l: nat, n: nat)
    requires c.Fill? && l + n <= |s| && n > 0 && Meaning(c) == s[l..][..n]
    ensures s[l..l + n] == Meaning(c) && (s[l] == 0 || s[l] == 255) && forall k :: l <= k < l + n ==> s[k] == s[l]
  {
    assert s[l..][..n] == s[l..l + n];
    forall k | l <= k < l + n ensures s[k] == Meaning(c)[0] { assert s[k] == s[l..l + n][k - l]; }
  }

  lemma {:induction false} Unique(a: seq<Chunk>, b: seq<Chunk>, s: seq<byte>)
    requires Greedy(a) && Greedy(b) && Expand(a) == Expand(b) == s
    ensures a == b
    decreases |a|
  {
    FirstByte(a, s);
    FirstByte(b, s);
    if a != [] {
      var l := FirstAndRest(a, s);
      var m := FirstAndRest(b, s);
      FillNotRaw(a, b, s);
      FillNotRaw(b, a, s);
      if a[0].Fill? {
        SameFill(a, b, s);
        SameFill(b, a, s);
      } else {
        SameRaw(a, b, s);
        SameRaw(b, a, s);
      }
      Unique(a[1..], b[1..], s[l..]);
      assert a == [a[0]] + a[1..] && b == [b[0]] + b[1..];
    }
  }

  // ----- The theorems -----

  /** The encoder's chunks are the only ones that stand for the input and are chosen so. */
  lemma GreedyExact(input: seq<byte>, chunks: seq<Chunk>)
    ensures chunks == Rle(input) <==> Expand(chunks) == input && Greedy(chunks)
  {
    ScanGreedy(input, 0, 0, 0, 0);
    ScanMeaning(input, 0, 0, 0, 0);
    assert input[0..] == input;
    if Expand(chunks) == input && Greedy(chunks) { Unique(chunks, Rle(input), input); }
  }

  /** A run of one byte, 0 or 255, is one number on the wire, however long it is. */
  lemma RunAlone(n: nat, b: byte)
    requires n > 0 && (b == 0 || b == 255)
    ensures Serialize(Rle(seq(n, _ => b))) == Encode(4 * n + (if b == 255 then 2 else 0) + 1)
  {
    var run := seq(n, _ => b);
    var chunks := [Fill(n, b == 255)];
    assert Expand(chunks) == Meaning(chunks[0]) + [] == run;
    GreedyExact(run, chunks);
    assert Serialize(chunks) == Wire(chunks[0]) + [];
  }

  /** Bytes of which none is 0 or 255 go out as they are, behind twice their number. */
  lemma IrregularAlone(s: seq<byte>)
    requires s != [] && 0 !in s && 255 !in s
    ensures Serialize(Rle(s)) == Encode(2 * |s|) + s
  {
    var chunks := [Raw(s)];
    assert Expand(chunks) == s + [] == s;
    GreedyExact(s, chunks);
    assert Serialize(chunks) == Wire(chunks[0]) + [];
  }

  /** The lowest byte of a word comes first, whatever the host. */
  lemma OneWord()
    ensures Encoded([1]) == [2, 1, 13]
  {
    var input: seq<byte> := [1, 0, 0, 0];
    var chunks := [Raw([1]), Fill(3, false)];
    assert Memory([1], true) == input;
    assert Meaning(chunks[1]) == [0, 0, 0];
    assert Expand(chunks) == [1] + (Meaning(chunks[1]) + []) == input;
    assert chunks[1..] == [Fill(3, false)] && chunks[1..][1..] == [];
    assert [1] + [0, 0, 0] == input && Wire(Fill(3, false)) == [13] && Wire(Raw([1])) == [2, 1];
    assert Pays([1], [0, 0, 0]);
    assert Greedy(chunks);
    GreedyExact(input, chunks);
    assert Serialize(chunks) == Wire(chunks[0]) + (Wire(chunks[1]) + []);
  }

  /** A bitfield of set bits alone. */
  lemma FullWords(n: nat)
    requires n > 0
    ensures Encoded(seq(n, _ => 0xFFFF_FFFF)) == Encode(16 * n + 3)
  {
    FullMemory(n);
    RunAlone(4 * n, 255);
  }

  lemma {:induction false} FullMemory(n: nat)
    ensures Memory(seq(n, _ => 0xFFFF_FFFF), true) == seq(4 * n, _ => 255)
  {
    if n > 0 {
      var words: seq<word> := seq(n, _ => 0xFFFF_FFFF);
      assert words[1..] == seq(n - 1, _ => 0xFFFF_FFFF);
      FullMemory(n - 1);
    }
  }
}
