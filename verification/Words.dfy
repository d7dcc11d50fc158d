/** 32-bit words, their bits and their bytes in memory on either kind of host. */
module Words {

  /** The largest number a JavaScript number can count to. */
  const MAX_SAFE_INTEGER: nat := 9007199254740991

  type byte = b: nat | b < 256

  type word = w: nat | w < 0x1_0000_0000

  function Pow2(k: nat): (p: nat)
    ensures p > 0
  {
    if k == 0 then 1 else 2 * Pow2(k - 1)
  }

  /** Bit `k` of an array of words, from the least significant bit of the first word on. */
  predicate WordBit(words: seq<word>, k: nat)
    requires k < 32 * |words|
  {
    words[k / 32] / Pow2(k % 32) % 2 == 1
  }

  /** The four bytes of a word, least significant first. */
  function Bytes(w: word): seq<byte>
  {
    [w % 256, w / 0x100 % 256, w / 0x1_0000 % 256, w / 0x100_0000]
  }

  function Word(b0: byte, b1: byte, b2: byte, b3: byte): word
  {
    b0 + 0x100 * b1 + 0x1_0000 * b2 + 0x100_0000 * b3
  }

  /** The memory of a `Uint32Array` on a little- or big-endian host. */
  function Memory(words: seq<word>, littleEndian: bool): (mem: seq<byte>)
    ensures |mem| == 4 * |words|
  {
    if words == [] then [] else
      var b := Bytes(words[0]);
      (if littleEndian then b else [b[3], b[2], b[1], b[0]]) + Memory(words[1..], littleEndian)
  }

  /** The words a host sees in memory. */
  function View(mem: seq<byte>, littleEndian: bool): (words: seq<word>)
    requires |mem| % 4 == 0
    ensures 4 * |words| == |mem|
  {
    if mem == [] then [] else
      [if littleEndian then Word(mem[0], mem[1], mem[2], mem[3]) else Word(mem[3], mem[2], mem[1], mem[0])]
      + View(mem[4..], littleEndian)
  }

  /** `Buffer.swap32`: the bytes of every group of four in reverse. */
  function Swap32(mem: seq<byte>): (swapped: seq<byte>)
    requires |mem| % 4 == 0
    ensures |swapped| == |mem|
  {
    if mem == [] then [] else [mem[3], mem[2], mem[1], mem[0]] + Swap32(mem[4..])
  }

  lemma WordOfBytes(w: word)
    ensures Word(w % 256, w / 0x100 % 256, w / 0x1_0000 % 256, w / 0x100_0000) == w
  {
    var a, b, c := w / 0x100, w / 0x1_0000, w / 0x100_0000;
    assert a / 0x100 == b;
    assert b / 0x100 == c;
  }

  lemma BytesOfWord(b0: byte, b1: byte, b2: byte, b3: byte)
    ensures Bytes(Word(b0, b1, b2, b3)) == [b0, b1, b2, b3]
  {
    var w := Word(b0, b1, b2, b3);
    assert w / 0x100 == b1 + 0x100 * b2 + 0x1_0000 * b3;
    assert w / 0x1_0000 == b2 + 0x100 * b3;
  }

  lemma {:induction false} ViewMemory(words: seq<word>, littleEndian: bool)
    ensures View(Memory(words, littleEndian), littleEndian) == words
  {
    if words != [] {
      WordOfBytes(words[0]);
      var mem := Memory(words, littleEndian);
      assert mem[4..] == Memory(words[1..], littleEndian);
      ViewMemory(words[1..], littleEndian);
    }
  }

  lemma {:induction false} MemoryView(mem: seq<byte>, littleEndian: bool)
    requires |mem| % 4 == 0
    ensures Memory(View(mem, littleEndian), littleEndian) == mem
  {
    if mem != [] {
      MemoryView(mem[4..], littleEndian);
      var words := View(mem, littleEndian);
      assert words[1..] == View(mem[4..], littleEndian);
      if littleEndian {
        BytesOfWord(mem[0], mem[1], mem[2], mem[3]);
      } else {
        BytesOfWord(mem[3], mem[2], mem[1], mem[0]);
      }
    }
  }

  /** Swapping a big-endian host's memory gives the little-endian memory of the same words. */
  lemma {:induction false} SwapMemory(words: seq<word>)
    ensures Swap32(Memory(words, false)) == Memory(words, true)
  {
    if words != [] {
      var mem := Memory(words, false);
      assert mem[4..] == Memory(words[1..], false);
      SwapMemory(words[1..]);
    }
  }
}
