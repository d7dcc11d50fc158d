/** Words by their bits, and memory by the bytes of the words in it. */
module WordBits {
  import opened Words
  import opened Varint

  /** The sum of the powers of two at the lowest `n` bits that are set. */
  function BitSum(w: word, n: nat): nat
    requires n <= 32
  {
    if n == 0 then 0 else BitSum(w, n - 1) + if WordBit([w], n - 1) then Pow2(n - 1) else 0
  }

  /** A word is the sum of its bits. */
  lemma WordIsBits(w: word)
    ensures w == BitSum(w, 32)
  {
    LowBits(w, 32);
    Powers();
  }

  lemma Powers()
    ensures Pow2(0) == 1 && Pow2(8) == 0x100 && Pow2(31) == 0x8000_0000 && Pow2(32) == 0x1_0000_0000
  {
    assert Pow2(4) == 16;
    assert Pow2(8) == 16 * Pow2(4);
    assert Pow2(12) == 16 * Pow2(8);
    assert Pow2(16) == 16 * Pow2(12);
    assert Pow2(20) == 16 * Pow2(16);
    assert Pow2(24) == 16 * Pow2(20);
    assert Pow2(28) == 16 * Pow2(24);
    assert Pow2(32) == 16 * Pow2(28);
  }

  lemma {:induction false} LowBits(w: word, n: nat)
    requires n <= 32
    ensures w % Pow2(n) == BitSum(w, n)
  {
    if n > 0 {
      LowBits(w, n - 1);
      OneBitMore(w, Pow2(n - 1));
    }
  }

  lemma OneBitMore(v: nat, b: nat)
    requires b > 0
    ensures v % (2 * b) == v % b + if v / b % 2 == 1 then b else 0
  {
    var q, d := v / b / 2, v / b % 2;
    var m := v % b + b * d;
    assert v == (2 * b) * q + m by {
      assert v / b == 2 * q + d;
      assert v == b * (2 * q + d) + v % b;
    }
    assert d == 0 || d == 1;
    Remainder(v, 2 * b, q, m);
  }

  /** The bits of an array of words, word by word. */
  lemma BitOfWords(words: seq<word>, j: nat, k: nat)
    requires j < |words| && k < 32
    ensures WordBit(words, 32 * j + k) == WordBit([words[j]], k)
  {
    assert (32 * j + k) / 32 == j && (32 * j + k) % 32 == k;
  }

  /** The least significant byte comes first on a little-endian host, and last on a big-endian one. */
  lemma {:induction false} MemoryBytes(words: seq<word>, k: nat)
    requires k < |words|
    ensures var mem, w := Memory(words, true), words[k];
      && mem[4 * k] == w % 0x100 && mem[4 * k + 1] == w / 0x100 % 0x100
      && mem[4 * k + 2] == w / 0x1_0000 % 0x100 && mem[4 * k + 3] == w / 0x100_0000
    ensures var mem, w := Memory(words, false), words[k];
      && mem[4 * k + 3] == w % 0x100 && mem[4 * k + 2] == w / 0x100 % 0x100
      && mem[4 * k + 1] == w / 0x1_0000 % 0x100 && mem[4 * k] == w / 0x100_0000
  {
    if k > 0 {
      MemoryBytes(words[1..], k - 1);
      assert Memory(words, true)[4..] == Memory(words[1..], true);
      assert Memory(words, false)[4..] == Memory(words[1..], false);
    }
  }
}
