/** Bytes, and base-128 varints: seven bits a byte, least significant first, the top bit set on every
    byte but the last. Both the `varint` package used by the run-length codec and the Protocol Buffers
    wire format read and write numbers this way; they differ in how many bytes they accept. */
module Varint {
  import opened Words

  /** The bytes of a number. */
  function Encode(v: nat): (s: seq<byte>)
    ensures |s| > 0
  {
    if v < 128 then [v] else [128 + v % 128] + Encode(v / 128)
  }

  datatype Read = NoVarint | Read(value: nat, length: nat)

  /** Read the number at the start of `s`, from at most `limit` bytes. */
  function Decode(s: seq<byte>, limit: nat): (r: Read)
    ensures r.Read? ==> 0 < r.length <= |s| && r.length <= limit
  {
    if s == [] || limit == 0 then NoVarint
    else if s[0] < 128 then Read(s[0], 1)
    else
      match Decode(s[1..], limit - 1)
      case NoVarint => NoVarint
      case Read(value, length) => Read(s[0] - 128 + 128 * value, length + 1)
  }

  /** Reading back a written number, whatever follows it, as long as it is not too long for the reader. */
  lemma {:induction false} DecodeEncode(v: nat, rest: seq<byte>, limit: nat)
    ensures Decode(Encode(v) + rest, limit) == if |Encode(v)| <= limit then Read(v, |Encode(v)|) else NoVarint
  {
    if v >= 128 {
      var s := Encode(v) + rest;
      assert s[1..] == Encode(v / 128) + rest;
      if limit > 0 {
        DecodeEncode(v / 128, rest, limit - 1);
      }
    } else {
      assert (Encode(v) + rest)[0] == v;
    }
  }

  /** A number that was read does not depend on what follows it. */
  lemma {:induction false} DecodeExtends(s: seq<byte>, t: seq<byte>, limit: nat)
    requires Decode(s, limit).Read?
    ensures Decode(s + t, limit) == Decode(s, limit)
  {
    assert (s + t)[0] == s[0];
    if s[0] >= 128 {
      assert (s + t)[1..] == s[1..] + t;
      DecodeExtends(s[1..], t, limit - 1);
    }
  }

  /** The largest number `n` bytes can carry, plus one. */
  function Bound(n: nat): (b: nat)
    ensures b > 0
  {
    if n == 0 then 1 else 128 * Bound(n - 1)
  }

  /** A number fits `n` bytes exactly when it is below the bound. */
  lemma {:induction false} EncodeFits(v: nat, n: nat)
    requires n > 0
    ensures |Encode(v)| <= n <==> v < Bound(n)
  {
    if n == 1 {
      assert Bound(1) == 128 * Bound(0);
    } else if v >= 128 {
      EncodeFits(v / 128, n - 1);
    } else {
      assert Bound(n - 1) >= 1;
    }
  }

  /** No number takes more bytes than its value, from 1 on. */
  lemma {:induction false} EncodeShort(v: nat)
    requires v > 0
    ensures |Encode(v)| <= v
  {
    if v >= 128 {
      EncodeShort(v / 128);
    }
  }

  // ----- The first bytes of a long number -----

  /** The number that the low seven bits of the first `n` bytes make. */
  function Groups(s: seq<byte>, n: nat): nat
    requires n <= |s|
  {
    if n == 0 then 0 else s[0] % 128 + 128 * Groups(s[1..], n - 1)
  }

  /** The first `n` bytes are a number: only the last of them is below 128. */
  predicate Ends(s: seq<byte>, n: nat)
  {
    0 < n <= |s| && s[n - 1] < 128 && forall k :: 0 <= k < n - 1 ==> s[k] >= 128
  }

  /** What is read from any bytes that begin with a number, written as shortly as possible or not: its groups of
      seven bits, least significant first. */
  lemma {:induction false} DecodeExact(s: seq<byte>, n: nat, limit: nat)
    requires Ends(s, n)
    ensures Decode(s, limit) == if n <= limit then Read(Groups(s, n), n) else NoVarint
  {
    if n > 1 && limit > 0 {
      assert s[1..][n - 2] == s[n - 1];
      DecodeExact(s[1..], n - 1, limit - 1);
    }
  }

  /** Nothing is read from bytes of which none ends a number. */
  lemma {:induction false} DecodeNone(s: seq<byte>, limit: nat)
    requires forall k :: 0 <= k < |s| ==> s[k] >= 128
    ensures Decode(s, limit).NoVarint?
  {
    if s != [] && limit > 0 { DecodeNone(s[1..], limit - 1); }
  }

  /** A number is written as the shortest bytes that make it. */
  lemma {:induction false} EncodeExact(v: nat)
    ensures var s := Encode(v);
      Ends(s, |s|) && Groups(s, |s|) == v && (|s| > 1 ==> s[|s| - 1] != 0)
  {
    if v >= 128 {
      EncodeExact(v / 128);
      assert Encode(v)[1..] == Encode(v / 128);
    }
  }

  /** `n` bytes that do not end a number do not depend on what follows them. */
  lemma {:induction false} LongExtends(s: seq<byte>, t: seq<byte>, n: nat)
    requires n <= |s| && Decode(s, n).NoVarint?
    ensures Decode(s + t, n).NoVarint? && Groups(s + t, n) == Groups(s, n)
  {
    if n > 0 {
      assert (s + t)[0] == s[0] && (s + t)[1..] == s[1..] + t;
      LongExtends(s[1..], t, n - 1);
    }
  }

  /** The first `n` bytes of a number that takes more hold its value up to the bound. */
  lemma {:induction false} LongGroups(v: nat, rest: seq<byte>, n: nat)
    requires n < |Encode(v)|
    ensures Groups(Encode(v) + rest, n) == v % Bound(n)
  {
    if n > 0 {
      var s := Encode(v) + rest;
      assert s[0] == 128 + v % 128 && s[1..] == Encode(v / 128) + rest;
      LongGroups(v / 128, rest, n - 1);
      OneGroupMore(v, Bound(n - 1));
    }
  }

  lemma OneGroupMore(v: nat, b: nat)
    requires b > 0
    ensures v % (128 * b) == v % 128 + 128 * (v / 128 % b)
  {
    var q, m := v / 128 / b, v % 128 + 128 * (v / 128 % b);
    assert v == (128 * b) * q + m && m < 128 * b by {
      assert v / 128 == b * q + v / 128 % b;
      assert v == 128 * (b * q + v / 128 % b) + v % 128;
    }
    Remainder(v, 128 * b, q, m);
  }

  /** Quotient and remainder are unique. */
  lemma Remainder(v: nat, d: nat, q: nat, m: nat)
    requires m < d && v == d * q + m
    ensures v % d == m
  {
    var k, r := v / d, v % d;
    assert v == d * k + r;
    if k > q { Apart(d, q, k); }
    if k < q { Apart(d, k, q); }
  }

  lemma Apart(d: nat, q: nat, k: nat)
    requires q < k
    ensures d * k >= d * q + d
  {
    assert d * k == d * q + d * (k - q);
    assert d * (k - q) == d + d * (k - q - 1);
  }
}
