/** Splitting and joining sequences. */
module Sequences {
  lemma Associates<T>(a: seq<T>, b: seq<T>, c: seq<T>)
    ensures a + (b + c) == a + b + c
  {
  }

  /** Two neighbouring stretches of `s`. */
  lemma Neighbours<T>(s: seq<T>, i: nat, j: nat, k: nat, a: seq<T>, b: seq<T>)
    requires i <= j <= k <= |s| && a == s[i..j] && b == s[j..k]
    ensures a + b == s[i..k]
  {
  }

  /** A stretch, and the rest of `s`. */
  lemma StretchAndRest<T>(s: seq<T>, i: nat, j: nat, a: seq<T>, b: seq<T>)
    requires i <= j <= |s| && a == s[i..j] && b == s[j..]
    ensures a + b == s[i..]
  {
  }

  /** Where the parts of `before + (head + body) + rest` are. */
  lemma Parts<T>(before: seq<T>, head: seq<T>, body: seq<T>, rest: seq<T>, s: seq<T>, i: nat)
    requires s == before + (head + body) + rest && i == |before| + |head|
    ensures s[|before|..] == head + (body + rest) && s[i..i + |body|] == body
  {
  }

  /** The middle part moved from the right to the left. */
  lemma Regroup<T>(a: seq<T>, b: seq<T>, c: seq<T>, bc: seq<T>, ab: seq<T>)
    requires bc == b + c && ab == a + b
    ensures a + bc == ab + c
  {
  }

  /** Parts of a part. */
  lemma PartOfPart<T>(s: seq<T>, off: nat, to: nat, i: nat, j: nat)
    requires off <= to <= |s| && i <= j <= to - off
    ensures s[off..to][..i] == s[off..off + i] && s[off..to][i..j] == s[off + i..off + j]
  {
    assert |s[off..to][i..j]| == j - i;
    assert forall k :: 0 <= k < j - i ==> s[off..to][i..j][k] == s[off + i + k];
  }

  lemma DropOfSum<T>(s: seq<T>, t: seq<T>, k: nat)
    requires k <= |s|
    ensures (s + t)[k..] == s[k..] + t
  {
  }

  lemma DropPrefix<T>(a: seq<T>, b: seq<T>)
    ensures (a + b)[|a|..] == b
  {
  }

  lemma FourParts<T>(a: seq<T>, b: seq<T>, c: seq<T>, d: seq<T>)
    ensures a + b + c + d == a + (b + (c + d))
  {
  }

  lemma HeadAndTail<T>(m: seq<T>, list: seq<T>)
    requires list != []
    ensures m + [list[0]] + list[1..] == m + list
  {
  }

  /** `n` elements moved from the front of the rest to the end of what is done. */
  lemma MoveOver<T>(all: seq<T>, done: seq<T>, rest: seq<T>, n: nat)
    requires all == done + rest && n <= |rest|
    ensures all == done + rest[..n] + rest[n..]
  {
    assert rest == rest[..n] + rest[n..];
  }

  lemma TakeAll<T>(all: seq<T>, done: seq<T>, rest: seq<T>)
    requires all == done + rest && rest == []
    ensures all == done
  {
  }
}
