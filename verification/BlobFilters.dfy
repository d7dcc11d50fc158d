/** Which blobs a filter selects (src/blob-store/utils.js). Text is UTF-8: the separator is a byte no
    other character contains. */
module BlobFilters {
  import opened Words
  import opened Options

  type Text = seq<byte>

  /** The bytes of some ASCII text. */
  function Ascii(s: string): (t: Text)
    requires forall k :: 0 <= k < |s| ==> s[k] < 128 as char
  {
    seq(|s|, k requires 0 <= k < |s| => s[k] as int)
  }

  const SLASH: byte := '/' as int

  /** The blob types wanted, and the variants wanted of each; no list of variants, or an empty one, means
      all variants. */
  type Filter = map<Text, Option<seq<Text>>>

  /** `split('/')`. */
  function Split(path: Text): (parts: seq<Text>)
    ensures |parts| > 0
  {
    if path == [] then [[]]
    else
      var rest := Split(path[1..]);
      if path[0] == SLASH then [[]] + rest else [[path[0]] + rest[0]] + rest[1..]
  }

  /** `split('/', 4)`. */
  function PathParts(path: Text): (parts: seq<Text>)
    ensures 0 < |parts| <= 4
  {
    var parts := Split(path);
    if |parts| > 4 then parts[..4] else parts
  }

  function Variants(f: Filter, key: Text): seq<Text>
    requires key in f
  {
    match f[key] case None => [] case Some(variants) => variants
  }

  /** `filePathMatchesFilter`. */
  predicate Matches(f: Filter, path: Text)
  {
    var parts := PathParts(path);
    if parts[0] != [] then false
    else if |parts| < 2 || parts[1] == [] then false
    else if parts[1] !in f then false
    else
      var allowed := Variants(f, parts[1]);
      if allowed == [] then |parts| >= 3 else |parts| >= 4 && parts[2] in allowed
  }

  predicate NoSlash(t: Text) { SLASH !in t }

  /** Splitting at the first separator. */
  lemma {:induction false} SplitFirst(a: Text, b: Text)
    requires NoSlash(a)
    ensures Split(a + [SLASH] + b) == [a] + Split(b)
  {
    var path := a + [SLASH] + b;
    if a == [] {
      assert path[1..] == b;
    } else {
      assert a[1..] + [SLASH] + b == path[1..];
      SplitFirst(a[1..], b);
      assert [a[0]] + a[1..] == a;
    }
  }

  lemma {:induction false} SplitNone(a: Text)
    requires NoSlash(a)
    ensures Split(a) == [a]
  {
    if a != [] {
      SplitNone(a[1..]);
      assert [a[0]] + a[1..] == a;
    }
  }

  /** Every text is free of separators or has a first one. */
  lemma {:induction false} Cut(path: Text) returns (a: Text, b: Text)
    ensures NoSlash(a)
    ensures if NoSlash(path) then a == path else path == a + [SLASH] + b
  {
    if path == [] {
      a, b := [], [];
    } else if path[0] == SLASH {
      a, b := [], path[1..];
      assert path == [] + [SLASH] + path[1..];
    } else {
      var a', b' := Cut(path[1..]);
      a, b := [path[0]] + a', b';
      assert path == [path[0]] + path[1..];
      if !NoSlash(path) { assert path == [path[0]] + (a' + [SLASH] + b'); }
    }
  }

  /** A text has one first part. */
  lemma OneFirst(a: Text, b: Text, c: Text, d: Text)
    requires NoSlash(a) && NoSlash(c) && a + [SLASH] + b == c + [SLASH] + d
    ensures a == c
  {
    SplitFirst(a, b);
    SplitFirst(c, d);
    assert ([a] + Split(b))[0] == a && ([c] + Split(d))[0] == c;
  }

  /** `/type/rest`. */
  function BlobPath(blobType: Text, rest: Text): Text { [SLASH] + blobType + [SLASH] + rest }

  /** What the filter says about `/type/rest`: everything of a type without a list of variants, or with an empty
      one; otherwise one of those listed must come next, and something must follow it. */
  lemma MatchesPath(f: Filter, blobType: Text, rest: Text)
    requires SLASH !in blobType && blobType != []
    ensures Matches(f, [SLASH] + blobType + [SLASH] + rest) <==>
      && blobType in f
      && (f[blobType] == None || f[blobType] == Some([]) ||
          exists k, name :: 0 <= k < |f[blobType].value| && Listed(f[blobType].value[k], rest, name))
  {
    MatchesVariants(f, blobType, rest);
    if blobType in f && f[blobType].Some? && f[blobType].value != [] {
      var variants := f[blobType].value;
      if v, name :| v in variants && NoSlash(v) && rest == v + [SLASH] + name {
        var k :| 0 <= k < |variants| && variants[k] == v;
        assert Listed(variants[k], rest, name);
      }
      if k, name :| 0 <= k < |variants| && Listed(variants[k], rest, name) {
        assert variants[k] in variants;
      }
    }
  }

  /** Variant `v`, a separator, and a name. */
  predicate Listed(v: Text, rest: Text, name: Text) { SLASH !in v && rest == v + [SLASH] + name }

  lemma MatchesVariants(f: Filter, blobType: Text, rest: Text)
    requires NoSlash(blobType) && blobType != []
    ensures Matches(f, BlobPath(blobType, rest)) <==>
      && blobType in f
      && (Variants(f, blobType) == [] ||
          exists v, name :: v in Variants(f, blobType) && NoSlash(v) && rest == v + [SLASH] + name)
  {
    var path := BlobPath(blobType, rest);
    SplitFirst([], blobType + [SLASH] + rest);
    assert path == [] + [SLASH] + (blobType + [SLASH] + rest);
    SplitFirst(blobType, rest);
    assert Split(path) == [[], blobType] + Split(rest);
    var v, name := Cut(rest);
    if NoSlash(rest) {
      SplitNone(rest);
      forall w, n | NoSlash(w) ensures rest != w + [SLASH] + n {
        assert (w + [SLASH] + n)[|w|] == SLASH;
      }
    } else {
      SplitFirst(v, name);
      forall w, n | NoSlash(w) && rest == w + [SLASH] + n ensures w == v {
        OneFirst(w, n, v, name);
      }
    }
  }

  lemma IsBlobPath(path: Text, blobType: Text, rest: Text)
    requires path == [] + [SLASH] + (blobType + [SLASH] + rest)
    ensures path == BlobPath(blobType, rest)
  {
  }

  /** A path that is not `/type/rest` is never selected. */
  lemma MatchesOnlyBlobPaths(f: Filter, path: Text)
    requires Matches(f, path)
    ensures exists blobType, rest :: NoSlash(blobType) && blobType != [] && path == BlobPath(blobType, rest)
  {
    var a, b := Cut(path);
    if NoSlash(path) { SplitNone(path); } else {
      SplitFirst(a, b);
      var c, d := Cut(b);
      if NoSlash(b) { SplitNone(b); } else {
        SplitFirst(c, d);
        IsBlobPath(path, c, d);
      }
    }
  }
}
