/** Project keys with the encryption keys nested inside (src/generated/keys.js). */
module Keys {
  import opened Words
  import opened Options
  import opened ProtoWire

  datatype EncryptionKeys = EncryptionKeys(
    auth: seq<byte>, data: Option<seq<byte>>, config: Option<seq<byte>>, blobIndex: Option<seq<byte>>,
      blob: Option<seq<byte>>)

  const BASE_ENCRYPTION_KEYS := EncryptionKeys([], None, None, None, None)

  datatype ProjectKeys = ProjectKeys(
    projectKey: seq<byte>, projectSecretKey: Option<seq<byte>>, encryptionKeys: Option<EncryptionKeys>)

  const BASE_PROJECT_KEYS := ProjectKeys([], None, None)

  // ----- EncryptionKeys -----

  function EncryptionKeysField(m: EncryptionKeys, tag: nat, s: seq<byte>): Step<EncryptionKeys>
  {
    if tag == 10 || tag == 18 || tag == 26 || tag == 34 || tag == 42 then
      match Blob(s)
      case Fail => Broken
      case Got(key, n) =>
        Taken(
          if tag == 10 then m.(auth := key)
          else if tag == 18 then m.(data := Some(key))
          else if tag == 26 then m.(config := Some(key))
          else if tag == 34 then m.(blobIndex := Some(key))
          else m.(blob := Some(key)), n)
    else Unhandled
  }

  /** An optional bytes field: written whenever present, even when empty. */
  function PutOption(tag: nat, key: Option<seq<byte>>): seq<byte>
  {
    Optional(key.Some?, tag, if key.Some? then PutBlob(key.value) else [])
  }

  function EncodeEncryptionKeys(m: EncryptionKeys): seq<byte>
  {
    Optional(m.auth != [], 10, PutBlob(m.auth)) + PutOption(18, m.data) + PutOption(26, m.config)
      + PutOption(34, m.blobIndex) + PutOption(42, m.blob)
  }

  lemma EncryptionKeysSound()
    ensures Sound(EncryptionKeysField)
  {
    forall m, tag, s, t | !EncryptionKeysField(m, tag, s).Broken?
      ensures EncryptionKeysField(m, tag, s + t) == EncryptionKeysField(m, tag, s)
    {
      if tag == 10 || tag == 18 || tag == 26 || tag == 34 || tag == 42 { BlobExtends(s, t); }
    }
  }

  predicate OptionShort(key: Option<seq<byte>>) { key.Some? ==> Short(key.value) }

  predicate EncryptionKeysShort(m: EncryptionKeys)
  {
    Short(m.auth) && OptionShort(m.data) && OptionShort(m.config) && OptionShort(m.blobIndex) && OptionShort(m.blob)
  }

  function Later<T>(earlier: Option<T>, later: Option<T>): Option<T>
  {
    if later.Some? then later else earlier
  }

  function MergeEncryptionKeys(m: EncryptionKeys, x: EncryptionKeys): EncryptionKeys
  {
    EncryptionKeys(if x.auth != [] then x.auth else m.auth, Later(m.data, x.data), Later(m.config, x.config),
                   Later(m.blobIndex, x.blobIndex), Later(m.blob, x.blob))
  }

  lemma AuthRun(x: EncryptionKeys, m: EncryptionKeys)
    requires Sound(EncryptionKeysField) && Short(x.auth)
    ensures Run(EncryptionKeysField, Optional(x.auth != [], 10, PutBlob(x.auth)), m) ==
      Ran(if x.auth != [] then m.(auth := x.auth) else m)
  {
    BlobAlone(x.auth);
    OptionalRun(EncryptionKeysField, x.auth != [], 10, PutBlob(x.auth), m,
      if x.auth != [] then m.(auth := x.auth) else m);
  }

  function SetKey(m: EncryptionKeys, tag: nat, key: Option<seq<byte>>): EncryptionKeys
    requires tag in {18, 26, 34, 42}
  {
    if key.None? then m
    else if tag == 18 then m.(data := key)
    else if tag == 26 then m.(config := key)
    else if tag == 34 then m.(blobIndex := key)
    else m.(blob := key)
  }

  lemma OptionRun(tag: nat, key: Option<seq<byte>>, m: EncryptionKeys)
    requires Sound(EncryptionKeysField) && tag in {18, 26, 34, 42} && OptionShort(key)
    ensures Run(EncryptionKeysField, PutOption(tag, key), m) == Ran(SetKey(m, tag, key))
  {
    if key.Some? {
      BlobAlone(key.value);
      KnownRun(EncryptionKeysField, tag, PutBlob(key.value), m, SetKey(m, tag, key));
    }
  }

  lemma EncryptionKeysRun(x: EncryptionKeys, m: EncryptionKeys)
    requires EncryptionKeysShort(x)
    ensures Sound(EncryptionKeysField)
    ensures Run(EncryptionKeysField, EncodeEncryptionKeys(x), m) == Ran(MergeEncryptionKeys(m, x))
  {
    EncryptionKeysSound();
    var h := EncryptionKeysField;
    var f1 := Optional(x.auth != [], 10, PutBlob(x.auth));
    var f2, f3, f4, f5 := PutOption(18, x.data), PutOption(26, x.config), PutOption(34, x.blobIndex),
      PutOption(42, x.blob);
    AuthRun(x, m);
    var m1 := Run(h, f1, m).msg;
    RunAppend(h, f1, f2, m);
    OptionRun(18, x.data, m1);
    var m2 := SetKey(m1, 18, x.data);
    RunAppend(h, f1 + f2, f3, m);
    OptionRun(26, x.config, m2);
    var m3 := SetKey(m2, 26, x.config);
    RunAppend(h, f1 + f2 + f3, f4, m);
    OptionRun(34, x.blobIndex, m3);
    var m4 := SetKey(m3, 34, x.blobIndex);
    RunAppend(h, f1 + f2 + f3 + f4, f5, m);
    OptionRun(42, x.blob, m4);
  }

  // ----- ProjectKeys -----

  /** The nested keys are decoded with the same reader, up to where their length says they end, and
      replace any that were read before. */
  function ProjectKeysField(m: ProjectKeys, tag: nat, s: seq<byte>): Step<ProjectKeys>
  {
    if tag == 10 then
      match Blob(s) case Fail => Broken case Got(key, n) => Taken(m.(projectKey := key), n)
    else if tag == 18 then
      match Blob(s) case Fail => Broken case Got(key, n) => Taken(m.(projectSecretKey := Some(key)), n)
    else if tag == 26 then
      EncryptionKeysSound();
      match Nested(EncryptionKeysField, s, BASE_ENCRYPTION_KEYS) {
        case Fail => Broken
        case Got(keys, n) => Taken(m.(encryptionKeys := Some(keys)), n)
      }
    else Unhandled
  }

  function EncodeProjectKeys(m: ProjectKeys): seq<byte>
  {
    Optional(m.projectKey != [], 10, PutBlob(m.projectKey)) + PutOption(18, m.projectSecretKey)
    + Optional(m.encryptionKeys.Some?, 26,
        if m.encryptionKeys.Some? then PutBlob(EncodeEncryptionKeys(m.encryptionKeys.value)) else [])
  }

  lemma ProjectKeysSound()
    ensures Sound(ProjectKeysField)
  {
    forall m, tag, s, t | !ProjectKeysField(m, tag, s).Broken?
      ensures ProjectKeysField(m, tag, s + t) == ProjectKeysField(m, tag, s)
    {
      if tag == 10 || tag == 18 { BlobExtends(s, t); }
      if tag == 26 {
        EncryptionKeysSound();
        NestedExtends(EncryptionKeysField, s, t, BASE_ENCRYPTION_KEYS);
      }
    }
  }

  predicate ProjectKeysShort(m: ProjectKeys)
  {
    && Short(m.projectKey) && OptionShort(m.projectSecretKey)
    && (m.encryptionKeys.Some? ==>
      EncryptionKeysShort(m.encryptionKeys.value) && Short(EncodeEncryptionKeys(m.encryptionKeys.value)))
  }

  /** The nested keys are replaced as a whole, not merged. */
  function MergeProjectKeys(m: ProjectKeys, x: ProjectKeys): ProjectKeys
  {
    ProjectKeys(if x.projectKey != [] then x.projectKey else m.projectKey,
                Later(m.projectSecretKey, x.projectSecretKey), Later(m.encryptionKeys, x.encryptionKeys))
  }

  lemma ProjectKeyRun(x: ProjectKeys, m: ProjectKeys)
    requires Sound(ProjectKeysField) && Short(x.projectKey)
    ensures Run(ProjectKeysField, Optional(x.projectKey != [], 10, PutBlob(x.projectKey)), m)
         == Ran(if x.projectKey != [] then m.(projectKey := x.projectKey) else m)
  {
    BlobAlone(x.projectKey);
    OptionalRun(ProjectKeysField, x.projectKey != [], 10, PutBlob(x.projectKey), m,
      if x.projectKey != [] then m.(projectKey := x.projectKey) else m);
  }

  lemma SecretKeyRun(x: ProjectKeys, m: ProjectKeys)
    requires Sound(ProjectKeysField) && OptionShort(x.projectSecretKey)
    ensures Run(ProjectKeysField, PutOption(18, x.projectSecretKey), m) ==
      Ran(m.(projectSecretKey := Later(m.projectSecretKey, x.projectSecretKey)))
  {
    if x.projectSecretKey.Some? {
      BlobAlone(x.projectSecretKey.value);
      KnownRun(ProjectKeysField, 18, PutBlob(x.projectSecretKey.value), m, m.(projectSecretKey := x.projectSecretKey));
    }
  }

  lemma NestedKeysRun(x: EncryptionKeys, m: ProjectKeys)
    requires Sound(ProjectKeysField) && EncryptionKeysShort(x) && Short(EncodeEncryptionKeys(x))
    ensures Run(ProjectKeysField, PutField(26, PutBlob(EncodeEncryptionKeys(x))), m) ==
      Ran(m.(encryptionKeys := Some(x)))
  {
    var value := PutBlob(EncodeEncryptionKeys(x));
    EncryptionKeysRun(x, BASE_ENCRYPTION_KEYS);
    NestedReads(EncryptionKeysField, EncodeEncryptionKeys(x), [], BASE_ENCRYPTION_KEYS);
    assert value + [] == value;
    KnownRun(ProjectKeysField, 26, value, m, m.(encryptionKeys := Some(x)));
  }

  lemma ProjectKeysRun(x: ProjectKeys, m: ProjectKeys)
    requires ProjectKeysShort(x)
    ensures Sound(ProjectKeysField) && Run(ProjectKeysField, EncodeProjectKeys(x), m) == Ran(MergeProjectKeys(m, x))
  {
    ProjectKeysSound();
    var h := ProjectKeysField;
    var f1, f2 := Optional(x.projectKey != [], 10, PutBlob(x.projectKey)), PutOption(18, x.projectSecretKey);
    ProjectKeyRun(x, m);
    var m1 := Run(h, f1, m).msg;
    RunAppend(h, f1, f2, m);
    SecretKeyRun(x, m1);
    var m2 := Run(h, f2, m1).msg;
    if x.encryptionKeys.Some? {
      NestedKeysRun(x.encryptionKeys.value, m2);
      RunAppend(h, f1 + f2, PutField(26, PutBlob(EncodeEncryptionKeys(x.encryptionKeys.value))), m);
    } else {
      assert EncodeProjectKeys(x) == f1 + f2;
    }
  }

  /** Round trip: absent stays apart from empty; and a second encoding's fields win, the nested keys as a
      whole. */
  lemma ProjectKeysRoundTrip(x: ProjectKeys, y: ProjectKeys)
    requires ProjectKeysShort(x) && ProjectKeysShort(y)
    ensures Sound(ProjectKeysField) && Decode(ProjectKeysField, EncodeProjectKeys(x), BASE_PROJECT_KEYS) == Done(x, [])
    ensures Decode(ProjectKeysField, EncodeProjectKeys(x) + EncodeProjectKeys(y), BASE_PROJECT_KEYS) ==
      Done(MergeProjectKeys(x, y), [])
  {
    ProjectKeysRun(x, BASE_PROJECT_KEYS);
    DecodeRun(ProjectKeysField, EncodeProjectKeys(x), BASE_PROJECT_KEYS);
    ProjectKeysRun(y, x);
    RunAppend(ProjectKeysField, EncodeProjectKeys(x), EncodeProjectKeys(y), BASE_PROJECT_KEYS);
    DecodeRun(ProjectKeysField, EncodeProjectKeys(x) + EncodeProjectKeys(y), BASE_PROJECT_KEYS);
  }

  // ----- Repeated nested messages, by the code and by the specification -----

  /** Two encodings of nested keys in a row decode to the field-wise merge: what the specification wants of a
      nested message that is repeated. */
  lemma EncryptionKeysConcatenation(a: EncryptionKeys, b: EncryptionKeys)
    requires EncryptionKeysShort(a) && EncryptionKeysShort(b)
    ensures Sound(EncryptionKeysField)
    ensures Decode(EncryptionKeysField, EncodeEncryptionKeys(a) + EncodeEncryptionKeys(b), BASE_ENCRYPTION_KEYS)
         == Done(MergeEncryptionKeys(a, b), [])
  {
    EncryptionKeysRun(a, BASE_ENCRYPTION_KEYS);
    EncryptionKeysRun(b, a);
    RunAppend(EncryptionKeysField, EncodeEncryptionKeys(a), EncodeEncryptionKeys(b), BASE_ENCRYPTION_KEYS);
    DecodeRun(EncryptionKeysField, EncodeEncryptionKeys(a) + EncodeEncryptionKeys(b), BASE_ENCRYPTION_KEYS);
  }

  /** The merge of section "Last One Wins" of the Protocol Buffers Encoding specification: nested messages on
      both sides are merged field by field. */
  function SpecifiedMerge(x: ProjectKeys, y: ProjectKeys): ProjectKeys
  {
    if x.encryptionKeys.Some? && y.encryptionKeys.Some? then
      MergeProjectKeys(x, y).(encryptionKeys :=
        Some(MergeEncryptionKeys(x.encryptionKeys.value, y.encryptionKeys.value)))
    else MergeProjectKeys(x, y)
  }

  /** The later keys say something about every key the earlier ones say something about. */
  predicate Covers(later: EncryptionKeys, earlier: EncryptionKeys)
  {
    && (later.auth == [] ==> earlier.auth == [])
    && (later.data.None? ==> earlier.data.None?) && (later.config.None? ==> earlier.config.None?)
    && (later.blobIndex.None? ==> earlier.blobIndex.None?) && (later.blob.None? ==> earlier.blob.None?)
  }

  /** Two encodings in a row decode as the specification has it, if and only if, where both have nested keys,
      the later ones cover the earlier ones. */
  lemma LastOneWinsExact(x: ProjectKeys, y: ProjectKeys)
    requires ProjectKeysShort(x) && ProjectKeysShort(y)
    ensures Sound(ProjectKeysField)
    ensures Decode(ProjectKeysField, EncodeProjectKeys(x) + EncodeProjectKeys(y), BASE_PROJECT_KEYS) ==
      Done(SpecifiedMerge(x, y), [])
      <==> (x.encryptionKeys.Some? && y.encryptionKeys.Some? ==> Covers(y.encryptionKeys.value, x.encryptionKeys.value))
  {
    ProjectKeysRoundTrip(x, y);
  }

  /** Two messages that the code does not merge as specified: the data key of the first one is lost. */
  lemma LastOneWinsMiss()
    ensures var x := ProjectKeys([], None, Some(EncryptionKeys([1], Some([2]), None, None, None)));
      var y := ProjectKeys([], None, Some(EncryptionKeys([3], None, None, None, None)));
      && Sound(ProjectKeysField)
      && Decode(ProjectKeysField, EncodeProjectKeys(x) + EncodeProjectKeys(y), BASE_PROJECT_KEYS) == Done(y, [])
      && SpecifiedMerge(x, y) == ProjectKeys([], None, Some(EncryptionKeys([3], Some([2]), None, None, None)))
  {
    var x := ProjectKeys([], None, Some(EncryptionKeys([1], Some([2]), None, None, None)));
    var y := ProjectKeys([], None, Some(EncryptionKeys([3], None, None, None, None)));
    FewBytes(x.encryptionKeys.value);
    FewBytes(y.encryptionKeys.value);
    ProjectKeysRoundTrip(x, y);
  }

  /** Keys of a byte each have a short encoding. */
  lemma FewBytes(m: EncryptionKeys)
    requires |m.auth| == 1 && m.config.None? && m.blobIndex.None? && m.blob.None?
    requires m.data.Some? ==> |m.data.value| == 1
    ensures EncryptionKeysShort(m) && Short(EncodeEncryptionKeys(m))
  {
    assert |PutUint(1)| == |PutUint(10)| == |PutUint(18)| == 1;
  }
}
