/** The generated encoders and decoders as they run (src/generated/extensions.js, keys.js and rpc.js):
    encoders append to a writer, decoders loop on a reader. Each is tied to the functions of `Extensions`,
    `Keys`, `Rpc` and `DownloadIntents`, about which the properties are proved. A decoder's `switch` is a
    method of its own (`...Switch`), which leaves the reader alone for a tag that is not its message's. */
module GeneratedCode {
  import opened Words
  import opened Options
  import opened ProtoWire
  import opened ProtoBuffers
  import opened Extensions
  import opened Keys
  import opened Rpc
  import D = DownloadIntents

  /** What a switch did: the handler's step, with the reader moved past the field it took. */
  ghost predicate Switched<M(!new)>(h: Handler<M>, m: M, tag: nat, before: seq<byte>, r: Step<M>, after: seq<byte>)
    requires Sound(h)
  {
    r == h(m, tag, before) && (r.Taken? ==> after == before[r.length..]) && (r.Unhandled? ==> after == before)
  }

  // ----- HaveExtension -----

  method WriteHave(message: Have, writer: Writer)
    modifies writer
    ensures writer.buf == old(writer.buf) + EncodeHave(message) && writer.saved == old(writer.saved)
  {
    ghost var w := writer.buf;
    ghost var f1 := Optional(message.discoveryKey != [], 10, PutBlob(message.discoveryKey));
    ghost var f2 := Optional(message.start != 0, 16, PutUint(message.start));
    ghost var f3 := Optional(message.encodedBitfield != [], 26, PutBlob(message.encodedBitfield));
    assert w + [] == w && [] + f1 == f1;
    writer.WriteBytesField(message.discoveryKey != [], 10, message.discoveryKey, w, []);
    writer.WriteUintField(message.start != 0, 16, message.start, w, f1);
    writer.WriteBytesField(message.encodedBitfield != [], 26, message.encodedBitfield, w, f1 + f2);
    writer.WriteInt32Field(message.namespace != Auth, 32, NamespaceToNumber(message.namespace), w, f1 + f2 + f3);
  }

  method HaveSwitch(reader: Reader, tag: nat, message: Have) returns (r: Step<Have>)
    requires reader.Valid() && Sound(HaveField)
    modifies reader
    ensures reader.Valid() && Switched(HaveField, message, tag, old(reader.Rest()), r, reader.Rest())
  {
    match tag {
      case 10 =>
        var v := reader.ReadBytes();
        r := if v.Fail? then Broken else Taken(message.(discoveryKey := v.value), v.length);
      case 16 =>
        var v := reader.ReadUint64();
        r := if v.Fail? || v.value > MAX_SAFE_INTEGER then Broken else Taken(message.(start := v.value), v.length);
      case 26 =>
        var v := reader.ReadBytes();
        r := if v.Fail? then Broken else Taken(message.(encodedBitfield := v.value), v.length);
      case 32 =>
        var v := reader.ReadInt32();
        r := if v.Fail? then Broken else Taken(message.(namespace := NamespaceFromNumber(v.value)), v.length);
      case _ => r := Unhandled;
    }
  }

  /** `decode`, until `end`, a position that may lie before or behind the end of the buffer; `stop` bytes
      of the buffer are behind it. */
  method ReadHave(reader: Reader, end: int, ghost stop: int) returns (ok: bool, message: Have)
    requires reader.Valid() && stop == |reader.buf| - end
    modifies reader
    ensures reader.Valid() && Sound(HaveField)
    ensures Outcome(HaveField, old(reader.Rest()), BASE_HAVE, stop, ok, message, reader.Rest())
  {
    HaveSound();
    message := BASE_HAVE;
    ghost var start := reader.Rest();
    while reader.pos < end
      invariant reader.Valid() && Follows(HaveField, start, BASE_HAVE, stop, reader.Rest(), message)
      decreases |reader.Rest()|
    {
      ghost var s := reader.Rest();
      var tag := reader.ReadUint32();
      if tag.Fail? {
        NoTag(HaveField, start, BASE_HAVE, stop, s, message);
        return false, message;
      }
      ghost var t := reader.Rest();
      var field := HaveSwitch(reader, tag.value, message);
      if !field.Unhandled? {
        OwnField(HaveField, start, BASE_HAVE, stop, s, message, tag.value, tag.length, t);
        if field.Broken? { return false, message; }
        message := field.msg;
        continue;
      }
      OtherField(HaveField, start, BASE_HAVE, stop, s, message, tag.value, tag.length, t);
      var turn := reader.SkipUnknown(tag.value);
      if turn.GiveUp? { return false, message; }
      if turn.Early? { return true, message; }
    }
    AtEnd(HaveField, start, BASE_HAVE, stop, reader.Rest(), message);
    ok := true;
  }

  // ----- ProjectExtension and DownloadIntent: one repeated field -----

  method WriteList(list: seq<seq<byte>>, writer: Writer)
    modifies writer
    ensures writer.buf == old(writer.buf) + EncodeList(list) && writer.saved == old(writer.saved)
  {
    assert list[0..] == list;
    for i := 0 to |list|
      invariant writer.buf + EncodeList(list[i..]) == old(writer.buf) + EncodeList(list)
      invariant writer.saved == old(writer.saved)
    {
      assert list[i..][1..] == list[i + 1..];
      ghost var w := writer.buf;
      writer.WriteUint(10);
      writer.WriteBytes(list[i]);
      assert writer.buf + EncodeList(list[i + 1..]) == w + EncodeList(list[i..]);
    }
  }

  method ListSwitch(reader: Reader, tag: nat, message: seq<seq<byte>>) returns (r: Step<seq<seq<byte>>>)
    requires reader.Valid() && Sound(ListField)
    modifies reader
    ensures reader.Valid() && Switched(ListField, message, tag, old(reader.Rest()), r, reader.Rest())
  {
    match tag {
      case 10 =>
        var v := reader.ReadBytes();
        r := if v.Fail? then Broken else Taken(message + [v.value], v.length);
      case _ => r := Unhandled;
    }
  }

  /** `decode`, until `end`, a position that may lie before or behind the end of the buffer; `stop` bytes
      of the buffer are behind it. */
  method ReadList(reader: Reader, end: int, ghost stop: int) returns (ok: bool, message: seq<seq<byte>>)
    requires reader.Valid() && stop == |reader.buf| - end
    modifies reader
    ensures reader.Valid() && Sound(ListField)
    ensures Outcome(ListField, old(reader.Rest()), [], stop, ok, message, reader.Rest())
  {
    ListSound();
    message := [];
    ghost var start := reader.Rest();
    while reader.pos < end
      invariant reader.Valid() && Follows(ListField, start, [], stop, reader.Rest(), message)
      decreases |reader.Rest()|
    {
      ghost var s := reader.Rest();
      var tag := reader.ReadUint32();
      if tag.Fail? {
        NoTag(ListField, start, [], stop, s, message);
        return false, message;
      }
      ghost var t := reader.Rest();
      var field := ListSwitch(reader, tag.value, message);
      if !field.Unhandled? {
        OwnField(ListField, start, [], stop, s, message, tag.value, tag.length, t);
        if field.Broken? { return false, message; }
        message := field.msg;
        continue;
      }
      OtherField(ListField, start, [], stop, s, message, tag.value, tag.length, t);
      var turn := reader.SkipUnknown(tag.value);
      if turn.GiveUp? { return false, message; }
      if turn.Early? { return true, message; }
    }
    AtEnd(ListField, start, [], stop, reader.Rest(), message);
    ok := true;
  }

  // ----- EncryptionKeys and ProjectKeys -----

  method WriteEncryptionKeys(message: EncryptionKeys, writer: Writer)
    modifies writer
    ensures writer.buf == old(writer.buf) + EncodeEncryptionKeys(message) && writer.saved == old(writer.saved)
  {
    ghost var w := writer.buf;
    ghost var f1 := Optional(message.auth != [], 10, PutBlob(message.auth));
    ghost var f2, f3, f4 := PutOption(18, message.data), PutOption(26, message.config),
      PutOption(34, message.blobIndex);
    assert w + [] == w && [] + f1 == f1;
    writer.WriteBytesField(message.auth != [], 10, message.auth, w, []);
    WriteOption(18, message.data, writer, w, f1);
    WriteOption(26, message.config, writer, w, f1 + f2);
    WriteOption(34, message.blobIndex, writer, w, f1 + f2 + f3);
    WriteOption(42, message.blob, writer, w, f1 + f2 + f3 + f4);
  }

  method WriteOption(tag: nat, key: Option<seq<byte>>, writer: Writer, ghost before: seq<byte>, ghost so: seq<byte>)
    requires writer.buf == before + so
    modifies writer`buf
    ensures writer.buf == before + (so + PutOption(tag, key))
  {
    writer.WriteBytesField(key.Some?, tag, if key.Some? then key.value else [], before, so);
  }

  method EncryptionKeysSwitch(reader: Reader, tag: nat, message: EncryptionKeys) returns (r: Step<EncryptionKeys>)
    requires reader.Valid() && Sound(EncryptionKeysField)
    modifies reader
    ensures reader.Valid() && Switched(EncryptionKeysField, message, tag, old(reader.Rest()), r, reader.Rest())
  {
    match tag {
      case 10 =>
        var v := reader.ReadBytes();
        r := if v.Fail? then Broken else Taken(message.(auth := v.value), v.length);
      case 18 =>
        var v := reader.ReadBytes();
        r := if v.Fail? then Broken else Taken(message.(data := Some(v.value)), v.length);
      case 26 =>
        var v := reader.ReadBytes();
        r := if v.Fail? then Broken else Taken(message.(config := Some(v.value)), v.length);
      case 34 =>
        var v := reader.ReadBytes();
        r := if v.Fail? then Broken else Taken(message.(blobIndex := Some(v.value)), v.length);
      case 42 =>
        var v := reader.ReadBytes();
        r := if v.Fail? then Broken else Taken(message.(blob := Some(v.value)), v.length);
      case _ => r := Unhandled;
    }
  }

  /** `decode`, until `end`, a position that may lie before or behind the end of the buffer; `stop` bytes
      of the buffer are behind it. */
  method ReadEncryptionKeys(reader: Reader, end: int, ghost stop: int) returns (ok: bool, message: EncryptionKeys)
    requires reader.Valid() && stop == |reader.buf| - end
    modifies reader
    ensures reader.Valid() && Sound(EncryptionKeysField)
    ensures Outcome(EncryptionKeysField, old(reader.Rest()), BASE_ENCRYPTION_KEYS, stop, ok, message, reader.Rest())
  {
    EncryptionKeysSound();
    message := BASE_ENCRYPTION_KEYS;
    ghost var start := reader.Rest();
    while reader.pos < end
      invariant reader.Valid()
      invariant Follows(EncryptionKeysField, start, BASE_ENCRYPTION_KEYS, stop, reader.Rest(), message)
      decreases |reader.Rest()|
    {
      ghost var s := reader.Rest();
      var tag := reader.ReadUint32();
      if tag.Fail? {
        NoTag(EncryptionKeysField, start, BASE_ENCRYPTION_KEYS, stop, s, message);
        return false, message;
      }
      ghost var t := reader.Rest();
      var field := EncryptionKeysSwitch(reader, tag.value, message);
      if !field.Unhandled? {
        OwnField(EncryptionKeysField, start, BASE_ENCRYPTION_KEYS, stop, s, message, tag.value, tag.length, t);
        if field.Broken? { return false, message; }
        message := field.msg;
        continue;
      }
      OtherField(EncryptionKeysField, start, BASE_ENCRYPTION_KEYS, stop, s, message, tag.value, tag.length, t);
      var turn := reader.SkipUnknown(tag.value);
      if turn.GiveUp? { return false, message; }
      if turn.Early? { return true, message; }
    }
    AtEnd(EncryptionKeysField, start, BASE_ENCRYPTION_KEYS, stop, reader.Rest(), message);
    ok := true;
  }

  method WriteProjectKeys(message: ProjectKeys, writer: Writer)
    modifies writer
    ensures writer.buf == old(writer.buf) + EncodeProjectKeys(message) && writer.saved == old(writer.saved)
  {
    ghost var w := writer.buf;
    ghost var f1 := Optional(message.projectKey != [], 10, PutBlob(message.projectKey));
    ghost var f2 := PutOption(18, message.projectSecretKey);
    assert w + [] == w && [] + f1 == f1;
    writer.WriteBytesField(message.projectKey != [], 10, message.projectKey, w, []);
    WriteOption(18, message.projectSecretKey, writer, w, f1);
    if message.encryptionKeys.Some? {
      writer.WriteUint(26);
      writer.Fork();
      WriteEncryptionKeys(message.encryptionKeys.value, writer);
      assert [] + EncodeEncryptionKeys(message.encryptionKeys.value) ==
        EncodeEncryptionKeys(message.encryptionKeys.value);
      writer.Ldelim();
      Together(w, f1 + f2, true, 26, PutBlob(EncodeEncryptionKeys(message.encryptionKeys.value)));
    } else {
      Together(w, f1 + f2, false, 26, []);
    }
  }

  /** A nested message: its length, and then its decoder on the same reader. */
  method ReadNestedEncryptionKeys(reader: Reader) returns (r: Got<EncryptionKeys>)
    requires reader.Valid()
    modifies reader
    ensures reader.Valid() && Sound(EncryptionKeysField)
    ensures r == Nested(EncryptionKeysField, old(reader.Rest()), BASE_ENCRYPTION_KEYS)
    ensures r.Got? ==> reader.Rest() == old(reader.Rest())[r.length..]
  {
    EncryptionKeysSound();
    ghost var s := reader.Rest();
    var len := reader.ReadUint32();
    if len.Fail? { return Fail; }
    ghost var stop := |reader.buf| - (reader.pos + len.value);
    var start := reader.pos - len.length;
    var ok, message := ReadEncryptionKeys(reader, reader.pos + len.value, stop);
    NestedOutcome(EncryptionKeysField, s, BASE_ENCRYPTION_KEYS, len.value, len.length, stop, ok, message,
      reader.Rest());
    r := if ok then Got(message, reader.pos - start) else Fail;
  }

  method ProjectKeysSwitch(reader: Reader, tag: nat, message: ProjectKeys) returns (r: Step<ProjectKeys>)
    requires reader.Valid() && Sound(ProjectKeysField)
    modifies reader
    ensures reader.Valid() && Switched(ProjectKeysField, message, tag, old(reader.Rest()), r, reader.Rest())
  {
    match tag {
      case 10 =>
        var v := reader.ReadBytes();
        r := if v.Fail? then Broken else Taken(message.(projectKey := v.value), v.length);
      case 18 =>
        var v := reader.ReadBytes();
        r := if v.Fail? then Broken else Taken(message.(projectSecretKey := Some(v.value)), v.length);
      case 26 =>
        var v := ReadNestedEncryptionKeys(reader);
        r := if v.Fail? then Broken else Taken(message.(encryptionKeys := Some(v.value)), v.length);
      case _ => r := Unhandled;
    }
  }

  /** `decode`, until `end`, a position that may lie before or behind the end of the buffer; `stop` bytes
      of the buffer are behind it. */
  method ReadProjectKeys(reader: Reader, end: int, ghost stop: int) returns (ok: bool, message: ProjectKeys)
    requires reader.Valid() && stop == |reader.buf| - end
    modifies reader
    ensures reader.Valid() && Sound(ProjectKeysField)
    ensures Outcome(ProjectKeysField, old(reader.Rest()), BASE_PROJECT_KEYS, stop, ok, message, reader.Rest())
  {
    ProjectKeysSound();
    message := BASE_PROJECT_KEYS;
    ghost var start := reader.Rest();
    while reader.pos < end
      invariant reader.Valid() && Follows(ProjectKeysField, start, BASE_PROJECT_KEYS, stop, reader.Rest(), message)
      decreases |reader.Rest()|
    {
      ghost var s := reader.Rest();
      var tag := reader.ReadUint32();
      if tag.Fail? {
        NoTag(ProjectKeysField, start, BASE_PROJECT_KEYS, stop, s, message);
        return false, message;
      }
      ghost var t := reader.Rest();
      var field := ProjectKeysSwitch(reader, tag.value, message);
      if !field.Unhandled? {
        OwnField(ProjectKeysField, start, BASE_PROJECT_KEYS, stop, s, message, tag.value, tag.length, t);
        if field.Broken? { return false, message; }
        message := field.msg;
        continue;
      }
      OtherField(ProjectKeysField, start, BASE_PROJECT_KEYS, stop, s, message, tag.value, tag.length, t);
      var turn := reader.SkipUnknown(tag.value);
      if turn.GiveUp? { return false, message; }
      if turn.Early? { return true, message; }
    }
    AtEnd(ProjectKeysField, start, BASE_PROJECT_KEYS, stop, reader.Rest(), message);
    ok := true;
  }

  // ----- DeviceInfo -----

  method WriteDeviceInfo(message: DeviceInfo, writer: Writer)
    modifies writer
    ensures writer.buf == old(writer.buf) + EncodeDeviceInfo(message) && writer.saved == old(writer.saved)
  {
    ghost var w := writer.buf;
    ghost var f1 := Optional(message.name != [], 10, PutBlob(message.name));
    ghost var f2 := Optional(message.deviceType.Some?, 16,
      if message.deviceType.Some? then PutInt32(DeviceTypeToNumber(message.deviceType.value)) else []);
    assert w + [] == w && [] + f1 == f1;
    writer.WriteBytesField(message.name != [], 10, message.name, w, []);
    writer.WriteInt32Field(message.deviceType.Some?, 16,
      if message.deviceType.Some? then DeviceTypeToNumber(message.deviceType.value) else 0, w, f1);
    writer.WriteUint(26);
    writer.Fork();
    WriteFeatures(message.features, writer);
    assert [] + PutFeatures(message.features) == PutFeatures(message.features);
    writer.Ldelim();
    Together(w, f1 + f2, true, 26, PutBlob(PutFeatures(message.features)));
  }

  method WriteFeatures(features: seq<Feature>, writer: Writer)
    modifies writer
    ensures writer.buf == old(writer.buf) + PutFeatures(features) && writer.saved == old(writer.saved)
  {
    assert features[0..] == features;
    for i := 0 to |features|
      invariant writer.buf + PutFeatures(features[i..]) == old(writer.buf) + PutFeatures(features)
      invariant writer.saved == old(writer.saved)
    {
      assert features[i..][1..] == features[i + 1..];
      ghost var w := writer.buf;
      writer.WriteInt32(FeatureToNumber(features[i]));
      assert writer.buf + PutFeatures(features[i + 1..]) == w + PutFeatures(features[i..]);
    }
  }

  /** The inner loop over a packed list. */
  method ReadPacked(reader: Reader, features: seq<Feature>) returns (r: Got<seq<Feature>>)
    requires reader.Valid()
    modifies reader
    ensures reader.Valid() && r == PackedField(old(reader.Rest()), features)
    ensures r.Got? ==> reader.Rest() == old(reader.Rest())[r.length..]
  {
    ghost var s := reader.Rest();
    var from := reader.pos;
    var len := reader.ReadUint32();
    if len.Fail? { return Fail; }
    var end, list := reader.pos + len.value, features;
    ghost var t, stop := reader.Rest(), |reader.buf| - end;
    PackedFieldIs(s, len.value, len.length, stop, features);
    while reader.pos < end
      invariant reader.Valid() && from <= reader.pos && Packed(t, stop, features) == Packed(reader.Rest(), stop, list)
      decreases |reader.Rest()|
    {
      var v := reader.ReadInt32();
      if v.Fail? { return Fail; }
      list := list + [FeatureFromNumber(v.value)];
    }
    r := Got(list, reader.pos - from);
  }

  method DeviceInfoSwitch(reader: Reader, tag: nat, message: DeviceInfo) returns (r: Step<DeviceInfo>)
    requires reader.Valid() && Sound(DeviceInfoField)
    modifies reader
    ensures reader.Valid() && Switched(DeviceInfoField, message, tag, old(reader.Rest()), r, reader.Rest())
  {
    match tag {
      case 10 =>
        var v := reader.ReadBytes();
        r := if v.Fail? then Broken else Taken(message.(name := v.value), v.length);
      case 16 =>
        var v := reader.ReadInt32();
        r := if v.Fail? then Broken else Taken(message.(deviceType := Some(DeviceTypeFromNumber(v.value))), v.length);
      case 24 =>
        var v := reader.ReadInt32();
        r := if v.Fail? then Broken
          else Taken(message.(features := message.features + [FeatureFromNumber(v.value)]), v.length);
      case 26 =>
        var v := ReadPacked(reader, message.features);
        r := if v.Fail? then Broken else Taken(message.(features := v.value), v.length);
      case _ => r := Unhandled;
    }
  }

  /** `decode`, until `end`, a position that may lie before or behind the end of the buffer; `stop` bytes
      of the buffer are behind it. */
  method ReadDeviceInfo(reader: Reader, end: int, ghost stop: int) returns (ok: bool, message: DeviceInfo)
    requires reader.Valid() && stop == |reader.buf| - end
    modifies reader
    ensures reader.Valid() && Sound(DeviceInfoField)
    ensures Outcome(DeviceInfoField, old(reader.Rest()), BASE_DEVICE_INFO, stop, ok, message, reader.Rest())
  {
    DeviceInfoSound();
    message := BASE_DEVICE_INFO;
    ghost var start := reader.Rest();
    while reader.pos < end
      invariant reader.Valid() && Follows(DeviceInfoField, start, BASE_DEVICE_INFO, stop, reader.Rest(), message)
      decreases |reader.Rest()|
    {
      ghost var s := reader.Rest();
      var tag := reader.ReadUint32();
      if tag.Fail? {
        NoTag(DeviceInfoField, start, BASE_DEVICE_INFO, stop, s, message);
        return false, message;
      }
      ghost var t := reader.Rest();
      var field := DeviceInfoSwitch(reader, tag.value, message);
      if !field.Unhandled? {
        OwnField(DeviceInfoField, start, BASE_DEVICE_INFO, stop, s, message, tag.value, tag.length, t);
        if field.Broken? { return false, message; }
        message := field.msg;
        continue;
      }
      OtherField(DeviceInfoField, start, BASE_DEVICE_INFO, stop, s, message, tag.value, tag.length, t);
      var turn := reader.SkipUnknown(tag.value);
      if turn.GiveUp? { return false, message; }
      if turn.Early? { return true, message; }
    }
    AtEnd(DeviceInfoField, start, BASE_DEVICE_INFO, stop, reader.Rest(), message);
    ok := true;
  }

  // ----- DownloadIntentExtension -----

  method WriteEntry(key: D.BlobFilters.Text, variants: seq<D.BlobFilters.Text>, writer: Writer)
    modifies writer
    ensures writer.buf == old(writer.buf) + D.EncodeEntry(key, variants) && writer.saved == old(writer.saved)
  {
    ghost var w := writer.buf;
    ghost var f := Optional(key != [], 10, PutBlob(key));
    assert w + [] == w && [] + f == f;
    writer.WriteBytesField(key != [], 10, key, w, []);
    writer.WriteUint(18);
    writer.Fork();
    WriteList(variants, writer);
    assert [] + EncodeList(variants) == EncodeList(variants);
    writer.Ldelim();
    Together(w, f, true, 18, PutBlob(EncodeList(variants)));
  }

  method WriteIntents(entries: D.Entries, everything: bool, writer: Writer)
    modifies writer
    ensures writer.buf == old(writer.buf) + D.EncodeIntents(entries, everything) && writer.saved == old(writer.saved)
  {
    ghost var w := writer.buf;
    assert entries[0..] == entries;
    for i := 0 to |entries|
      invariant writer.buf + D.EncodeEntries(entries[i..]) == w + D.EncodeEntries(entries)
      invariant writer.saved == old(writer.saved)
    {
      NextEntry(writer.buf, entries, i);
      WriteEntryField(entries[i].0, entries[i].1, writer);
    }
    assert writer.buf + [] == writer.buf;
    writer.WriteUintField(everything, 16, 1, w, D.EncodeEntries(entries));
  }

  method WriteEntryField(key: D.BlobFilters.Text, variants: seq<D.BlobFilters.Text>, writer: Writer)
    modifies writer
    ensures writer.buf == old(writer.buf) + PutField(10, PutBlob(D.EncodeEntry(key, variants)))
    ensures writer.saved == old(writer.saved)
  {
    ghost var w := writer.buf;
    writer.WriteUint(10);
    writer.Fork();
    WriteEntry(key, variants, writer);
    NestedField(w, 10, D.EncodeEntry(key, variants));
    writer.Ldelim();
  }

  lemma NestedField(before: seq<byte>, tag: nat, inner: seq<byte>)
    ensures before + PutUint(tag) + PutBlob([] + inner) == before + PutField(tag, PutBlob(inner))
  {
    assert [] + inner == inner;
  }

  lemma NextEntry(before: seq<byte>, entries: D.Entries, i: nat)
    requires i < |entries|
    ensures before + D.EncodeEntries(entries[i..])
         == before + PutField(10, PutBlob(D.EncodeEntry(entries[i].0, entries[i].1)))
           + D.EncodeEntries(entries[i + 1..])
  {
    assert entries[i..][1..] == entries[i + 1..];
  }

  /** A nested message: its length, and then its decoder on the same reader. */
  method ReadNestedList(reader: Reader) returns (r: Got<seq<seq<byte>>>)
    requires reader.Valid()
    modifies reader
    ensures reader.Valid() && Sound(ListField) && r == Nested(ListField, old(reader.Rest()), [])
    ensures r.Got? ==> reader.Rest() == old(reader.Rest())[r.length..]
  {
    ListSound();
    ghost var s := reader.Rest();
    var len := reader.ReadUint32();
    if len.Fail? { return Fail; }
    ghost var stop := |reader.buf| - (reader.pos + len.value);
    var start := reader.pos - len.length;
    var ok, message := ReadList(reader, reader.pos + len.value, stop);
    NestedOutcome(ListField, s, [], len.value, len.length, stop, ok, message, reader.Rest());
    r := if ok then Got(message, reader.pos - start) else Fail;
  }

  method EntrySwitch(reader: Reader, tag: nat, message: D.Entry) returns (r: Step<D.Entry>)
    requires reader.Valid() && Sound(D.EntryField)
    modifies reader
    ensures reader.Valid() && Switched(D.EntryField, message, tag, old(reader.Rest()), r, reader.Rest())
  {
    match tag {
      case 10 =>
        var v := reader.ReadBytes();
        r := if v.Fail? then Broken else Taken(message.(key := v.value), v.length);
      case 18 =>
        var v := ReadNestedList(reader);
        r := if v.Fail? then Broken else Taken(message.(value := Some(v.value)), v.length);
      case _ => r := Unhandled;
    }
  }

  /** `decode`, until `end`, a position that may lie before or behind the end of the buffer; `stop` bytes
      of the buffer are behind it. */
  method ReadEntry(reader: Reader, end: int, ghost stop: int) returns (ok: bool, message: D.Entry)
    requires reader.Valid() && stop == |reader.buf| - end
    modifies reader
    ensures reader.Valid() && Sound(D.EntryField)
    ensures Outcome(D.EntryField, old(reader.Rest()), D.BASE_ENTRY, stop, ok, message, reader.Rest())
  {
    D.EntrySound();
    message := D.BASE_ENTRY;
    ghost var start := reader.Rest();
    while reader.pos < end
      invariant reader.Valid() && Follows(D.EntryField, start, D.BASE_ENTRY, stop, reader.Rest(), message)
      decreases |reader.Rest()|
    {
      ghost var s := reader.Rest();
      var tag := reader.ReadUint32();
      if tag.Fail? {
        NoTag(D.EntryField, start, D.BASE_ENTRY, stop, s, message);
        return false, message;
      }
      ghost var t := reader.Rest();
      var field := EntrySwitch(reader, tag.value, message);
      if !field.Unhandled? {
        OwnField(D.EntryField, start, D.BASE_ENTRY, stop, s, message, tag.value, tag.length, t);
        if field.Broken? { return false, message; }
        message := field.msg;
        continue;
      }
      OtherField(D.EntryField, start, D.BASE_ENTRY, stop, s, message, tag.value, tag.length, t);
      var turn := reader.SkipUnknown(tag.value);
      if turn.GiveUp? { return false, message; }
      if turn.Early? { return true, message; }
    }
    AtEnd(D.EntryField, start, D.BASE_ENTRY, stop, reader.Rest(), message);
    ok := true;
  }

  /** A nested message: its length, and then its decoder on the same reader. */
  method ReadNestedEntry(reader: Reader) returns (r: Got<D.Entry>)
    requires reader.Valid()
    modifies reader
    ensures reader.Valid() && Sound(D.EntryField) && r == Nested(D.EntryField, old(reader.Rest()), D.BASE_ENTRY)
    ensures r.Got? ==> reader.Rest() == old(reader.Rest())[r.length..]
  {
    D.EntrySound();
    ghost var s := reader.Rest();
    var len := reader.ReadUint32();
    if len.Fail? { return Fail; }
    ghost var stop := |reader.buf| - (reader.pos + len.value);
    var start := reader.pos - len.length;
    var ok, message := ReadEntry(reader, reader.pos + len.value, stop);
    NestedOutcome(D.EntryField, s, D.BASE_ENTRY, len.value, len.length, stop, ok, message, reader.Rest());
    r := if ok then Got(message, reader.pos - start) else Fail;
  }

  method IntentsSwitch(reader: Reader, tag: nat, message: D.Intents) returns (r: Step<D.Intents>)
    requires reader.Valid() && Sound(D.IntentsField)
    modifies reader
    ensures reader.Valid() && Switched(D.IntentsField, message, tag, old(reader.Rest()), r, reader.Rest())
  {
    match tag {
      case 10 =>
        var v := ReadNestedEntry(reader);
        if v.Fail? { return Broken; }
        var e := v.value;
        var byType := if e.value.Some? then D.Assign(message.byType, e.key, e.value.value) else message.byType;
        r := Taken(message.(byType := byType), v.length);
      case 16 =>
        var v := reader.ReadBool();
        r := if v.Fail? then Broken else Taken(message.(everything := v.value), v.length);
      case _ => r := Unhandled;
    }
  }

  /** `decode`, until `end`, a position that may lie before or behind the end of the buffer; `stop` bytes
      of the buffer are behind it. */
  method ReadIntents(reader: Reader, end: int, ghost stop: int) returns (ok: bool, message: D.Intents)
    requires reader.Valid() && stop == |reader.buf| - end
    modifies reader
    ensures reader.Valid() && Sound(D.IntentsField)
    ensures Outcome(D.IntentsField, old(reader.Rest()), D.BASE_INTENTS, stop, ok, message, reader.Rest())
  {
    D.IntentsSound();
    message := D.BASE_INTENTS;
    ghost var start := reader.Rest();
    while reader.pos < end
      invariant reader.Valid() && Follows(D.IntentsField, start, D.BASE_INTENTS, stop, reader.Rest(), message)
      decreases |reader.Rest()|
    {
      ghost var s := reader.Rest();
      var tag := reader.ReadUint32();
      if tag.Fail? {
        NoTag(D.IntentsField, start, D.BASE_INTENTS, stop, s, message);
        return false, message;
      }
      ghost var t := reader.Rest();
      var field := IntentsSwitch(reader, tag.value, message);
      if !field.Unhandled? {
        OwnField(D.IntentsField, start, D.BASE_INTENTS, stop, s, message, tag.value, tag.length, t);
        if field.Broken? { return false, message; }
        message := field.msg;
        continue;
      }
      OtherField(D.IntentsField, start, D.BASE_INTENTS, stop, s, message, tag.value, tag.length, t);
      var turn := reader.SkipUnknown(tag.value);
      if turn.GiveUp? { return false, message; }
      if turn.Early? { return true, message; }
    }
    AtEnd(D.IntentsField, start, D.BASE_INTENTS, stop, reader.Rest(), message);
    ok := true;
  }
}
