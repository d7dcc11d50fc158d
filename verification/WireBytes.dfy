/** The bytes that each message is on the wire, field number by field number and enum value by enum value, as
    src/generated/extensions.js, keys.js and rpc.js have them. */
module WireBytes {
  import opened Words
  import opened Options
  import opened ProtoWire
  import Varint
  import opened Extensions
  import opened Keys
  import opened Rpc
  import opened DownloadIntents

  /** A length, and then the bytes. */
  function Sized(b: seq<byte>): seq<byte> { Varint.Encode(|b|) + b }

  /** What there is of a field. */
  function If(present: bool, field: seq<byte>): seq<byte> { if present then field else [] }

  /** -1 on the wire. */
  const MINUS_ONE: seq<byte> := [255, 255, 255, 255, 255, 255, 255, 255, 255, 1]

  lemma SmallNumbers()
    ensures forall v: nat :: v < 128 ==> PutUint(v) == [v] && PutInt32(v) == [v]
  {
  }

  lemma MinusOne()
    ensures PutInt32(-1) == MINUS_ONE
  {
    Ones(0x1FF_FFFF_FFFF_FFFF);
    Ones(0x3_FFFF_FFFF_FFFF);
    Ones(0x7FF_FFFF_FFFF);
    Ones(0xF_FFFF_FFFF);
    Ones(0x1FFF_FFFF);
    Ones(0x3F_FFFF);
    Ones(0x7FFF);
    Ones(0xFF);
    Ones(1);
  }

  /** Seven one bits more are one byte more in front. */
  lemma Ones(v: nat)
    requires v > 0
    ensures Varint.Encode(128 * v + 127) == [255] + Varint.Encode(v)
  {
    assert (128 * v + 127) / 128 == v;
  }

  // ----- Have messages, and the project extension -----

  lemma HaveBytes(m: Have)
    ensures EncodeHave(m) ==
      If(m.discoveryKey != [], [10] + Sized(m.discoveryKey)) + If(m.start > 0, [16] + Varint.Encode(m.start))
      + If(m.encodedBitfield != [], [26] + Sized(m.encodedBitfield))
      + match m.namespace
        case Auth => []
        case Config => [32, 1]
        case Data => [32, 2]
        case BlobIndex => [32, 3]
        case Blobs => [32, 4]
        case UnrecognizedNamespace => [32] + MINUS_ONE
  {
    SmallNumbers();
    MinusOne();
  }

  /** Every 32-bit number, read as a namespace. */
  lemma NamespaceRead(v: int, m: Have)
    requires -0x8000_0000 <= v < 0x8000_0000
    ensures Sound(HaveField)
    ensures Run(HaveField, [32] + PutInt32(v), m) == Ran(m.(namespace :=
      if v == 0 then Auth else if v == 1 then Config else if v == 2 then Data else if v == 3 then BlobIndex
      else if v == 4 then Blobs else UnrecognizedNamespace))
  {
    HaveSound();
    SmallNumbers();
    ReadInt32(v, []);
    assert PutInt32(v) + [] == PutInt32(v);
    KnownRun(HaveField, 32, PutInt32(v), m, m.(namespace := NamespaceFromNumber(v)));
  }

  /** Auth core keys, each a field 1. */
  lemma ListBytes(list: seq<seq<byte>>)
    ensures EncodeList(list) == if list == [] then [] else [10] + Sized(list[0]) + EncodeList(list[1..])
  {
    SmallNumbers();
  }

  // ----- Keys -----

  lemma EncryptionKeysBytes(m: EncryptionKeys)
    ensures EncodeEncryptionKeys(m) ==
      If(m.auth != [], [10] + Sized(m.auth))
      + (if m.data.Some? then [18] + Sized(m.data.value) else [])
      + (if m.config.Some? then [26] + Sized(m.config.value) else [])
      + (if m.blobIndex.Some? then [34] + Sized(m.blobIndex.value) else [])
      + (if m.blob.Some? then [42] + Sized(m.blob.value) else [])
  {
    SmallNumbers();
  }

  lemma ProjectKeysBytes(m: ProjectKeys)
    ensures EncodeProjectKeys(m) ==
      If(m.projectKey != [], [10] + Sized(m.projectKey))
      + (if m.projectSecretKey.Some? then [18] + Sized(m.projectSecretKey.value) else [])
      + (if m.encryptionKeys.Some? then [26] + Sized(EncodeEncryptionKeys(m.encryptionKeys.value)) else [])
  {
    SmallNumbers();
  }

  // ----- Device info -----

  lemma DeviceInfoBytes(m: DeviceInfo)
    ensures EncodeDeviceInfo(m) ==
      If(m.name != [], [10] + Sized(m.name)) + DeviceTypeBytes(m.deviceType) + ([26] + Sized(PutFeatures(m.features)))
  {
    SmallNumbers();
    DeviceTypeField(m.deviceType);
  }

  function DeviceTypeBytes(t: Option<DeviceType>): seq<byte>
  {
    match t
    case None => []
    case Some(DeviceTypeUnspecified) => [16, 0]
    case Some(Mobile) => [16, 1]
    case Some(Tablet) => [16, 2]
    case Some(Desktop) => [16, 3]
    case Some(UnrecognizedDeviceType) => [16] + MINUS_ONE
  }

  lemma DeviceTypeField(t: Option<DeviceType>)
    ensures Optional(t.Some?, 16, if t.Some? then PutInt32(DeviceTypeToNumber(t.value)) else []) == DeviceTypeBytes(t)
  {
    SmallNumbers();
    MinusOne();
  }

  /** The features one after the other, without tags. */
  lemma FeatureBytes(features: seq<Feature>)
    ensures PutFeatures(features) == if features == [] then [] else
      (match features[0]
       case FeaturesUnspecified => [0]
       case AckFeature => [1]
       case MapShareFeature => [2]
       case UnrecognizedFeature => MINUS_ONE) + PutFeatures(features[1..])
  {
    SmallNumbers();
    MinusOne();
  }

  /** Every 32-bit number, read as a device type. */
  lemma DeviceTypeRead(v: int, m: DeviceInfo)
    requires -0x8000_0000 <= v < 0x8000_0000
    ensures Sound(DeviceInfoField)
    ensures Run(DeviceInfoField, [16] + PutInt32(v), m) == Ran(m.(deviceType := Some(
      if v == 0 then DeviceTypeUnspecified else if v == 1 then Mobile else if v == 2 then Tablet
      else if v == 3 then Desktop else UnrecognizedDeviceType)))
  {
    DeviceInfoSound();
    SmallNumbers();
    ReadInt32(v, []);
    assert PutInt32(v) + [] == PutInt32(v);
    KnownRun(DeviceInfoField, 16, PutInt32(v), m, m.(deviceType := Some(DeviceTypeFromNumber(v))));
  }

  /** And as a feature in a field of its own. */
  lemma FeatureRead(v: int, m: DeviceInfo)
    requires -0x8000_0000 <= v < 0x8000_0000
    ensures Sound(DeviceInfoField)
    ensures Run(DeviceInfoField, [24] + PutInt32(v), m) == Ran(m.(features := m.features +
      [if v == 0 then FeaturesUnspecified else if v == 1 then AckFeature else if v == 2 then MapShareFeature
       else UnrecognizedFeature]))
  {
    DeviceInfoSound();
    SmallNumbers();
    ReadInt32(v, []);
    assert PutInt32(v) + [] == PutInt32(v);
    KnownRun(DeviceInfoField, 24, PutInt32(v), m, m.(features := m.features + [FeatureFromNumber(v)]));
  }

  // ----- Download intents -----

  /** An entry is a field 1 with a key and a list of variants, itself nested. */
  lemma EntryBytes(key: seq<byte>, variants: seq<seq<byte>>)
    ensures EncodeEntry(key, variants) == If(key != [], [10] + Sized(key)) + [18] + Sized(EncodeList(variants))
  {
    SmallNumbers();
  }

  lemma IntentsBytes(entries: Entries, everything: bool)
    ensures EncodeIntents([], everything) == If(everything, [16, 1])
    ensures entries != [] ==> (
      EncodeIntents(entries, everything) ==
        [10] + Sized(EncodeEntry(entries[0].0, entries[0].1)) + EncodeIntents(entries[1..], everything))
  {
    SmallNumbers();
  }
}
