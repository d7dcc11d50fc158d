/** `DeviceInfo` (src/generated/rpc.js): a repeated enum that is written packed and read in either form. */
module Rpc {
  import opened Words
  import opened Sequences
  import opened Options
  import opened ProtoWire

  datatype DeviceType = DeviceTypeUnspecified | Mobile | Tablet | Desktop | UnrecognizedDeviceType

  function DeviceTypeToNumber(t: DeviceType): int
  {
    match t
    case DeviceTypeUnspecified => 0
    case Mobile => 1
    case Tablet => 2
    case Desktop => 3
    case UnrecognizedDeviceType => -1
  }

  function DeviceTypeFromNumber(v: int): DeviceType
  {
    if v == 0 then DeviceTypeUnspecified
    else if v == 1 then Mobile
    else if v == 2 then Tablet
    else if v == 3 then Desktop
    else UnrecognizedDeviceType
  }

  datatype Feature = FeaturesUnspecified | AckFeature | MapShareFeature | UnrecognizedFeature

  function FeatureToNumber(f: Feature): int
  {
    match f case FeaturesUnspecified => 0 case AckFeature => 1 case MapShareFeature => 2 case UnrecognizedFeature => -1
  }

  function FeatureFromNumber(v: int): Feature
  {
    if v == 0 then FeaturesUnspecified
    else if v == 1 then AckFeature
    else if v == 2 then MapShareFeature
    else UnrecognizedFeature
  }

  /** The name is UTF-8 text. */
  datatype DeviceInfo = DeviceInfo(name: seq<byte>, deviceType: Option<DeviceType>, features: seq<Feature>)

  const BASE_DEVICE_INFO := DeviceInfo([], None, [])

  /** The inner loop over a packed list: `stop` bytes lie behind its end. */
  function Packed(s: seq<byte>, stop: int, features: seq<Feature>): (r: Decoded<seq<Feature>>)
    ensures r.Done? ==> |r.rest| <= |s|
    decreases |s|
  {
    if |s| <= stop then Done(features, s) else
      match Int32(s)
      case Fail => Invalid
      case Got(v, n) => Packed(s[n..], stop, features + [FeatureFromNumber(v)])
  }

  function PackedField(s: seq<byte>, features: seq<Feature>): (r: Got<seq<Feature>>)
    ensures r.Got? ==> r.length <= |s|
  {
    match Uint32(s)
    case Fail => Fail
    case Got(len, k) =>
      var stop := |s| - k - len;
      PackedFrom(s, k, stop, features)
  }

  function PackedFrom(s: seq<byte>, k: nat, stop: int, features: seq<Feature>): (r: Got<seq<Feature>>)
    requires k <= |s|
    ensures r.Got? ==> r.length <= |s|
  {
    match Packed(s[k..], stop, features)
    case Invalid => Fail
    case Done(list, rest) => Got(list, |s| - |rest|)
  }

  function DeviceInfoField(m: DeviceInfo, tag: nat, s: seq<byte>): Step<DeviceInfo>
  {
    if tag == 10 then
      match Blob(s) case Fail => Broken case Got(name, n) => Taken(m.(name := name), n)
    else if tag == 16 then
      match Int32(s) case Fail => Broken case Got(v, n) => Taken(m.(deviceType := Some(DeviceTypeFromNumber(v))), n)
    else if tag == 24 then
      match Int32(s) case Fail => Broken case Got(v, n) => Taken(m.(features := m.features + [FeatureFromNumber(v)]), n)
    else if tag == 26 then
      match PackedField(s, m.features) case Fail => Broken case Got(list, n) => Taken(m.(features := list), n)
    else Unhandled
  }

  function PutFeatures(features: seq<Feature>): seq<byte>
  {
    if features == [] then [] else PutInt32(FeatureToNumber(features[0])) + PutFeatures(features[1..])
  }

  /** The packed list is written even when it is empty. */
  function EncodeDeviceInfo(m: DeviceInfo): seq<byte>
  {
    Optional(m.name != [], 10, PutBlob(m.name))
    + Optional(m.deviceType.Some?, 16,
        if m.deviceType.Some? then PutInt32(DeviceTypeToNumber(m.deviceType.value)) else [])
    + PutField(26, PutBlob(PutFeatures(m.features)))
  }

  /** The same features as other writers may put them: one field each. */
  function OneByOne(features: seq<Feature>): seq<byte>
  {
    if features == [] then [] else PutField(24, PutInt32(FeatureToNumber(features[0]))) + OneByOne(features[1..])
  }

  lemma {:induction false} PackedExtends(s: seq<byte>, t: seq<byte>, stop: int, stop': int, features: seq<Feature>)
    requires Packed(s, stop, features).Done? && stop' == stop + |t|
    ensures Packed(s + t, stop', features) == Done(Packed(s, stop, features).msg, Packed(s, stop, features).rest + t)
    decreases |s|
  {
    if |s| > stop {
      Uint32Extends(s, t);
      var n := Int32(s).length;
      DropOfSum(s, t, n);
      PackedExtends(s[n..], t, stop, stop', features + [FeatureFromNumber(Int32(s).value)]);
    }
  }

  lemma PackedFromExtends(s: seq<byte>, t: seq<byte>, k: nat, stop: int, stop': int, features: seq<Feature>)
    requires k <= |s| && PackedFrom(s, k, stop, features).Got? && stop' == stop + |t|
    ensures PackedFrom(s + t, k, stop', features) == PackedFrom(s, k, stop, features)
  {
    DropOfSum(s, t, k);
    PackedExtends(s[k..], t, stop, stop', features);
  }

  lemma PackedFieldExtends(s: seq<byte>, t: seq<byte>, features: seq<Feature>)
    requires PackedField(s, features).Got?
    ensures PackedField(s + t, features) == PackedField(s, features)
  {
    Uint32Extends(s, t);
    var len, k := Uint32(s).value, Uint32(s).length;
    PackedFromExtends(s, t, k, |s| - k - len, |s + t| - k - len, features);
  }

  lemma DeviceInfoSound()
    ensures Sound(DeviceInfoField)
  {
    forall m, tag, s, t | !DeviceInfoField(m, tag, s).Broken?
      ensures DeviceInfoField(m, tag, s + t) == DeviceInfoField(m, tag, s)
    {
      if tag == 10 { BlobExtends(s, t); }
      if tag == 16 || tag == 24 { Uint32Extends(s, t); }
      if tag == 26 { PackedFieldExtends(s, t, m.features); }
    }
  }

  /** A packed list of any length is read back, and exactly its own bytes. */
  lemma {:induction false} PackedReads(list: seq<Feature>, t: seq<byte>, features: seq<Feature>)
    ensures Packed(PutFeatures(list) + t, |t|, features) == Done(features + list, t)
    decreases |list|
  {
    if list == [] {
      assert PutFeatures(list) + t == t && features + list == features;
    } else {
      var v, rest := FeatureToNumber(list[0]), PutFeatures(list[1..]);
      Associates(PutInt32(v), rest, t);
      ReadInt32(v, rest + t);
      DropPrefix(PutInt32(v), rest + t);
      PackedReads(list[1..], t, features + [list[0]]);
      HeadAndTail(features, list);
    }
  }

  lemma PackedFieldIs(s: seq<byte>, len: nat, k: nat, stop: int, features: seq<Feature>)
    requires Uint32(s) == Got(len, k) && stop == |s| - k - len
    ensures PackedField(s, features) == PackedFrom(s, k, stop, features)
  {
  }

  lemma PackedFromReads(s: seq<byte>, k: nat, list: seq<Feature>, features: seq<Feature>)
    requires k <= |s| && s[k..] == PutFeatures(list)
    ensures PackedFrom(s, k, 0, features) == Got(features + list, |s|)
  {
    PackedReads(list, [], features);
    assert PutFeatures(list) + [] == PutFeatures(list);
  }

  lemma PackedValue(list: seq<Feature>, features: seq<Feature>)
    requires Short(PutFeatures(list))
    ensures PackedField(PutBlob(PutFeatures(list)), features) == Got(features + list, |PutBlob(PutFeatures(list))|)
  {
    var b := PutFeatures(list);
    var value, k := PutBlob(b), |PutUint(|b|)|;
    ReadUint(|b|, b);
    DropPrefix(PutUint(|b|), b);
    PackedFieldIs(value, |b|, k, 0, features);
    PackedFromReads(value, k, list, features);
  }

  lemma PackedRun(list: seq<Feature>, m: DeviceInfo)
    requires Sound(DeviceInfoField) && Short(PutFeatures(list))
    ensures Run(DeviceInfoField, PutField(26, PutBlob(PutFeatures(list))), m) == Ran(m.(features := m.features + list))
  {
    var value, m' := PutBlob(PutFeatures(list)), m.(features := m.features + list);
    PackedValue(list, m.features);
    PackedTaken(value, list, m, m');
    KnownRun(DeviceInfoField, 26, value, m, m');
  }

  lemma PackedTaken(value: seq<byte>, list: seq<Feature>, m: DeviceInfo, m': DeviceInfo)
    requires PackedField(value, m.features) == Got(m.features + list, |value|)
    requires m' == m.(features := m.features + list)
    ensures DeviceInfoField(m, 26, value) == Taken(m', |value|)
  {
  }

  lemma OneByOneStep(list: seq<Feature>, m: DeviceInfo)
    requires Sound(DeviceInfoField) && list != []
    ensures Run(DeviceInfoField, OneByOne(list), m) ==
      Run(DeviceInfoField, OneByOne(list[1..]), m.(features := m.features + [list[0]]))
  {
    OneRun(list[0], m);
    RunAppend(DeviceInfoField, PutField(24, PutInt32(FeatureToNumber(list[0]))), OneByOne(list[1..]), m);
  }

  lemma {:induction false} OneByOneRun(list: seq<Feature>, m: DeviceInfo)
    requires Sound(DeviceInfoField)
    ensures Run(DeviceInfoField, OneByOne(list), m) == Ran(m.(features := m.features + list))
    decreases |list|
  {
    if list == [] {
      assert m.features + list == m.features;
    } else {
      OneByOneStep(list, m);
      var m' := m.(features := m.features + [list[0]]);
      HeadAndTail(m.features, list);
      OneByOneRun(list[1..], m');
    }
  }

  lemma OneRun(f: Feature, m: DeviceInfo)
    requires Sound(DeviceInfoField)
    ensures Run(DeviceInfoField, PutField(24, PutInt32(FeatureToNumber(f))), m) == Ran(m.(features := m.features + [f]))
  {
    var value := PutInt32(FeatureToNumber(f));
    ReadInt32(FeatureToNumber(f), []);
    assert value + [] == value;
    KnownRun(DeviceInfoField, 24, value, m, m.(features := m.features + [f]));
  }

  /** After any whole fields, a packed list and the same list one by one have the same effect. */
  lemma PackedOrNot(a: seq<byte>, list: seq<Feature>, b: seq<byte>)
    requires Short(PutFeatures(list))
    ensures Sound(DeviceInfoField)
    ensures Run(DeviceInfoField, a, BASE_DEVICE_INFO).Ran? ==>
      Decode(DeviceInfoField, a + PutField(26, PutBlob(PutFeatures(list))) + b, BASE_DEVICE_INFO)
      == Decode(DeviceInfoField, a + OneByOne(list) + b, BASE_DEVICE_INFO)
  {
    DeviceInfoSound();
    if Run(DeviceInfoField, a, BASE_DEVICE_INFO).Ran? {
      var m := Run(DeviceInfoField, a, BASE_DEVICE_INFO).msg;
      var packed, single := PutField(26, PutBlob(PutFeatures(list))), OneByOne(list);
      PackedRun(list, m);
      OneByOneRun(list, m);
      RunAppend(DeviceInfoField, a, packed, BASE_DEVICE_INFO);
      RunAppend(DeviceInfoField, a, single, BASE_DEVICE_INFO);
      LoopThen(DeviceInfoField, a + packed, b, 0, BASE_DEVICE_INFO);
      LoopThen(DeviceInfoField, a + single, b, 0, BASE_DEVICE_INFO);
    }
  }

  function MergeDeviceInfo(m: DeviceInfo, x: DeviceInfo): DeviceInfo
  {
    DeviceInfo(
      if x.name != [] then x.name else m.name,
      if x.deviceType.Some? then x.deviceType else m.deviceType,
      m.features + x.features)
  }

  predicate DeviceInfoShort(m: DeviceInfo) { Short(m.name) && Short(PutFeatures(m.features)) }

  lemma NameRun(x: DeviceInfo, m: DeviceInfo)
    requires Sound(DeviceInfoField) && Short(x.name)
    ensures Run(DeviceInfoField, Optional(x.name != [], 10, PutBlob(x.name)), m) ==
      Ran(if x.name != [] then m.(name := x.name) else m)
  {
    ReadBlob(x.name, []);
    assert PutBlob(x.name) + [] == PutBlob(x.name);
    OptionalRun(DeviceInfoField, x.name != [], 10, PutBlob(x.name), m, if x.name != [] then m.(name := x.name) else m);
  }

  lemma DeviceTypeRun(t: DeviceType, m: DeviceInfo)
    requires Sound(DeviceInfoField)
    ensures Run(DeviceInfoField, PutField(16, PutInt32(DeviceTypeToNumber(t))), m) == Ran(m.(deviceType := Some(t)))
  {
    var value := PutInt32(DeviceTypeToNumber(t));
    ReadInt32(DeviceTypeToNumber(t), []);
    assert value + [] == value;
    KnownRun(DeviceInfoField, 16, value, m, m.(deviceType := Some(t)));
  }

  lemma DeviceInfoRun(x: DeviceInfo, m: DeviceInfo)
    requires DeviceInfoShort(x)
    ensures Sound(DeviceInfoField) && Run(DeviceInfoField, EncodeDeviceInfo(x), m) == Ran(MergeDeviceInfo(m, x))
  {
    DeviceInfoSound();
    var h := DeviceInfoField;
    var f1 := Optional(x.name != [], 10, PutBlob(x.name));
    var f2 := Optional(x.deviceType.Some?, 16,
      if x.deviceType.Some? then PutInt32(DeviceTypeToNumber(x.deviceType.value)) else []);
    var f3 := PutField(26, PutBlob(PutFeatures(x.features)));
    NameRun(x, m);
    var m1 := Run(h, f1, m).msg;
    RunAppend(h, f1, f2, m);
    if x.deviceType.Some? { DeviceTypeRun(x.deviceType.value, m1); }
    RunAppend(h, f1 + f2, f3, m);
    PackedRun(x.features, Run(h, f2, m1).msg);
  }

  /** Round trip, and two encodings in a row. */
  lemma DeviceInfoRoundTrip(x: DeviceInfo, y: DeviceInfo)
    requires DeviceInfoShort(x) && DeviceInfoShort(y)
    ensures Sound(DeviceInfoField) && Decode(DeviceInfoField, EncodeDeviceInfo(x), BASE_DEVICE_INFO) == Done(x, [])
    ensures Decode(DeviceInfoField, EncodeDeviceInfo(x) + EncodeDeviceInfo(y), BASE_DEVICE_INFO) ==
      Done(MergeDeviceInfo(x, y), [])
  {
    DeviceInfoRun(x, BASE_DEVICE_INFO);
    assert [] + x.features == x.features;
    DecodeRun(DeviceInfoField, EncodeDeviceInfo(x), BASE_DEVICE_INFO);
    DeviceInfoRun(y, x);
    RunAppend(DeviceInfoField, EncodeDeviceInfo(x), EncodeDeviceInfo(y), BASE_DEVICE_INFO);
    DecodeRun(DeviceInfoField, EncodeDeviceInfo(x) + EncodeDeviceInfo(y), BASE_DEVICE_INFO);
  }
}
