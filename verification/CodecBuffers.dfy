/** The codecs of src/core-manager/index.js as they run: the run-length code, the generated encoders and
    decoders, and what lies between, on buffers. */
module CodecBuffers {
  import opened Words
  import opened Options
  import opened ProtoWire
  import opened ProtoBuffers
  import opened Extensions
  import opened HaveCodec
  import opened BlobFilters
  import opened DownloadIntents
  import BitfieldRle
  import BitfieldRleBuffers
  import GeneratedCode

  /** `HaveExtensionCodec.encode` of a message whose bitfield is a `Uint32Array` with memory `mem`. */
  method EncodeHaveMsg(discoveryKey: seq<byte>, start: nat, mem: array<byte>, namespace: Namespace, littleEndian: bool)
    returns (buffer: seq<byte>)
    requires mem.Length % 4 == 0 && BitfieldRle.Addressable(mem[..])
    modifies mem
    ensures buffer == EncodeMsg(HaveMsg(discoveryKey, start, View(old(mem[..]), littleEndian), namespace))
  {
    var encodedBitfield := BitfieldRleBuffers.EncodeBitfield(mem, littleEndian);
    var writer := new Writer();
    GeneratedCode.WriteHave(Have(discoveryKey, start, encodedBitfield[..], namespace), writer);
    buffer := writer.buf;
  }

  /** `HaveExtensionCodec.decode`; the words are the ones the host sees in `mem`. */
  method DecodeHaveMsg(buffer: seq<byte>, littleEndian: bool)
    returns (ok: bool, discoveryKey: seq<byte>, start: nat, mem: array<byte>, namespace: Namespace)
    ensures mem.Length % 4 == 0
    ensures DecodeMsg(buffer) ==
      if ok then GoodMessage(HaveMsg(discoveryKey, start, View(mem[..], littleEndian), namespace)) else BadMessage
  {
    var reader := new Reader(buffer);
    var h;
    ok, h := GeneratedCode.ReadHave(reader, |buffer|, 0);
    discoveryKey, start, namespace := h.discoveryKey, h.start, h.namespace;
    var input := new byte[|h.encodedBitfield|](k requires 0 <= k < |h.encodedBitfield| => h.encodedBitfield[k]);
    assert input[..] == h.encodedBitfield;
    var whole;
    whole, mem := BitfieldRleBuffers.DecodeBitfield(input, littleEndian);
    if !whole { mem := new byte[0]; }
    assert BitfieldRle.DecodedWords(h.encodedBitfield)
        == if whole then BitfieldRle.Bitfield(View(mem[..], littleEndian)) else BitfieldRle.InvalidBitfield;
  }

  /** A have message from one host to another, of whichever kind: the receiver sees the words the sender saw,
      or refuses a start that is no safe integer. */
  method HaveMsgTrip(discoveryKey: seq<byte>, start: nat, mem: array<byte>, namespace: Namespace, fromLittle: bool,
    toLittle: bool)
    returns (ok: bool, key: seq<byte>, at: nat, received: array<byte>, space: Namespace)
    requires mem.Length % 4 == 0 && Sendable(View(mem[..], fromLittle)) && Short(discoveryKey) && start < TWO_64
    modifies mem
    ensures received.Length % 4 == 0 && ok == (start <= MAX_SAFE_INTEGER)
    ensures ok ==> key == discoveryKey && at == start && space == namespace
    ensures ok ==> View(received[..], toLittle) == View(old(mem[..]), fromLittle)
  {
    ghost var words := View(mem[..], fromLittle);
    EncodedShort(words);
    var buffer := EncodeHaveMsg(discoveryKey, start, mem, namespace, fromLittle);
    MsgRoundTrip(HaveMsg(discoveryKey, start, words, namespace));
    ok, key, at, received, space := DecodeHaveMsg(buffer, toLittle);
  }

  /** `ProjectExtensionCodec.encode`. */
  method EncodeProjectMsg(authCoreKeys: seq<seq<byte>>) returns (buffer: seq<byte>)
    ensures buffer == EncodeList(authCoreKeys)
  {
    var writer := new Writer();
    GeneratedCode.WriteList(authCoreKeys, writer);
    buffer := writer.buf;
  }

  /** `ProjectExtensionCodec.decode`. */
  method DecodeProjectMsg(buffer: seq<byte>) returns (ok: bool, authCoreKeys: seq<seq<byte>>)
    ensures Sound(ListField)
    ensures match Decode(ListField, buffer, []) case Invalid => !ok case Done(list, _) => ok && authCoreKeys == list
  {
    var reader := new Reader(buffer);
    ok, authCoreKeys := GeneratedCode.ReadList(reader, |buffer|, 0);
  }

  /** `DownloadIntentCodec.encode`; `order` is the order the engine lists the properties in. */
  method EncodeIntentMsg(filter: Option<Filter>, order: seq<Text>) returns (buffer: seq<byte>)
    requires forall k :: k in order ==> filter.Some? && k in filter.value
    ensures buffer == EncodeFilter(filter, order)
  {
    var writer := new Writer();
    match filter {
      case None => GeneratedCode.WriteIntents([], true, writer);
      case Some(f) => GeneratedCode.WriteIntents(FilterEntries(f, order), false, writer);
    }
    buffer := writer.buf;
  }

  /** `DownloadIntentCodec.decode`. */
  method DecodeIntentMsg(buffer: seq<byte>) returns (ok: bool, filter: Option<Filter>)
    ensures DecodeFilter(buffer) == if ok then GoodFilter(filter) else BadFilter
  {
    var reader := new Reader(buffer);
    var m;
    ok, m := GeneratedCode.ReadIntents(reader, |buffer|, 0);
    filter := if m.everything then None else Some(map k | k in m.byType && k != PROTO :: Some(m.byType[k]));
  }
}
