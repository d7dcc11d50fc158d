/** `HaveExtensionCodec` (src/core-manager/index.js): a bitfield of words, through the run-length code and
    the wire format, and back. */
module HaveCodec {
  import opened Words
  import opened ProtoWire
  import opened Extensions
  import BitfieldRle

  datatype HaveMsg = HaveMsg(discoveryKey: seq<byte>, start: nat, bitfield: seq<word>, namespace: Namespace)

  datatype DecodedMsg = BadMessage | GoodMessage(msg: HaveMsg)

  function EncodeMsg(m: HaveMsg): seq<byte>
  {
    EncodeHave(Have(m.discoveryKey, m.start, BitfieldRle.Encoded(m.bitfield), m.namespace))
  }

  /** A message whose bitfield does not decode is kept, with an empty bitfield. */
  function DecodeMsg(s: seq<byte>): DecodedMsg
  {
    HaveSound();
    match Decode(HaveField, s, BASE_HAVE)
    case Invalid => BadMessage
    case Done(h, _) =>
      match BitfieldRle.DecodedWords(h.encodedBitfield)
      case InvalidBitfield => GoodMessage(HaveMsg(h.discoveryKey, h.start, [], h.namespace))
      case Bitfield(words) => GoodMessage(HaveMsg(h.discoveryKey, h.start, words, h.namespace))
  }

  /** A bitfield whose memory, at its longest encoding, still has a 32-bit length. */
  predicate Sendable(words: seq<word>)
  {
    4 * |words| + 4 * |words| / 64 + 1 < TWO_32
  }

  /** The encoding of a sendable bitfield is short enough for the wire, whatever its bits. */
  lemma EncodedShort(words: seq<word>)
    requires Sendable(words)
    ensures Short(BitfieldRle.Encoded(words)) && BitfieldRle.Addressable(Memory(words, true))
  {
    BitfieldRle.SizeBound(Memory(words, true));
  }

  /** Full round trip, for every key, bitfield and namespace, and for exactly the starts that are safe
      integers; a larger start makes the receiver refuse the message. */
  lemma MsgRoundTrip(m: HaveMsg)
    requires Short(m.discoveryKey) && Sendable(m.bitfield) && m.start < TWO_64
    ensures DecodeMsg(EncodeMsg(m)) == if m.start <= MAX_SAFE_INTEGER then GoodMessage(m) else BadMessage
  {
    EncodedShort(m.bitfield);
    HaveRoundTrip(Have(m.discoveryKey, m.start, BitfieldRle.Encoded(m.bitfield), m.namespace));
    BitfieldRle.DecodeEncoded(m.bitfield);
  }

  /** A bitfield that does not parse costs only the bitfield. */
  lemma BadBitfieldKept(key: seq<byte>, start: nat, bits: seq<byte>, namespace: Namespace)
    requires Short(key) && Short(bits) && start <= MAX_SAFE_INTEGER && BitfieldRle.Parse(bits).Bad?
    ensures DecodeMsg(EncodeHave(Have(key, start, bits, namespace))) == GoodMessage(HaveMsg(key, start, [], namespace))
  {
    HaveRoundTrip(Have(key, start, bits, namespace));
  }
}
