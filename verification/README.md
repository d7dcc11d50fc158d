# Verified models of the CoMapeo core

A Dafny model of the parts of the repository whose behaviour is hardest to see from one function, with proofs:

| part | files |
|---|---|
| the paged sparse bitfield with its skip index | `Quickbit.dfy`, `RemoteBitfield.dfy` |
| the run-length code for bitfields, as a language and as the two passes over buffers that encode and decode it; what the encoder chooses and what the decoder accepts, told without them | `Words.dfy`, `WordBits.dfy`, `Varint.dfy`, `BitfieldRle.dfy`, `BitfieldRleBuffers.dfy`, `GreedyChunks.dfy`, `ParsedChunks.dfy` |
| the Protocol Buffers layer: a theory of decode loops, the messages, and the generated encoders and decoders as they run | `ProtoWire.dfy`, `UnknownFields.dfy`, `WireBytes.dfy`, `Extensions.dfy`, `Keys.dfy`, `Rpc.dfy`, `ProtoBuffers.dfy`, `GeneratedCode.dfy` |
| the codecs on top: have messages and download intents, as functions and as they run on buffers | `HaveCodec.dfy`, `DownloadIntents.dfy`, `BlobFilters.dfy`, `CodecBuffers.dfy` |
| writes and the indexer | `DataStore.dfy` |
| duplicate connections, at one node and between two | `LocalDiscovery.dfy`, `DuplicateConnections.dfy`, `KeptConnections.dfy` |
| a peer connection's waiting calls, and the sends made of them | `LocalPeers.dfy`, `PeerSends.dfy` |
| roles | `Roles.dfy` |

`Sequences.dfy`, `Sets.dfy` and `Options.dfy` hold helpers. `dafny verify dfyconfig.toml` checks everything.

## How it is built

Code that changes things step by step is a class or a method over arrays, with the same branches and loops, and its
contract ties the new state to a function of the old one; the properties are lemmas about those functions, over every
input or every run. Asynchronous code is a state machine whose steps are the stretches between two awaits or events:
`DataStores.Apply`, `LocalDiscoveries.Next`, `DuplicateConnections.NetNext`, `LocalPeers.Next`, `PeerSends.Step`,
`ProjectRoles.Next`. An action that is not possible in a state leaves it alone, so every sequence of actions is a run,
and a theorem "for every sequence of actions" is a theorem over all interleavings.

The main results:

* Whatever sequence of `set`, `setRange` and `insert` is applied, every bit is what the last write over it says, the
  index is sound, and every search returns what the plain set of positions says: exactly, except for `firstUnset`,
  for which the exact condition is proved and a miss exhibited.
* The run-length code and the wire format together give back every have message exactly when its start is a safe
  integer; the greedy encoder costs at most one byte in 64 plus one, a bound that is met at every length, so it never
  costs more than one raw chunk exactly below 128 bytes; its chunks are the only ones that stand for the input and split
  off a run just where that is shorter; both passes agree to the byte; the decoder is safe and complete on any bytes that
  pass its check, and those are exactly the ones that spell chunks.
* Every generated decoder, as it runs, has the outcome of a decode loop, and such loops pass over whole fields and over
  unknown ones as any writer puts them, groups included; round trips follow, and exactly when two project keys messages
  in a row decode to what the specification of Protocol Buffers makes of them.
* No write ever misses its wake-up and none returns early; left to itself the system stops, and once the indexer was
  handed every block, it stops with every write returned.
* Two nodes that connect to each other in any number and order end with the same connection at both ends or with none;
  the sole connection of the side with the smaller key is never destroyed as a duplicate, whatever breaks or stops; some
  connection is sure to stay exactly when there is such a sole one; and with no closings from outside a node keeps, of
  its connections to each peer, the first to open from the side with the smaller key, so both ends keep one from the
  same side.
* Every promise of a peer connection meets exactly the fate that the events since its registration say, and so does
  every send that awaits first the drain and then the acknowledgement.
* With assignments interleaved in any order, await by await, role records stay within the assignable roles and the
  lengths of their devices' cores; `getAll` and `getRole` agree exactly where stated; it is proved exactly when an
  assignment to a creator is turned down, when an assignment under way is still one its device may make, and from when
  on the records change by devices leaving alone.

Where the code and its documentation part, the model follows the code:

* `firstUnset` skips the pages of a segment behind the last allocated one (`src/core-manager/remote-bitfield.js:159`)
  and answers the start when it finds nothing (`:322`), so it can return a position that is set.
* On a big-endian host `encode` swaps the caller's own memory and leaves it swapped (`src/core-manager/bitfield-rle.js:48`).
* A nested message that occurs twice replaces the earlier one as a whole (`src/generated/keys.js:125`), where the section
  "Last One Wins" of the Protocol Buffers Encoding specification merges them. The two agree if and only if the later
  nested keys say something about every key the earlier ones do (`Keys.LastOneWinsExact`).
* A blob type named `__proto__` does not survive the trip in a download intent (`src/generated/extensions.js:201`).
* `getRole` fails for a device without role record and without core ownership record
  (`src/roles.js:284`), where its comments promise the "no role" role.
* `assignRole` says project creators can only be assigned the blocked role (`src/roles.js:428`); that holds only as
  long as the creator has no record at all, and if they were known as the creator when they were looked up (`:381`):
  `ProjectRoles.LateOverCreator`.
* The `reason` given to `assignRole` is not recorded when the device has no record yet (`src/roles.js:432-436`).
* `assignRole` reads the assigner's own role before it awaits (`src/roles.js:398-406`) and not again, so a role taken
  away in between is still used. `ProjectRoles.StillAllowed` says exactly when it is one the assigner still has.
* A send awaits the acknowledgement only once the drain is over (`src/local-peers.js:338-341`): one that arrives before
  is lost (`PeerSends.EarlyAckLost`), and a send that goes on after the disconnection hangs (`PeerSends.HangsForEver`).
* Two connections from the same side can make each end destroy the one the other keeps (`src/discovery/local-discovery.js:229-238`).

## Model

| member | source | states |
|---|---|---|
| Quickbit.SetBit | src/core-manager/remote-bitfield.js:54 | one bit becomes `val`, no other bit changes, and the answer says whether it was different before |
| Quickbit.Fill | src/core-manager/remote-bitfield.js:66 | exactly the bits of the range become `val` |
| Quickbit.CopyWords | src/core-manager/remote-bitfield.js:95 | exactly the positions the words cover take the words' bits |
| Quickbit.FindFirst | src/core-manager/remote-bitfield.js:79 | the least matching position of a page at or after the start, or -1 when there is none |
| Quickbit.FindLast | src/core-manager/remote-bitfield.js:86 | the greatest matching position of a page up to the start, or -1 when there is none |
| Quickbit.SelectUnique | src/core-manager/remote-bitfield.js:136-143 | with the chunks sorted and disjoint, a position is found in the one chunk that covers it |
| Quickbit.SparseIndex.From | src/core-manager/remote-bitfield.js:119-123 | an index built from a sorted chunk list is exact: a block is summarised as all zero or all one if and only if it is |
| Quickbit.SparseIndex.Update | src/core-manager/remote-bitfield.js:55 | the one block that holds the bit is summarised exactly, all other summaries stay; positions past the segment do nothing |
| Quickbit.SparseIndex.SkipFirst | src/core-manager/remote-bitfield.js:152 | skip safety: the result is not before the start, every bit passed over has the skipped value, and the block it stops in has another one |
| Quickbit.SparseIndex.SkipLast | src/core-manager/remote-bitfield.js:181 | the same backwards |
| RemoteBitfields.RemoteBitfieldPage.Set | src/core-manager/remote-bitfield.js:53-57 | the segment's bits change at that position only and its index is exact again |
| RemoteBitfields.RemoteBitfieldPage.SetRange | src/core-manager/remote-bitfield.js:65-72 | the segment's bits change on exactly the range and its index is exact again |
| RemoteBitfields.RemoteBitfieldPage.RefreshBlocks | src/core-manager/remote-bitfield.js:68-71 | the refresh loop up to floor(start/128) + ceil(length/128) reaches every block the range touched, though it may run past the page |
| RemoteBitfields.RemoteBitfieldPage.Insert | src/core-manager/remote-bitfield.js:94-97 | the segment's bits take the words on exactly their range and the rebuilt index is exact |
| RemoteBitfields.RemoteBitfieldSegment.Add | src/core-manager/remote-bitfield.js:128-144 | a page is listed at its number, its chunk in its place, `pagesLength` follows, no bit changes, and the structure stays valid: chunks sorted by offset, exactly one for each page |
| RemoteBitfields.RemoteBitfieldSegment.Place | src/core-manager/remote-bitfield.js:136-143 | the insertion loop keeps the chunks increasing and holds exactly the old chunks and the new one |
| RemoteBitfields.RemoteBitfieldSegment.ChunksShowMemory | src/core-manager/remote-bitfield.js:115-123 | what the index reads through its chunks is what the pages hold |
| RemoteBitfields.RemoteBitfieldSegment.Refresh | src/core-manager/remote-bitfield.js:119-123 | a linked segment becomes valid, with the same chunks |
| RemoteBitfields.RemoteBitfieldSegment.FindFirst | src/core-manager/remote-bitfield.js:151-174 | the least matching position from the start on among the pages below `pagesLength`, or -1, in spite of skipping |
| RemoteBitfields.RemoteBitfieldSegment.FindLast | src/core-manager/remote-bitfield.js:180-203 | the greatest matching position of the segment up to the start, or -1 |
| RemoteBitfields.RemoteBitfield.Get | src/core-manager/remote-bitfield.js:218-225 | membership in the abstract set of positions |
| RemoteBitfields.RemoteBitfield.EnsurePage | src/core-manager/remote-bitfield.js:248-259 | allocates just the missing page (and its segment), and changes no bit |
| RemoteBitfields.RemoteBitfield.Set | src/core-manager/remote-bitfield.js:242-262 | the set changes at that position only; clearing where there is no page allocates nothing |
| RemoteBitfields.RemoteBitfield.SetRange | src/core-manager/remote-bitfield.js:269-298 | the set changes on exactly the range, across pages and segments; pages and segments are allocated exactly where a range is set; nothing happens for a length that is not positive |
| RemoteBitfields.PagesTouched | src/core-manager/remote-bitfield.js:269-298 | which pages that are: none to clear, and to set those that hold some position of the range |
| RemoteBitfields.RemoteBitfield.Insert | src/core-manager/remote-bitfield.js:378-415 | refuses exactly the starts that are not word-aligned and then changes nothing; otherwise the set takes the words' bits on exactly their range |
| RemoteBitfields.SetRangeTurn | src/core-manager/remote-bitfield.js:273-297 | one turn of the loop extends both the part written and the pages allocated by just its stretch |
| RemoteBitfields.InsertTurn | src/core-manager/remote-bitfield.js:386-412 | the same for inserting |
| RemoteBitfields.RemoteBitfield.FindFirst | src/core-manager/remote-bitfield.js:304-323 | the least matching position among those the scan looks at; when there is none, -1 for set bits and the start for unset ones |
| RemoteBitfields.RemoteBitfield.FindLast | src/core-manager/remote-bitfield.js:340-359 | the greatest matching position up to the start, or -1, with no exception |
| RemoteBitfields.RemoteBitfield.SetBitsSeen | src/core-manager/remote-bitfield.js:304-323 | the forward scan looks at every set bit |
| RemoteBitfields.RemoteBitfield.FirstSet | src/core-manager/remote-bitfield.js:327-329 | the least set position from the start on, or -1 |
| RemoteBitfields.RemoteBitfield.FirstUnset | src/core-manager/remote-bitfield.js:333-335 | the least unset position, if and only if the condition of `FirstUnsetExact` holds |
| RemoteBitfields.RemoteBitfield.LastSet | src/core-manager/remote-bitfield.js:364-366 | the greatest set position up to the start, or -1 |
| RemoteBitfields.RemoteBitfield.LastUnset | src/core-manager/remote-bitfield.js:370-372 | the greatest unset position up to the start, or -1 |
| RemoteBitfields.FirstUnsetExact | src/core-manager/remote-bitfield.js:151-174 | the answer of `firstUnset` is the least unset position exactly when the start's segment is absent or past the last one, or the start lies past its segment's listed pages and nothing unset is met further on, or the scan meets an unset bit before any unlisted page |
| RemoteBitfields.FirstUnsetMiss | src/core-manager/remote-bitfield.js:322 | a client builds a bitfield, sets its first 32768 positions and asks for the first unset one from 0; the answer is 0, which is set, and 32768 would be right |
| RemoteBitfields.Replay | src/core-manager/remote-bitfield.js:206-213 | any sequence of operations on a new bitfield leaves it valid and equal to the plain set so overwritten |
| RemoteBitfields.LastWriteWins | src/core-manager/remote-bitfield.js:242-298 | a bit is set after a sequence of operations exactly when the last one that writes it sets it |
| Words.ViewMemory | src/core-manager/bitfield-rle.js:41-45 | a host sees in a word array's memory the words themselves |
| Words.MemoryView | src/core-manager/bitfield-rle.js:100-104 | and the memory of the words it sees is that memory |
| Words.SwapMemory | src/core-manager/bitfield-rle.js:48 | swapping a big-endian host's memory gives the little-endian memory of the same words |
| WordBits.WordIsBits | src/core-manager/remote-bitfield.js:95 | a word is the sum of the powers of two at its set bits, lowest first |
| WordBits.MemoryBytes | src/core-manager/bitfield-rle.js:41-48 | byte by byte, what memory holds for a word: the lowest byte first on a little-endian host, last on a big-endian one |
| Varint.DecodeEncode | src/core-manager/bitfield-rle.js:79 | reading back a written number, whatever follows, unless it is too long for the reader |
| Varint.EncodeFits | src/core-manager/bitfield-rle.js:174 | a number takes at most n bytes exactly when it is below 128 to the n |
| Varint.EncodeExact | src/core-manager/bitfield-rle.js:79 | a number is written as the shortest bytes that make it: groups of seven bits, lowest first, only the last byte below 128 |
| Varint.DecodeExact | src/core-manager/bitfield-rle.js:79 | what is read from any bytes that begin with a number, shortest or not, within the reader's limit |
| Varint.DecodeNone | src/core-manager/bitfield-rle.js:79 | nothing is read from bytes of which none ends a number |
| Varint.LongGroups | src/generated/extensions.js:125 | the first n bytes of a longer number hold its value modulo 128 to the n: what a tag or a length reader makes of it |
| BitfieldRle.CodeRead | src/core-manager/bitfield-rle.js:79-90 | the reader recovers a written chunk and stops right behind it, whatever is around |
| BitfieldRle.ParseSerialize | src/core-manager/bitfield-rle.js:78-93 | parsing is the inverse of serializing, for every list of chunks with readable numbers |
| ParsedChunks.ParseExact | src/core-manager/bitfield-rle.js:72-132 | the decoder reads a list of chunks out of a string exactly when the string spells it: number after number, each in at most eight bytes but in any length, raw bytes behind the even ones |
| ParsedChunks.BadExact | src/core-manager/bitfield-rle.js:111-132 | and refuses a string exactly when it spells none |
| BitfieldRle.EndRunMeaning | src/core-manager/bitfield-rle.js:204-227 | whatever the encoder emits at the end of a run stands for exactly the input it passes over, and never reaches past the run |
| BitfieldRle.ScanMeaning | src/core-manager/bitfield-rle.js:137-166 | in every state of the scan, what is still to be emitted stands for exactly the input not yet emitted |
| BitfieldRle.ScanCodes | src/core-manager/bitfield-rle.js:209 | no number written is above four times the input length plus 3 |
| BitfieldRle.RoundTrip | src/core-manager/bitfield-rle.js:38-105 | parsing what the encoder wrote and expanding it gives back every input |
| GreedyChunks.GreedyExact | src/core-manager/bitfield-rle.js:137-227 | the encoder's chunks are the only ones that stand for the input such that no two raw chunks are neighbours, runs are maximal, a run behind raw bytes is shorter than going on raw, and no maximal run inside raw bytes would be |
| GreedyChunks.RunAlone | src/core-manager/bitfield-rle.js:204-214 | a run of 0 or of 255, however long, is the one number 4n + 1 or 4n + 3 |
| GreedyChunks.IrregularAlone | src/core-manager/bitfield-rle.js:183-194 | bytes of which none is 0 or 255 go out as they are behind twice their number |
| GreedyChunks.OneWord | src/core-manager/bitfield-rle.js:38-55 | the word 1 encodes to 2, 1, 13 |
| GreedyChunks.FullWords | src/core-manager/bitfield-rle.js:38-55 | n words of set bits encode to the one number 16n + 3 |
| BitfieldRle.DecodeEncoded | src/core-manager/bitfield-rle.js:38-105 | decoding an encoded array of words gives back the words |
| BitfieldRle.RawCost | src/core-manager/bitfield-rle.js:212 | the number in front of m raw bytes takes at most 1 + m/64 bytes |
| BitfieldRle.EndRunCost | src/core-manager/bitfield-rle.js:206-214 | by the strict cost test, what is emitted at the end of a run stays within m + m/64 for the m bytes it covers |
| BitfieldRle.SizeBound | src/core-manager/bitfield-rle.js:184-214 | n bytes never encode to more than n + n/64 + 1 |
| BitfieldRle.SizeBoundTight | src/core-manager/bitfield-rle.js:204-214 | the bound is sharp: for every n above 0 some input of n bytes encodes to exactly n + n/64 + 1 |
| BitfieldRle.NeverLongerExact | src/core-manager/bitfield-rle.js:204-214 | no input of n bytes encodes to more than one raw chunk of it would take, if and only if n is below 128 |
| BitfieldRle.SparseCost | src/core-manager/bitfield-rle.js:204-214 | k blocks of 64 irregular bytes and two zero bytes encode to 67 bytes each, whatever k is |
| BitfieldRle.GreedyCanExpand | src/core-manager/bitfield-rle.js:204-214 | a concrete input for which the greedy choice is worse than one raw chunk: 201 bytes, not 200 |
| BitfieldRleBuffers.WriteVarint | src/core-manager/bitfield-rle.js:224-225 | writes exactly the bytes of the number at the offset and nothing else |
| BitfieldRleBuffers.SwapInPlace | src/core-manager/bitfield-rle.js:48 | every group of four bytes is reversed in place |
| BitfieldRleBuffers.State.EncodeHead | src/core-manager/bitfield-rle.js:172-178 | one raw chunk more is in the output, within its bounds |
| BitfieldRleBuffers.State.EncodeFinal | src/core-manager/bitfield-rle.js:183-194 | the rest of the input is emitted as it is, or counted when only sizing |
| BitfieldRleBuffers.State.EncodeUpdate | src/core-manager/bitfield-rle.js:204-227 | emits the chunks of the greedy choice and moves the input offset accordingly; the count always equals the bytes those chunks take |
| BitfieldRleBuffers.State.Rle | src/core-manager/bitfield-rle.js:137-166 | one pass emits exactly the chunks of the greedy encoder, the same whether it counts or writes |
| BitfieldRleBuffers.EncodingLength | src/core-manager/bitfield-rle.js:60-64 | the sizing pass returns the length of the encoding |
| BitfieldRleBuffers.EncodeBitfield | src/core-manager/bitfield-rle.js:38-55 | the unsafely allocated buffer is filled from the first byte to the last with the encoding, which is the same on either kind of host; on a big-endian one the caller's memory is left swapped |
| BitfieldRleBuffers.DecodingLength | src/core-manager/bitfield-rle.js:111-132 | accepts exactly the well-formed byte strings, with the least multiple of four not below their expansion's length |
| BitfieldRleBuffers.MeasureChunk | src/core-manager/bitfield-rle.js:116-125 | one turn of the measuring loop: one slice more, or a string that is not well formed |
| BitfieldRleBuffers.FillChunk | src/core-manager/bitfield-rle.js:80-92 | a run or a whole raw chunk is put where the memory filled so far ends |
| BitfieldRleBuffers.FillExpansion | src/core-manager/bitfield-rle.js:75-95 | the memory becomes the expansion followed by zero bytes, every read and write within bounds |
| BitfieldRleBuffers.DecodeBitfield | src/core-manager/bitfield-rle.js:72-105 | for any byte string: fails exactly when it is not well formed, otherwise holds the expansion and fewer than four zero bytes, in the host's byte order, and the words are the same on either host |
| BitfieldRleBuffers.ViewSwap | src/core-manager/bitfield-rle.js:98-104 | after the swap a big-endian host sees the words a little-endian one sees |
| ProtoWire.FieldExtends | src/generated/extensions.js:124-156 | reading a field does not depend on what follows it, whatever the message |
| ProtoWire.LoopExtends | src/generated/extensions.js:120-157 | nor does a whole decode loop, whose end moves along |
| ProtoWire.LoopThen | src/generated/extensions.js:120-157 | the loop goes through whole fields and comes out behind them with their effect |
| ProtoWire.RunAppend | src/generated/extensions.js:120-157 | the effect of whole fields in a row is that of the first and then that of the rest |
| ProtoWire.SkipExtends | src/generated/extensions.js:155 | skipping a value of any wire type, groups included, does not depend on what follows it |
| ProtoWire.UnknownIgnored | src/generated/extensions.js:152-155 | for every message: bytes that the reader skips as one field, between any two fields, change nothing |
| UnknownFields.NumberRead | src/generated/extensions.js:125 | how each reader takes bytes that begin with a number of any length: the tag and length reader, the 64-bit one, and the skipping of one |
| UnknownFields.BoolRead | src/generated/extensions.js:208 | every number but 0 is true |
| UnknownFields.BlobCut | src/generated/extensions.js:131 | bytes that are cut short are not read |
| UnknownFields.ValueSkipped | src/generated/extensions.js:155 | a value of any wire type, as any writer puts it, is skipped whole and nothing else: a number of any length, 8 bytes, 4 bytes, bytes with their length, a group |
| UnknownFields.GroupSkipped | src/generated/extensions.js:155 | the fields of a group, groups in it included, are skipped up to its end tag |
| UnknownFields.WrittenIgnored | src/generated/extensions.js:152-155 | for every message: a field it has no case for, as any writer puts it, between whole fields and anything else changes nothing |
| UnknownFields.StopsEarly | src/generated/extensions.js:152-154 | an end-group tag or tag 0 stops the decoder behind it |
| UnknownFields.NoWireType | src/generated/extensions.js:155 | wire types 6 and 7 make the decoder fail |
| UnknownFields.NestedCut | src/generated/extensions.js:199 | a nested message that claims more bytes than there are is refused |
| UnknownFields.NestedOverrun | src/generated/extensions.js:199 | one that claims fewer than its last field takes has that field read whole |
| ProtoWire.NestedReads | src/generated/extensions.js:199 | a nested message of whole fields is read by its own decoder, to exactly its length |
| ProtoWire.ListRun | src/generated/extensions.js:56-84 | an encoded list is appended, in order, to whatever is there |
| Extensions.HaveSound | src/generated/extensions.js:126-151 | the have message's switch is one the theory applies to |
| Extensions.HaveRun | src/generated/extensions.js:103-158 | running an encoded have message on any message replaces exactly the fields that are not at their default |
| Extensions.HaveRoundTrip | src/generated/extensions.js:103-158 | decoding an encoded have message gives it back exactly when its start is a safe integer, and fails otherwise |
| Extensions.HaveConcatenation | src/generated/extensions.js:120-158 | two encodings in a row decode to the field-wise merge |
| Extensions.HaveForward | src/generated/extensions.js:120-158 | a field of another number or wire type, as any writer puts it, at any field boundary changes nothing |
| Extensions.ProjectForward | src/generated/extensions.js:64-84 | the same for the project extension |
| Extensions.ProjectConcatenation | src/generated/extensions.js:55-84 | round trip of the project extension, and two encodings in a row append their lists |
| WireBytes.HaveBytes | src/generated/extensions.js:103-119 | the bytes of a have message, field number by field number, and of each namespace |
| WireBytes.NamespaceRead | src/generated/extensions.js:12-32 | what every 32-bit number is as a namespace |
| WireBytes.ListBytes | src/generated/extensions.js:55-63 | the bytes of the project extension |
| WireBytes.EncryptionKeysBytes | src/generated/keys.js:6-25 | the bytes of encryption keys |
| WireBytes.ProjectKeysBytes | src/generated/keys.js:88-101 | the bytes of project keys |
| WireBytes.DeviceInfoBytes | src/generated/rpc.js:425-441 | the bytes of a device info, and of each device type |
| WireBytes.FeatureBytes | src/generated/rpc.js:111-124 | the bytes of each feature in a packed list |
| WireBytes.DeviceTypeRead | src/generated/rpc.js:54-73 | what every 32-bit number is as a device type |
| WireBytes.FeatureRead | src/generated/rpc.js:95-109 | and as a feature |
| WireBytes.EntryBytes | src/generated/extensions.js:281-291 | the bytes of an entry of a download intent |
| WireBytes.IntentsBytes | src/generated/extensions.js:175-187 | the bytes of download intents |
| Keys.EncryptionKeysRun | src/generated/keys.js:6-70 | running encoded keys merges them in: an absent key leaves, an empty one replaces |
| Keys.ProjectKeysRun | src/generated/keys.js:88-134 | the same for project keys, whose nested keys replace the earlier ones as a whole |
| Keys.ProjectKeysRoundTrip | src/generated/keys.js:88-134 | round trip for every project keys message, absent kept apart from empty; and what two encodings in a row give |
| Keys.EncryptionKeysConcatenation | src/generated/keys.js:26-70 | two encodings of nested keys in a row decode to the field-wise merge |
| Keys.LastOneWinsExact | src/generated/keys.js:125 | two project keys messages in a row decode to the field-wise merge, nested keys included, if and only if, where both have nested keys, the later ones are absent only where the earlier ones are |
| Keys.LastOneWinsMiss | src/generated/keys.js:125 | two concrete messages for which they do not: the first one's data key is lost |
| Rpc.PackedReads | src/generated/rpc.js:466-471 | the inner loop over a packed list reads the list and exactly its bytes |
| Rpc.OneByOneRun | src/generated/rpc.js:462-465 | features one field each are appended one by one |
| Rpc.PackedOrNot | src/generated/rpc.js:461-474 | after any fields and before any bytes, a packed list and the same list one by one decode alike |
| Rpc.DeviceInfoRoundTrip | src/generated/rpc.js:425-481 | round trip for every device info, and what two encodings in a row give |
| ProtoBuffers.Reader.SkipUnknown | src/generated/extensions.js:152-155 | the end of a decode loop's body: stop at an end-group tag or tag 0 without reading on, skip one value, or fail |
| ProtoBuffers.Writer.Ldelim | src/generated/extensions.js:180-181 | what was written since the fork goes behind what was written before it, with its length in front |
| GeneratedCode.WriteHave | src/generated/extensions.js:104-119 | appends exactly the encoding |
| GeneratedCode.ReadHave | src/generated/extensions.js:120-158 | the decoder on a reader has the outcome of the decode loop, wherever the message's end lies, and leaves the reader where that stops |
| GeneratedCode.WriteList | src/generated/extensions.js:56-63 | appends exactly the encoding of the list |
| GeneratedCode.ReadList | src/generated/extensions.js:64-84 | as for have messages |
| GeneratedCode.WriteEncryptionKeys | src/generated/keys.js:7-25 | appends exactly the encoding |
| GeneratedCode.ReadEncryptionKeys | src/generated/keys.js:26-70 | as for have messages |
| GeneratedCode.WriteProjectKeys | src/generated/keys.js:89-101 | appends exactly the encoding, the nested message with its length |
| GeneratedCode.ReadProjectKeys | src/generated/keys.js:102-134 | as for have messages, nested decoder included |
| GeneratedCode.WriteDeviceInfo | src/generated/rpc.js:426-441 | appends exactly the encoding, the packed list even when empty |
| GeneratedCode.ReadPacked | src/generated/rpc.js:466-471 | the inner loop reads what the packed list holds |
| GeneratedCode.ReadDeviceInfo | src/generated/rpc.js:442-481 | as for have messages |
| GeneratedCode.WriteIntents | src/generated/extensions.js:176-187 | appends exactly the encoding, entry by entry |
| GeneratedCode.ReadEntry | src/generated/extensions.js:292-318 | as for have messages, one level of nesting |
| GeneratedCode.ReadIntents | src/generated/extensions.js:188-217 | as for have messages, two levels of nesting |
| BlobFilters.SplitFirst | src/blob-store/utils.js:16 | splitting takes off the part before the first separator |
| BlobFilters.MatchesPath | src/blob-store/utils.js:15-34 | of the paths of a type, a filter selects all when it has no list of variants for it or an empty one, and otherwise exactly those of some variant in the list with something behind it |
| BlobFilters.MatchesOnlyBlobPaths | src/blob-store/utils.js:16-21 | no other path is ever selected |
| DownloadIntents.EntryRun | src/generated/extensions.js:281-318 | an encoded entry decodes to its key and its variants, an empty list included |
| DownloadIntents.IntentsRoundTrip | src/generated/extensions.js:175-217 | decoding encoded intents gives the entries as own properties, later keys over earlier ones |
| DownloadIntents.EntryArrives | src/generated/extensions.js:199-202 | what one entry does to any message: it becomes the one for its key, unless that is `__proto__` |
| DownloadIntents.NoValueNoEntry | src/generated/extensions.js:199-203 | an entry without a value is passed over |
| DownloadIntents.EverythingWins | src/core-manager/index.js:560-568 | a message that wants everything gives no filter, whatever entries it has |
| DownloadIntents.FilterArrives | src/core-manager/index.js:542-569 | what filter arrives for a filter that is sent, for every order of its keys: the same list for every key but `__proto__`, an empty one where there was none; no filter arrives as no filter |
| DownloadIntents.SameMeaning | src/core-manager/index.js:542-569 | the filter that arrives selects the same paths as the one sent, exactly when no blobs of a type named `__proto__` are asked for |
| HaveCodec.EncodedShort | src/core-manager/index.js:519-523 | by the size bound, the encoding of every sendable bitfield fits the wire |
| HaveCodec.MsgRoundTrip | src/core-manager/index.js:517-540 | full stack: decoding an encoded have message gives back key, start, words and namespace exactly when the start is a safe integer |
| HaveCodec.BadBitfieldKept | src/core-manager/index.js:531-538 | a bitfield that is not well formed costs only the bitfield |
| CodecBuffers.EncodeHaveMsg | src/core-manager/index.js:519-523 | the run-length passes over the sender's memory and the generated encoder together give the encoding of the message with the words that memory held |
| CodecBuffers.DecodeHaveMsg | src/core-manager/index.js:528-540 | for any bytes: the generated decoder and the run-length decoder together give the words the host sees, no words for a malformed bitfield, and an error just for a malformed message |
| CodecBuffers.HaveMsgTrip | src/core-manager/index.js:517-540 | a have message from any kind of host to any kind of host: the receiver sees the sender's words, key, start and namespace, if and only if the start is a safe integer |
| CodecBuffers.EncodeProjectMsg | src/core-manager/index.js:508-510 | the encoding of the keys' list |
| CodecBuffers.DecodeProjectMsg | src/core-manager/index.js:512-514 | for any bytes, the outcome of the list's decode loop |
| CodecBuffers.EncodeIntentMsg | src/core-manager/index.js:544-555 | the filter's encoding, in any order of its keys |
| CodecBuffers.DecodeIntentMsg | src/core-manager/index.js:560-568 | for any bytes, the filter that arrives, or an error |
| DataStores.FindsAll | src/datastore/index.js:111-123 | after the awaited appends, the handler finds the promise of every write whose block it holds |
| DataStores.StepKeepsInv | src/datastore/index.js:109-177 | every step of a write, of a batch, or of the core keeps the invariant |
| DataStores.ReturnsIndexed | src/datastore/index.js:147-180 | over every run: a write returns the position of its own block, and only after that block was indexed |
| DataStores.NoLostWakeUp | src/datastore/index.js:109-123 | over every run: once a handler has finished, the promise of every write whose block it held is resolved |
| DataStores.BatchCanBeFirst | src/datastore/index.js:156-159 | a run in which a batch is done before the append of its block resolves and its promise is registered |
| DataStores.QuietMeansReturned | src/datastore/index.js:109-177 | no deadlock: when nothing more happens on its own and every block was handed over, every write has returned and nothing is pending |
| DataStores.InternalRunsEnd | src/datastore/index.js:109-177 | and the steps the system takes on its own come to an end |
| DataStores.PendingExactly | src/datastore/index.js:124-134 | over every run: what waits for listeners is exactly what the handlers that finished since the indexer was last idle had indexed, of every schema of the namespace but the project settings |
| DataStores.ToldExactly | src/datastore/index.js:234-244 | over every run: when the indexer goes idle, who listens for a schema is told of exactly the documents indexed since it was idle before, never of none, and never of project settings |
| DataStores.ToldOnce | src/datastore/index.js:243 | and what was told is not told again |
| DataStores.DataStore.BeginWrite | src/datastore/index.js:147-162 | refuses other namespaces' schemas and then changes nothing; otherwise the first step of a write |
| DataStores.DataStore.AppendResolved | src/datastore/index.js:163-175 | resolving the append and registering the promise are one step |
| DataStores.DataStore.EndWrite | src/datastore/index.js:176-180 | the last step; the block at the returned position is the write's own and was indexed |
| DataStores.DataStore.AfterBatch | src/datastore/index.js:110-111 | the appends awaited are the ones pending when the batch is done, and the handler keeps them and its documents |
| DataStores.DataStore.ResolveFound | src/datastore/index.js:114-123 | the loop resolves exactly the promises registered for the writer core's entries |
| DataStores.DataStore.AfterAppends | src/datastore/index.js:112-134 | the last step of a handler; every write in its entries is awake |
| DataStores.DataStore.NoteDocs | src/datastore/index.js:124-134 | the documents join those waiting, schema by schema |
| DataStores.DataStore.HandleIndexerIdle | src/datastore/index.js:234-244 | a schema is told exactly when it is listened for and some document of it is pending, and exactly those; the record starts anew |
| LocalDiscoveries.HandleKeeps | src/discovery/local-discovery.js:205-272 | handling a connection keeps the invariant, whichever of the two stays |
| LocalDiscoveries.CloseKeeps | src/discovery/local-discovery.js:183-198 | so does a closing with all its listeners: the entry removed, the swaps that wait, the ones that come too late |
| LocalDiscoveries.MapIsLive | src/discovery/local-discovery.js:180-272 | over every run of one node, stops and restarts included: the map holds exactly the connections emitted and not yet closed, at most one for a peer, every other open one is destroyed or waits, and none is emitted twice; errors are ignored of every connection destroyed as a duplicate and of every one that waits, and of no other one in the map |
| LocalDiscoveries.CloseTakesOnlyItself | src/discovery/local-discovery.js:264-267 | a connection that closes never takes another one out of the map |
| LocalDiscoveries.NoneWhileStopped | src/discovery/local-discovery.js:253-259 | over every run: from a stop to the next start nothing is emitted and nothing joins the map |
| LocalDiscoveries.OpenedStopped | src/discovery/local-discovery.js:253-259 | a connection that opens meanwhile, with none to the peer in the map, is destroyed |
| LocalDiscoveries.PromotedStopped | src/discovery/local-discovery.js:183-191 | so is one that waited, when its turn comes |
| LocalDiscoveries.TakenAgain | src/discovery/local-discovery.js:84-99 | after the next start connections are taken again |
| LocalDiscoveries.SelfConnection | src/discovery/local-discovery.js:229-238 | of a connection of a node to itself, the one it started would stay |
| LocalDiscoveries.LocalDiscovery.HandleConnectionSwap | src/discovery/local-discovery.js:180-199 | both `close` listeners are added, and the error listener of the connection kept, until the swap takes it off |
| LocalDiscoveries.LocalDiscovery.DestroyDuplicate | src/discovery/local-discovery.js:241-247 | the connection is destroyed as a duplicate and its errors are ignored |
| LocalDiscoveries.LocalDiscovery.HandleNoiseStreamConnection | src/discovery/local-discovery.js:205-272 | the step of the state machine, branch by branch |
| LocalDiscoveries.LocalDiscovery.HandleOpen | src/discovery/local-discovery.js:163-172 | a stream that opens is handled, and the invariant kept |
| LocalDiscoveries.LocalDiscovery.HandleClose | src/discovery/local-discovery.js:183-191 | the listeners run in order, the invariant is kept, and every other connection in the map stays in it |
| LocalDiscoveries.LocalDiscovery.StopListening | src/discovery/local-discovery.js:291-295 | no new connection is taken from now on |
| LocalDiscoveries.LocalDiscovery.StartListening | src/discovery/local-discovery.js:84-99 | new connections are taken again |
| LocalDiscoveries.LocalDiscovery.ForceCloseAll | src/discovery/local-discovery.js:297-302 | every connection in the map is destroyed |
| DuplicateConnections.Agreement | src/discovery/local-discovery.js:222-251 | over every run of two nodes, with breaks and stops: when all is quiet, both hold the very same connection or neither holds one |
| DuplicateConnections.TieBreak | src/discovery/local-discovery.js:225-238 | over every run, breaks, stops and restarts included, the only connection started by the side with the smaller key is never destroyed as a duplicate by either end; if nothing is disturbed it is not destroyed at all, and is held by both ends when all is quiet |
| DuplicateConnections.RivalsLoseAll | src/discovery/local-discovery.js:229-243 | two connections from the winning side can destroy each other, and all others are lost with them |
| DuplicateConnections.SurvivalExact | src/discovery/local-discovery.js:222-251 | a connection is sure to stay exactly when the side with the smaller key started just one, or there is just one |
| KeptConnections.KeepsChoice | src/discovery/local-discovery.js:180-251 | whatever else happens with other peers: of any number of connections to one peer, with none of them closing but those it destroyed, a node never destroys the first one to open from the side with the smaller key (or, without any, the first of all); when all is settled, exactly that one is in the map |
| KeptConnections.EachKeepsChoice | src/discovery/local-discovery.js:180-251 | so does each of two nodes, over every run in which a connection closes at an end only if that end destroyed it |
| KeptConnections.SameInitiator | src/discovery/local-discovery.js:180-251 | in those runs both ends keep one with the same initiator: the side with the smaller key, exactly if it started any |
| KeptConnections.SameConnectionExact | src/discovery/local-discovery.js:180-251 | and both keep the very same one exactly when the first one that counts was the same at both ends |
| LocalPeers.StepOf | src/local-peers.js:196-306 | an event settles a registered promise and takes it off the list, or leaves it registered |
| LocalPeers.RegisteredExactly | src/local-peers.js:244-306 | after any event exactly those are registered that were and were not settled by it, and those it registers |
| LocalPeers.NextInv | src/local-peers.js:196-306 | the open promises are always exactly the registered ones, each for one thing |
| LocalPeers.WaitMeetsFate | src/local-peers.js:207-306 | over every run: a promise is settled once, by the first drain, matching acknowledgement or disconnection after its registration, and by nothing else |
| LocalPeers.StaysSettled | src/local-peers.js:207-306 | nothing settles a promise a second time |
| LocalPeers.DisconnectRejectsAll | src/local-peers.js:207-230 | disconnecting rejects all that wait and leaves nothing registered |
| LocalPeers.AckResolvesExactly | src/local-peers.js:292-306 | an acknowledgement resolves exactly the promises of its type and invite, and only from a peer that supports them |
| LocalPeers.StatusMoves | src/local-peers.js:196-216 | the state never goes back, and the `connected` promise is settled once |
| LocalPeers.StatusExact | src/local-peers.js:196-216 | over every run: connected and disconnected exactly as told by the events, and the `connected` promise by which came first |
| LocalPeers.Peer.SettleOne | src/local-peers.js:219-226 | is only ever called on a promise that is open |
| LocalPeers.Peer.HandleDisconnect | src/local-peers.js:207-230 | the step of the state machine, by its three loops |
| LocalPeers.Peer.HandleDrained | src/local-peers.js:233-238 | all drain listeners resolve and are forgotten |
| LocalPeers.Peer.ResolveMatching | src/local-peers.js:300-305 | the loop that deletes as it goes resolves and removes exactly the matching waiters |
| LocalPeers.Peer.HandleAck | src/local-peers.js:292-306 | the step of the state machine |
| LocalPeers.Peer.WaitForDrainOf | src/local-peers.js:244-251 | a new promise is registered unless everything was written at once |
| LocalPeers.Peer.WaitForAckOf | src/local-peers.js:274-286 | a new promise is registered unless the peer supports no acknowledgements |
| LocalPeers.Peer.HandleConnect | src/local-peers.js:196-206 | only a connecting peer becomes connected |
| PeerSends.SendMeetsFate | src/local-peers.js:334-343 | over every run, what becomes of a send that awaits the drain and then the acknowledgement is what the actions alone tell |
| PeerSends.SendOutcome | src/local-peers.js:334-343 | from the very start: a send is over exactly when, and as, the actions since its beginning say, refused at once when the peer is not connected |
| PeerSends.EarlyAckLost | src/local-peers.js:338-341 | an acknowledgement that arrives before the send went on from the drain makes no difference to what becomes of it |
| PeerSends.WaitsExactly | src/local-peers.js:274-306 | a send that awaits its acknowledgement goes on waiting exactly as long as no matching one arrives from a peer that supports them and no peer that has not yet disconnects |
| PeerSends.HangsForEver | src/local-peers.js:338-341 | a send that goes on from the drain after the disconnection never ends, short of an acknowledgement that still arrives |
| PeerSends.BeginSend | src/local-peers.js:334-338 | the first stretch is the step of the state machine |
| PeerSends.ResumeSend | src/local-peers.js:338-342 | so is every other one |
| LocalPeers.ChooseDevicePeer | src/local-peers.js:1005-1034 | none while any connection is being made; otherwise the oldest connected one, else the one disconnected last |
| ProjectRoles.RecordsAssignable | src/roles.js:371-438 | over every run by any devices, their assignments interleaved await by await: no record gives the creator role, no role, or an unknown one, and none starts beyond its device's core |
| ProjectRoles.OneGo | src/roles.js:371-438 | with nothing in between, the stretches of an assignment come to what its checks and its write say directly, errors included |
| ProjectRoles.OthersOverCreator | src/roles.js:404-431 | what others can do to a creator, in any project: block them, and anything else exactly once the creator has a record |
| ProjectRoles.LateOverCreator | src/roles.js:381-430 | over every run: an assignment by another device under way is turned down as meant for the creator exactly when it does not block them, they have no record when it looks for one, and they were known as the creator when it looked the device up |
| ProjectRoles.FirstRecordOfCreator | src/roles.js:418-436 | over every run: a creator's first record is their own doing, or blocks them, or they were unknown at the look-up |
| ProjectRoles.UnknownMadeMember | src/roles.js:381-436 | a run in which a creator without record, looked up before their core ownership arrived, is made a member by someone else |
| ProjectRoles.StillAllowed | src/roles.js:398-438 | over every run: an assignment that passed its checks is still one its device may make exactly when, since the device's own record was read, no role was written for it, or last the coordinator's |
| ProjectRoles.ReasonKept | src/roles.js:408-436 | the reason given can be read back exactly when there is none or the device had a record before |
| ProjectRoles.RoleNamed | src/roles.js:278-299 | the role of a device is the one its record names, the blocked one for an unknown name, and without record the creator's or no role; what each may assign |
| ProjectRoles.RoleShown | src/roles.js:322-358 | the role shown is the one the record names where it is taken over, and otherwise the creator's or no role |
| ProjectRoles.LateIndex | src/roles.js:383-387 | over every run: the index an assignment notes is the length the device's core had when it was ready |
| ProjectRoles.NoIndex | src/roles.js:378-392 | and 0 when no core of the device was at hand |
| ProjectRoles.WhatIsWritten | src/roles.js:408-437 | a record changes only by an assignment that has looked at it, to its role, index and reason |
| ProjectRoles.LeftByItself | src/roles.js:393-396 | over every run: only a device itself has it left |
| ProjectRoles.CreatorMadeMember | src/roles.js:408-431 | a run in which a creator is made a member by someone else |
| ProjectRoles.FrozenForEver | src/roles.js:371-438 | once that is so, over every run the records change only by devices leaving, and by all that do |
| ProjectRoles.FrozenExact | src/roles.js:371-438 | over every run: the records can only change by devices leaving if and only if the creator is known, no role can assign anything, and no assignment but of devices leaving is bound to write: past its checks, or its device a creator found without record |
| ProjectRoles.UnknownCreatorThaws | src/roles.js:284-286 | in a new project no one can assign, until the creator's core ownership arrives |
| ProjectRoles.LateWriteThaws | src/roles.js:398-417 | a run in which a coordinator who has passed the check makes another one after both it and the creator were blocked |
| ProjectRoles.ShownAgrees | src/roles.js:278-299 | `getAll` and `getRole` agree on a device, whatever is in the records, exactly when the stated condition on its record holds |
| ProjectRoles.ShownAgreesAlways | src/roles.js:322-358 | in every project that got there by assigning roles they agree on every device shown, except on the device itself exactly as long as it has neither a role record nor a core ownership record |
| ProjectRoles.Roles.GetAll | src/roles.js:322-358 | shows exactly the creator, the devices with a usable record and this device, each with the role its record names |
| ProjectRoles.Roles.OwnRole | src/roles.js:278-299 | the role of this device, named by its record where that is a known one, failing without record and core ownership |
| ProjectRoles.Roles.BeginAssign | src/roles.js:371-381 | up to its first `await`, `assignRole` refuses roles that no one can be assigned |
| ProjectRoles.Roles.TargetFound | src/roles.js:381-385 | each stretch between two awaits is a step of the state machine, whatever happened before it: the look-up of the device's core |
| ProjectRoles.Roles.CoreReady | src/roles.js:386-398 | the core's length, and who may be left |
| ProjectRoles.Roles.OwnRecordRead | src/roles.js:279-299 | the own role by its record |
| ProjectRoles.Roles.OwnCoreRead | src/roles.js:282-292 | the own role without one |
| ProjectRoles.Roles.RecordFound | src/roles.js:404-431 | the device's record, and the guard of the creator |
| ProjectRoles.Roles.FinishAssign | src/roles.js:409-436 | the record is updated, or created unless another one has come by now, and nothing else changes |
| ProjectRoles.Roles.AssignRoleTo | src/roles.js:371-438 | with nothing in between: refuses with the right error and changes nothing, or changes exactly one record, its role, index and reason |

## Left out

- RemoteBitfields.RemoteBitfield.FirstUnset: does not promise the least unset position in every case, because the code does not find it; the exact condition is `FirstUnsetExact`.
- BitfieldRleBuffers.EncodeBitfield: asks that four times the length plus 3 is a safe integer, because the `varint` package refuses larger numbers; no buffer can be that long.
- BitfieldRleBuffers.DecodeBitfield: numbers of eight bytes are read exactly, where JavaScript rounds those above 2 to the 53; a failing allocation of a huge expansion is not modelled.
- HaveCodec.MsgRoundTrip: asks that keys and bitfields have lengths below 2 to the 32, which is what the wire's length field holds.
- DownloadIntents.SameMeaning: text is UTF-8 bytes; the conversion from and to UTF-16, and what it does to lone surrogates, is not part of the model.
- DataStores.NoLostWakeUp: appends that fail or never resolve, and a writer core without discovery key, are not modelled.
- DuplicateConnections.TieBreak: keys are distinct; a node that connects to itself is not modelled.
- LocalPeers.WaitMeetsFate: a wait for an acknowledgement that is registered after the disconnection stays open unless an acknowledgement comes, as in the code; nothing better is promised.
- ProjectRoles.FrozenExact: all devices share one set of records; replicas that have not synced are not modelled.
- ProjectRoles.Roles.FinishAssign: the data type's own check and write are one step, and of two updates that do not know of each other the later one counts, as between versions with the later `updatedAt`; clocks and forks are not modelled.
- ProjectRoles.Roles.GetAll: the records and the creator's core are read in one step.
- ProtoWire.UnknownIgnored: a 64-bit number that a message's end cuts off is refused, as its specification wants; how the `protobufjs` package reads on at the very end of a buffer is not part of the model.
- The libraries `quickbit`, `varint`, `protobufjs`, `map-obj` and `big-sparse-array` are not in the repository; they are modelled by what the repository uses of them.
- The optional buffer and offset of the run-length `encode` and `decode`, and their `bytes` counters.
- The other messages of `rpc.js` (invites, join details, acknowledgements), `fromPartial` and `create`: the same shape as the ones modelled.
- `FilterEntriesStream`: the filter applied to a stream's entries one by one.
- TCP and Noise handshakes, multicast, sockets' own errors, and connections without a public key; the model starts at a stream's opening.
- The contents of the messages a peer connection sends, and which peers `LocalPeers` announces; the model has what waits for them.
- The document and sync capabilities in the role tables; only what a role may assign is modelled.
- Writing, reading and indexing of documents other than the meeting of `write` and the indexer.
