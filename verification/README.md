# Verified models of the protocol code under ComicApp

ComicApp talks to Firebase through vendored pods. Four pieces of that C and C++ code
carry the protocol logic, and this project models them and proves what they promise.
`dafny verify dfyconfig.toml` checks all of it.

**nanopb** encodes and decodes protocol buffers from field tables. `PbModel` has
descriptors and messages, `PbWire` the encoding and decoding as functions, and
`PbEncode`, `PbDecode` and `PbIterator` the streams, loops, cyclic field iterator and
required-field bitmap that compute them on arrays. `PbMemory` is the struct a message is
decoded into: every write of every run stays in the member it is for. `PbRoundTrip`
proves the round trip, exactly as far as it holds, and `PbLaws` concatenation, unknown
fields, delimited frames and the fit of whatever decodes. `PbFormat` states the wire
format outright, `PbValues` which bytes each field decoder accepts and as what,
`PbRequired` that decoding needs the required fields, and `PbFields` what becomes of
fields that arrive twice or not at all. `Varint` covers the integer encodings and both
varint decoders.

**The DTLS handshake transport** of BoringSSL: `ReplayWindow` is the reading side of the
record layer, `WriteSequence` its record numbers, `Reassembly` a message under assembly
with its bitmask, `DtlsReceiver` the ring of seven messages, and `DtlsSender` the
outgoing flight cut into packets. `DtlsRecords` states what the receiver answers to each
record, and when a ChangeCipherSpec is waiting. `DtlsNetwork` puts sender and receiver
together over a network that loses, duplicates and reorders: the messages delivered are
a prefix of those queued (sections 4.1, 4.1.2.6, 4.2.2, 4.2.3 and 4.2.6 of RFC 6347).

**The handshake machines and the TLS transport** below TLS 1.3: `HandshakeClient` and
`HandshakeServer` are the two state machines, as objects that each `do_*` method changes
in place and as functions they are proved against; `RunHandshake` has the loops that run
them, and `JointHandshake` the two machines with everything in between.
`HandshakeScript` lists the order of messages (section 7.3 of RFC 5246) by milestones,
and `HonestClient` and `HonestServer` prove that each machine follows it.
`HandshakeOrder` has no assumption on the peer: a machine that completes has seen the
messages its flags call for, in order, and no others. `HandshakePath` adds the states it
has been in, the answers of the application it cannot do without, and exactly what it
refuses. `TlsMessages` is the message reader over the record stream, and `WritePath` the
three places where sealed bytes wait to be written.

**Reference counts**: `Refcount` models the compare-and-swap loops of any number of
threads step by step and proves that they refine the locked version.

`Bytes`, `Bits`, `BigEndian` and `Options` hold what the others share.

The source's mutable objects are classes here: streams, the iterator, the bitmap, the
replay window, record counters, reassembly buffers, the receiver, the sender, the
message reader, the connection, both handshake machines and the loop around them. Each
method is proved against a function or a ghost history of its object, and the theorems
are lemmas about those functions. Transports, ciphers and callbacks answer arbitrarily.

## Where the code does not do what one would expect

- A message encoded in fewer than 2^63 bytes survives encoding and decoding exactly when
  every length prefix inside it is below 2^32 (`RoundTripExact`): the encoder writes
  64-bit lengths, the decoder refuses them (`LongArrayRefused`).
- Record numbers of an epoch are never reused before its counter reports wraparound,
  but the counter is zero by then: if the caller seals again in that epoch, numbers
  repeat (`NeverReused` is an equivalence, `OneSealTooMany` such a run).
- When sealing the later part of a DTLS packet fails, the position in the flight has
  already moved past its earlier part, which is not written until the flight is
  retransmitted (`HalfSealedPacket`). `SendFlight` returns that part as `lost`. What
  is written cuts each message into consecutive fragments up to the position if and
  only if nothing has been lost since the flight began (`UnbrokenExact`,
  `FragmentsPartition`).
- The receiver's filter lets a fragment of message `read_seq + 7` through although the
  ring has no slot for it; only the second check, which ends the connection, protects
  the slot of the current message (`HonestFragmentRefused`, `JustPastTheRing`).
- Two releases of a reference count can return true, if somebody takes a reference at
  zero (`TwoLastReleases`). Callers that take, release and hand on references only
  while they hold one never do, and then nothing aborts and exactly one release is the
  last (`OwnersNeverFail`, `OneLastRelease`). Without that rule the lock-free decrement
  may also abort on a zero it has read although another thread has taken a reference
  since (`LateAbort`); the locked one reads and aborts in one step.
- A full array has its count raised past the maximum before the decoder refuses another
  item (`DecField`), and a varint too large for its member is stored there, cut off,
  before it is refused (`DecInt`).
- An empty table fails on a key from 1 to 7, whose tag 0 is that of its terminator row;
  every other table skips such a field (`ZeroTags`).
- A string that fills its storage without a NUL is written but refused when it is read
  back (`FullString`).
- Flushing a TLS flight succeeds at once when there is none, even if the write buffer
  still holds sealed bytes; after a failed seal these may be what was the flight
  (`FlushFlight`, `DoWrite`).

## Model

| member | source | states |
|---|---|---|
| `Varint.Varint64RoundTrip` | ComicApp/Pods/nanopb/pb_encode.c:574-594 | Every uint64 comes back from its varint, which takes 1 to 10 bytes, and whatever follows is left unread |
| `Varint.VarintBytesLength` | ComicApp/Pods/nanopb/pb_encode.c:574-594 | A value takes at most n bytes if and only if it is below 2^(7n) |
| `Varint.ZigZagRoundTrip` | ComicApp/Pods/nanopb/pb_encode.c:596-605 | Zigzag maps 0, -1, 1, -2, ... to 0, 1, 2, 3, ..., and every int64 survives it followed by the varint, with any suffix left unread |
| `Varint.FixedRoundTrip` | ComicApp/Pods/nanopb/pb_encode.c:607-632 | Fixed-width values of any width come back |
| `Varint.FixedDigits` | ComicApp/Pods/nanopb/pb_encode.c:607-632 | Byte i of a fixed-width value is its digit i to the base 256: the lowest first |
| `Varint.VarintDigits` | ComicApp/Pods/nanopb/pb_encode.c:574-594 | Byte i of a varint carries digit i to the base 128: the lowest first |
| `Varint.DecodersAgree` | ComicApp/Pods/nanopb/pb_decode.c:182-270 | On every input that both decoders accept they consume the same bytes, and the 32-bit result is the 64-bit one modulo 2^32 |
| `Varint.Varint64Accepts` | ComicApp/Pods/nanopb/pb_decode.c:250-270 | The 64-bit decoder takes every complete varint of at most ten bytes, canonical or not, and returns its value modulo 2^64 |
| `Varint.Varint32RoundTrip` | ComicApp/Pods/nanopb/pb_decode.c:182-242 | The 32-bit decoder reads back every canonical encoding of a value below 2^32 |
| `Varint.Varint32SignExtended` | ComicApp/Pods/nanopb/pb_decode.c:182-242 | It accepts every negative int32 sign-extended to 64 bits and returns its low 32 bits |
| `Varint.Varint32Refuses` | ComicApp/Pods/nanopb/pb_decode.c:182-242 | It refuses every canonical encoding of a value from 2^32 up to 2^63 |
| `PbEncode.VarintBuffer` | ComicApp/Pods/nanopb/pb_encode.c:574-594 | The shifting loop over the local buffer, with its last continuation bit cleared, yields the varint |
| `PbEncode.OStream.Write` | ComicApp/Pods/nanopb/pb_encode.c:101-119 | A buffer stream takes the data whole if it fits its limit and otherwise refuses it; a sizing stream only counts |
| `PbEncode.OStream.EncodeVarint` | ComicApp/Pods/nanopb/pb_encode.c:574-594 | What reaches the stream is the varint, or nothing when it does not fit |
| `PbEncode.OStream.EncodeTag` | ComicApp/Pods/nanopb/pb_encode.c:635-639 | The key byte string of a tag and wire type, whole or refused |
| `PbEncode.OStream.EncodeString` | ComicApp/Pods/nanopb/pb_encode.c:674-680 | Length prefix and data, back to back |
| `PbEncode.EncValue` | ComicApp/Pods/nanopb/pb_encode.c:734-868 | Each type's encoder writes what the specification of the value says, and fails exactly when that does |
| `PbEncode.EncSubmessage` | ComicApp/Pods/nanopb/pb_encode.c:682-730 | The sizing pass and the writing pass agree: it fails only for lack of room or because the submessage cannot be encoded, so "submsg size changed" is unreachable at every nesting level |
| `PbEncode.PackedSize` | ComicApp/Pods/nanopb/pb_encode.c:145-163 | The size announced for a packed array, computed by multiplication for fixed widths and by a sizing stream otherwise, is the size of its encoding |
| `PbEncode.EncPacked` | ComicApp/Pods/nanopb/pb_encode.c:141-193 | Tag, length prefix and items of a packed array, on sizing and writing streams alike |
| `PbEncode.EncArray` | ComicApp/Pods/nanopb/pb_encode.c:126-211 | Packed, or item by item with a tag each; too many items fail |
| `PbEncode.EncField` | ComicApp/Pods/nanopb/pb_encode.c:307-392 | Required, optional, repeated and oneof fields write what the specification of the field says, which PbFormat and PbRoundTrip pin, and nothing else |
| `PbEncode.PbEncode` | ComicApp/Pods/nanopb/pb_encode.c:494-516 | The fields in table order, appended to whatever the stream held, or failure exactly when the specification has no encoding or there is no room |
| `PbFormat.OneRecord` | ComicApp/Pods/nanopb/pb_encode.c:641-672 | A field goes out as a key with the wire type of its kind of value (0 for varints, 1 and 5 for eight and four bytes, 2 for what has its length in front) and then exactly what that wire type announces |
| `PbFormat.FieldSkipped` | ComicApp/Pods/nanopb/pb_encode.c:307-392 | Whatever is written for a field, packed arrays and nested messages included, a reader whose table lacks its tag goes on behind it as if it had not been there |
| `PbFormat.MessageSkipped` | ComicApp/Pods/nanopb/pb_encode.c:494-516 | So a reader that knows none of its tags passes over a whole message |
| `PbValues.WriterRefuses` | ComicApp/Pods/nanopb/pb_encode.c:126-211 | Too many items, or more bytes than the storage, are refused |
| `PbValues.FullString` | ComicApp/Pods/nanopb/pb_encode.c:831-855 | A string that fills its storage without a NUL is written, and cannot be read back |
| `PbValues.FieldSpoils` | ComicApp/Pods/nanopb/pb_encode.c:494-516 | One field that cannot be encoded spoils the message |
| `PbEncode.PbGetEncodedSize` | ComicApp/Pods/nanopb/pb_encode.c:533-542 | The announced size is the length of the encoding |
| `PbEncode.EncodeToBuffer` | ComicApp/Pods/nanopb/pb_encode.c:84-119 | Encoding into a buffer succeeds if and only if the announced size fits it, writes exactly that many bytes and leaves the rest of the array alone |
| `PbDecode.IStream.Read` | ComicApp/Pods/nanopb/pb_decode.c:100-134 | Takes exactly `count` bytes or fails and moves nothing; the end of the stream stays where it was |
| `PbDecode.IStream.ReadByte` | ComicApp/Pods/nanopb/pb_decode.c:136-152 | One byte, or failure exactly at the end of the stream |
| `PbDecode.IStream.DecodeVarint` | ComicApp/Pods/nanopb/pb_decode.c:250-270 | Accepts and consumes exactly what the 64-bit specification says |
| `PbDecode.IStream.DecodeVarint32` | ComicApp/Pods/nanopb/pb_decode.c:182-242 | Likewise for 32 bits; `eof` is reported if and only if there was no byte at all |
| `PbDecode.IStream.DecodeTag` | ComicApp/Pods/nanopb/pb_decode.c:293-314 | Separates a malformed tag, a zero tag and a proper one |
| `PbDecode.IStream.MakeSubstream` | ComicApp/Pods/nanopb/pb_decode.c:367-380 | The substream covers exactly the announced bytes and the parent the bytes after them |
| `PbDecode.IStream.CloseSubstream` | ComicApp/Pods/nanopb/pb_decode.c:382-395 | The parent goes on right behind the substream, whatever of it was left unread |
| `PbDecode.IStream.SkipField` | ComicApp/Pods/nanopb/pb_decode.c:316-326 | Skips exactly one field of each wire type, or fails |
| `PbDecode.DecInt` | ComicApp/Pods/nanopb/pb_decode.c:1240-1389 | Integers of each width: what does not survive the cast to the field's width is refused, after it has been stored in the member |
| `PbDecode.DecBytesArray` | ComicApp/Pods/nanopb/pb_decode.c:1391-1426 | Bytes are refused when their storage cannot hold them; their size is stored even when they cannot be read, inside the member |
| `PbDecode.DecString` | ComicApp/Pods/nanopb/pb_decode.c:1428-1461 | A string is refused when its storage cannot hold it with a NUL; the NUL is stored even when the string cannot be read, inside the member |
| `PbDecode.DecFixedBytes` | ComicApp/Pods/nanopb/pb_decode.c:1487-1508 | Fixed-length bytes are refused unless the length is exact or zero, and written inside the member |
| `PbDecode.SetFieldToDefault` | ComicApp/Pods/nanopb/pb_decode.c:812-882 | A field gets its default, by writes to its own member, flag, count or which_ only |
| `PbDecode.SetToDefaults` | ComicApp/Pods/nanopb/pb_decode.c:884-895 | The loop over the table yields the default message, by writes inside the struct only |
| `PbDecode.DecSubmessage` | ComicApp/Pods/nanopb/pb_decode.c:1463-1485 | On success the parent stands right behind the submessage, at the same end |
| `PbDecode.DecField` | ComicApp/Pods/nanopb/pb_decode.c:401-475 | Required, optional, packed, repeated and oneof fields; success keeps position and end consistent. On every run, failing ones included, each write lies in this field's member or in its flag, count or which_; a full array has its count raised past the maximum and nothing else |
| `PbDecode.DecPacked` | ComicApp/Pods/nanopb/pb_decode.c:415-447 | Item by item, each inside the array and counted once it is decoded |
| `PbDecode.DecodeFound` | ComicApp/Pods/nanopb/pb_decode.c:973-997 | The writes for a field are at the true place of its member, where the iterator points |
| `PbDecode.MarkField` | ComicApp/Pods/nanopb/pb_decode.c:988-993 | The bit set is that of the required fields before this one, for the first 64 |
| `PbDecode.CheckRequired` | ComicApp/Pods/nanopb/pb_decode.c:1009-1047 | The loop over whole words of the bitmap and the shifted last word computes the final test, which PbRequired ties to the bytes read |
| `PbDecode.DecodeFields` | ComicApp/Pods/nanopb/pb_decode.c:901-1007 | The loop with its cyclic iterator and bitmap computes the recursive specification |
| `PbDecode.PbDecodeNoinit` | ComicApp/Pods/nanopb/pb_decode.c:901-1049 | Terminates on every byte string with the specified result, by which success needs the required fields (PbRequired.RequiredExactly); it leaves the end of the stream in place; every write of every run lies inside the struct |
| `PbRequired.RequiredExactly` | ComicApp/Pods/nanopb/pb_decode.c:901-1049 | Decoding succeeds if and only if every record can be read and, for each of the first 64 required fields, one of them carries its tag |
| `PbRequired.MissingRecordRefused` | ComicApp/Pods/nanopb/pb_decode.c:1009-1047 | The converse of the round trip: an encoding that has lost the record of one of the first 64 required fields is refused |
| `PbRequired.EmptyRefused` | ComicApp/Pods/nanopb/pb_decode.c:1009-1047 | Nothing at all is refused by a table with a required field |
| `PbFormat.SkipExactly` | ComicApp/Pods/nanopb/pb_decode.c:273-326 | A field is passed over by n bytes if and only if these are a varint, eight bytes, a string with its length in front or four bytes, as wire types 0, 1, 2 and 5 say; other wire types fail |
| `PbValues.SignedExactly` | ComicApp/Pods/nanopb/pb_decode.c:1289-1324 | An int32 or shorter field takes a varint by its low 32 bits, in two's complement, if and only if its own width holds that number |
| `PbValues.FiveBytes` | ComicApp/Pods/nanopb/pb_decode.c:1289-1324 | So a negative int32 that was not sign-extended comes back from five bytes |
| `PbValues.Signed64Exactly` | ComicApp/Pods/nanopb/pb_decode.c:1289-1324 | An int64 field takes every varint of at most ten bytes |
| `PbValues.UnsignedExactly` | ComicApp/Pods/nanopb/pb_decode.c:1326-1348 | An unsigned field takes exactly what its width holds |
| `PbValues.ZigZagExactly` | ComicApp/Pods/nanopb/pb_decode.c:1350-1372 | So does a zigzag field |
| `PbValues.NoVarintRefused` | ComicApp/Pods/nanopb/pb_decode.c:250-270 | Without a complete varint of at most ten bytes in front there is no number |
| `PbValues.FixedExactly` | ComicApp/Pods/nanopb/pb_decode.c:1254-1288 | Four or eight bytes, the lowest first, if there are as many |
| `PbValues.BytesExactly` | ComicApp/Pods/nanopb/pb_decode.c:1391-1508 | Bytes are taken up to the capacity, a string if it leaves room for a NUL, cut at its first one, and fixed-length bytes if the length is exact, or zero for zeros |
| `PbValues.ShortRefused` | ComicApp/Pods/nanopb/pb_decode.c:1391-1508 | A length with less than that behind it is refused |
| `PbValues.PackedOverflow` | ComicApp/Pods/nanopb/pb_decode.c:415-447 | A packed array with more items than there is room for is refused |
| `PbValues.PackedBroken` | ComicApp/Pods/nanopb/pb_decode.c:415-447 | So is one with an item that cannot be read |
| `PbValues.ItemExactly` | ComicApp/Pods/nanopb/pb_decode.c:415-459 | An array item by item: refused when full, appended otherwise, for packable types too unless the key says that they come packed |
| `PbFields.UnknownRefused` | ComicApp/Pods/nanopb/pb_decode.c:316-326 | An unknown field that is cut short or of another wire type ends decoding with failure |
| `PbFields.KeyRefused` | ComicApp/Pods/nanopb/pb_decode.c:293-314 | So does a key that cannot be read |
| `PbFields.SlotKept` | ComicApp/Pods/nanopb/pb_decode.c:901-1007 | Storage whose fields do not arrive keeps what it held |
| `PbFields.AbsentDefault` | ComicApp/Pods/nanopb/pb_decode.c:812-895 | A field that does not arrive ends up at the default of its row, absent, empty or unset |
| `PbFields.PartsMerge` | ComicApp/Pods/nanopb/pb_decode.c:1463-1485 | A submessage that comes in two records is read as if their bytes had come in one |
| `PbFields.StartsAfresh` | ComicApp/Pods/nanopb/pb_decode.c:1463-1485 | In an array or a oneof it starts from its defaults |
| `PbFields.LastCounts` | ComicApp/Pods/nanopb/pb_decode.c:401-475 | For scalars and oneofs the last record counts, whatever was there |
| `PbDecode.PbDecode` | ComicApp/Pods/nanopb/pb_decode.c:1051-1063 | As above from the defaults; a message that decodes fits its storage everywhere, and every write of every run lies inside the struct |
| `PbDecode.PbDecodeDelimited` | ComicApp/Pods/nanopb/pb_decode.c:1080-1093 | On success the stream is right behind the frame |
| `PbModel.DefaultsOk` | ComicApp/Pods/nanopb/pb_decode.c:812-895 | The default message fits its storage, nested ones included |
| `PbRoundTrip.PackedRoundTrip` | ComicApp/Pods/nanopb/pb_decode.c:415-447 | A packed array decodes back behind the items already there |
| `PbRoundTrip.MessageRoundTrip` | ComicApp/Pods/nanopb/pb_decode.c:901-1063 | Decoding what was encoded succeeds, consumes every byte and gives an equal message, for every well-formed descriptor and message at any nesting depth, if every length prefix is below 2^32 |
| `PbRoundTrip.MessageRefused` | ComicApp/Pods/nanopb/pb_decode.c:182-242 | A message with a length prefix of 2^32 or more is refused by the decoder |
| `PbRoundTrip.RoundTripExact` | ComicApp/Pods/nanopb/pb_decode.c:901-1063 | Messages encoded in fewer than 2^63 bytes decode if and only if all their length prefixes are below 2^32, and then to an equal message |
| `PbLaws.LongArrayRefused` | ComicApp/Pods/nanopb/pb_decode.c:182-242 | An encodable message that does not decode: a packed array of 2^29 numbers of eight bytes has a prefix of 2^32 |
| `PbLaws.ZeroTags` | ComicApp/Pods/nanopb/pb_decode.c:293-326 | A key of 0 ends a message; a key from 1 to 7 is skipped, except by an empty table, which fails |
| `PbLaws.DecodeAppend` | ComicApp/Pods/nanopb/pb_decode.c:901-1049 | Decoding is a homomorphism: decoding A, then B onto the result, is decoding A followed by B |
| `PbLaws.UnknownFieldIgnored` | ComicApp/Pods/nanopb/pb_decode.c:273-326 | A well-formed field with an unknown tag between top-level fields changes neither the message nor whether decoding succeeds |
| `PbLaws.DecodeStored` | ComicApp/Pods/nanopb/pb_decode.c:901-1063 | What arbitrary bytes decode to, if they decode, fits its storage (PbDecode.DecField has the writes of failing runs) |
| `PbLaws.FramesRoundTrip` | ComicApp/Pods/nanopb/pb_decode.c:1080-1093 | A run of delimited messages decodes frame by frame to the messages encoded |
| `PbRoundTrip.EncodeSucceeds` | ComicApp/Pods/nanopb/pb_encode.c:494-516 | A message that fits its descriptor can always be encoded |
| `PbIterator.FieldIter.Begin` | ComicApp/Pods/nanopb/pb_common.c:8-18 | The data pointer starts at the first field's offset |
| `PbIterator.FieldIter.Next` | ComicApp/Pods/nanopb/pb_common.c:20-76 | One step around the table: the incremental data pointer is again the field's true offset and the required index counts the required fields before it |
| `PbIterator.FieldIter.Find` | ComicApp/Pods/nanopb/pb_common.c:78-95 | Succeeds if and only if the tag is in the table (or is 0 in an empty one), at its position; otherwise it ends where it began |
| `PbIterator.RequiredBits.Mark` | ComicApp/Pods/nanopb/pb_decode.c:988-993 | One more field seen, in words of 32 bits |
| `PbIterator.RequiredBits.Complete` | ComicApp/Pods/nanopb/pb_decode.c:1009-1047 | The test by whole words and then a shifted last word passes if and only if every required field below 64 was seen |
| `PbMemory.MembersApart` | ComicApp/Pods/nanopb/pb.h:393-402 | Two members laid out by the offset macros overlap only if they share a union |
| `PbMemory.OthersUntouched` | ComicApp/Pods/nanopb/pb_decode.c:401-475 | What is written for one field leaves the members, flags and counts of all others alone, unless they share a union |
| `PbMemory.ExampleStruct` | ComicApp/Pods/nanopb/pb.h:386-430 | A table with a required, an optional and a repeated field describes its struct |
| `Refcount.Locked.Inc` | ComicApp/Pods/BoringSSL-GRPC/crypto/refcount_lock.c:29-35 | The locked increment, which sticks at the maximum |
| `Refcount.Locked.DecAndTestZero` | ComicApp/Pods/BoringSSL-GRPC/crypto/refcount_lock.c:37-51 | The locked decrement: abort at zero, stick at the maximum, and true exactly on the last reference |
| `Refcount.StepRefines` | ComicApp/Pods/BoringSSL-GRPC/crypto/refcount_c11.c:37-65 | One atomic step of one thread changes the count as the locked operation it completes does, and gives its thread that operation's result |
| `Refcount.LockFreeRefinesLocked` | ComicApp/Pods/BoringSSL-GRPC/crypto/refcount_c11.c:37-65 | Every interleaving of any number of threads, with spurious failures of the compare-and-swap, equals the locked operations one at a time, each between its call and its return |
| `Refcount.SaturatedForever` | ComicApp/Pods/BoringSSL-GRPC/crypto/refcount_c11.c:37-65 | A saturated count stays saturated for ever |
| `Refcount.OwnersNeverFail` | ComicApp/Pods/BoringSSL-GRPC/crypto/refcount_c11.c:37-65 | While callers take, release or hand on a reference only when they hold one, and below saturation: the count is the references held and being given up, nothing aborts, nobody takes at zero, and a release returns true exactly when the count reaches zero |
| `Refcount.OneLastRelease` | ComicApp/Pods/BoringSSL-GRPC/crypto/refcount_c11.c:37-65 | Once they have released everything, exactly one release has returned true, the last operation of all |
| `Refcount.LivesIsRun` | ComicApp/Pods/BoringSSL-GRPC/crypto/refcount_c11.c:37-65 | These are runs of the same threads |
| `Refcount.TwoLastReleases` | ComicApp/Pods/BoringSSL-GRPC/crypto/refcount_c11.c:37-65 | Without that rule two releases can return true: one thread releases, takes at zero and releases again |
| `Refcount.BalancedRun` | ComicApp/Pods/BoringSSL-GRPC/crypto/refcount_c11.c:37-65 | For any balanced run without aborts, below saturation: exactly one release returned true if and only if nobody took a reference at zero |
| `Refcount.LateAbort` | ComicApp/Pods/BoringSSL-GRPC/crypto/refcount_c11.c:49-65 | The one difference: a decrement that has read zero aborts although the count has risen meanwhile |
| `ReplayWindow.ToU64BE` | ComicApp/Pods/BoringSSL-GRPC/ssl/dtls_record.cc:128-136 | The accumulator loop yields the big-endian value |
| `ReplayWindow.Bitmap.ShouldDiscard` | ComicApp/Pods/BoringSSL-GRPC/ssl/dtls_record.cc:140-150 | True if and only if the number was accepted before or is 64 or more below the largest accepted |
| `ReplayWindow.Bitmap.Record` | ComicApp/Pods/BoringSSL-GRPC/ssl/dtls_record.cc:155-175 | The 64-bit window afterwards stands for the accepted set with this number |
| `ReplayWindow.Reader.OpenRecord` | ComicApp/Pods/BoringSSL-GRPC/ssl/dtls_record.cc:177-272 | A record is delivered if and only if it parses, is of the read epoch, is not stale and opens; nothing else changes the window |
| `WriteSequence.SealedAccepted` | ComicApp/Pods/BoringSSL-GRPC/ssl/dtls_record.cc:177-272 | What was sealed is accepted exactly if its version is the reader's (any of the family 0xFE before there is a cipher), its epoch too, its number is new and it opens to at most 2^14 bytes; it takes its own bytes, or the whole packet if the version is wrong |
| `WriteSequence.MalformedDropped` | ComicApp/Pods/BoringSSL-GRPC/ssl/dtls_record.cc:190-205 | What is cut short or too long is dropped with its packet |
| `ReplayWindow.NoReplay` | ComicApp/Pods/BoringSSL-GRPC/ssl/dtls_record.cc:177-272 | Over every run and across epochs, no record number is accepted twice |
| `WriteSequence.Writer.SealRecord` | ComicApp/Pods/BoringSSL-GRPC/ssl/dtls_record.cc:294-351 | The header carries the epoch's own number; a number is used up once the cipher has run, and wraparound is reported |
| `WriteSequence.SealedParses` | ComicApp/Pods/BoringSSL-GRPC/ssl/dtls_record.cc:294-351 | What is sealed reads back on the other side with type, version, number and body, whatever follows |
| `WriteSequence.NextNumber` | ComicApp/Pods/BoringSSL-GRPC/ssl/dtls_record.cc:329-337 | The counter behind the epoch goes up by one modulo 2^48 and the epoch stays |
| `WriteSequence.OneSealTooMany` | ComicApp/Pods/BoringSSL-GRPC/ssl/dtls_record.cc:294-351 | 2^48 seals of one epoch have distinct numbers, and one more repeats one |
| `WriteSequence.NeverReused` | ComicApp/Pods/BoringSSL-GRPC/ssl/dtls_record.cc:294-351 | Over every run of sealing in both epochs, epoch changes and retransmissions, all (epoch, number) pairs differ if and only if no epoch seals again after its counter reported wraparound |
| `ReplayWindow.Reader.SetReadState` | ComicApp/Pods/BoringSSL-GRPC/ssl/dtls_method.cc:81-95 | The next epoch starts with an empty window |
| `WriteSequence.Writer.SetWriteState` | ComicApp/Pods/BoringSSL-GRPC/ssl/dtls_method.cc:97-107 | The old counter is kept for the previous epoch and the new one starts at zero |
| `WriteSequence.SequenceUpdate` | ComicApp/Pods/BoringSSL-GRPC/ssl/tls_record.cc:154-163 | The byte-wise carry loop increments the number; it fails exactly when all bytes wrap to zero |
| `WriteSequence.CarryIntoIncrements` | ComicApp/Pods/BoringSSL-GRPC/ssl/tls_record.cc:154-163 | The carry touches the counter bytes only and increments their value |
| `Reassembly.HmFragment.constructor` | ComicApp/Pods/BoringSSL-GRPC/ssl/d1_both.cc:152-199 | An empty message is complete at once; otherwise nothing is marked and the header reads as one fragment |
| `Reassembly.HmFragment.MarkRange` | ComicApp/Pods/BoringSSL-GRPC/ssl/d1_both.cc:225-237 | Exactly the bits of the range are added, at the ends within a byte too |
| `Reassembly.HmFragment.AllReceived` | ComicApp/Pods/BoringSSL-GRPC/ssl/d1_both.cc:239-247 | The byte-wise test, with the mask for the last byte, passes if and only if every bit is set |
| `Reassembly.HmFragment.Mark` | ComicApp/Pods/BoringSSL-GRPC/ssl/d1_both.cc:211-251 | The bitmask goes away if and only if every offset of the message is marked |
| `Reassembly.HmFragment.Absorb` | ComicApp/Pods/BoringSSL-GRPC/ssl/d1_both.cc:387-403 | Copying and marking a fragment is adding its offsets and bytes to the message received |
| `Reassembly.ReceivedIffCovered` | ComicApp/Pods/BoringSSL-GRPC/ssl/d1_both.cc:211-251 | After any sequence of fragments an offset is received if and only if one of them covered it |
| `Reassembly.AnyOrderReassembles` | ComicApp/Pods/BoringSSL-GRPC/ssl/d1_both.cc:387-403 | In any order, with any overlap or duplication, the message completes if and only if the fragments cover it, and then equals its single-fragment form byte for byte |
| `DtlsReceiver.Receiver.GetIncomingMessage` | ComicApp/Pods/BoringSSL-GRPC/ssl/d1_both.cc:265-295 | The slot for a message: new, matching, or refused when its slot, type or length belongs to another |
| `DtlsReceiver.Receiver.OpenFragment` | ComicApp/Pods/BoringSSL-GRPC/ssl/d1_both.cc:352-403 | One fragment: refused, ignored, or added to its message, as the transition function says |
| `DtlsReceiver.Receiver.Open` | ComicApp/Pods/BoringSSL-GRPC/ssl/d1_both.cc:297-406 | A whole record, as the transition function has it; DtlsRecords says what that is for each content type and fragment |
| `DtlsRecords.OtherRecords` | ComicApp/Pods/BoringSSL-GRPC/ssl/d1_both.cc:303-345 | Application data is an error before encryption and dropped after; a ChangeCipherSpec is noted before encryption if it is the byte 1, and an error otherwise; other types are errors; only a noted ChangeCipherSpec changes anything |
| `DtlsRecords.RecordCut` | ComicApp/Pods/BoringSSL-GRPC/ssl/d1_both.cc:347-406 | A handshake record is cut into fragments that are taken in turn until one is refused; one cut short is a decode error |
| `DtlsRecords.FragmentAlerts` | ComicApp/Pods/BoringSSL-GRPC/ssl/d1_both.cc:360-391 | Which fragments are refused with which alert, exactly; what is refused leaves nothing behind |
| `DtlsRecords.FragmentTaken` | ComicApp/Pods/BoringSSL-GRPC/ssl/d1_both.cc:375-403 | Any other fragment is ignored outside the window and for a complete message, and is otherwise written over what its own message held, and nowhere else |
| `DtlsRecords.CcsExactly` | ComicApp/Pods/BoringSSL-GRPC/ssl/d1_both.cc:321-338 | Over every run: a ChangeCipherSpec can be taken if and only if one has come before encryption since the last was taken |
| `DtlsRecords.EpochExactly` | ComicApp/Pods/BoringSSL-GRPC/ssl/d1_both.cc:440-457 | The read epoch goes up exactly if no ChangeCipherSpec is waiting and no message but the current one has begun to arrive |
| `DtlsReceiver.Receiver.OpenChangeCipherSpec` | ComicApp/Pods/BoringSSL-GRPC/ssl/d1_both.cc:475-490 | Succeeds exactly if a ChangeCipherSpec is waiting or this record is one, and takes it; otherwise the record is processed all the same |
| `DtlsReceiver.Receiver.GetMessage` | ComicApp/Pods/BoringSSL-GRPC/ssl/d1_both.cc:408-424 | The current message exactly when it is complete |
| `DtlsReceiver.Receiver.NextMessage` | ComicApp/Pods/BoringSSL-GRPC/ssl/d1_both.cc:426-438 | Frees the current slot and moves the window by one |
| `DtlsReceiver.Receiver.HasUnprocessed` | ComicApp/Pods/BoringSSL-GRPC/ssl/d1_both.cc:440-457 | True if and only if anything but the current message is left over |
| `DtlsReceiver.Receiver.TakeChangeCipherSpec` | ComicApp/Pods/BoringSSL-GRPC/ssl/d1_both.cc:475-490 | A ChangeCipherSpec is taken once |
| `DtlsReceiver.AlwaysSound` | ComicApp/Pods/BoringSSL-GRPC/ssl/d1_both.cc:265-457 | Whatever arrives: each slot i holds only a message of the window with sequence number i modulo 7, messages are delivered once each in order, and none was assembled under two read epochs |
| `DtlsNetwork.DeliveredIsPrefix` | ComicApp/Pods/BoringSSL-GRPC/ssl/d1_both.cc:265-438 | With fragments of the sender only, lost, duplicated, reordered or cut again for another MTU, what the receiver has delivered is always byte for byte a prefix of what was queued, each message once and in order |
| `DtlsNetwork.HonestFragmentRefused` | ComicApp/Pods/BoringSSL-GRPC/ssl/d1_both.cc:381-382 | A genuine fragment is refused if and only if it is too long, of another message while the encrypted epoch waits for one, or of the one message just past the ring that the filter lets through |
| `DtlsNetwork.JustPastTheRing` | ComicApp/Pods/BoringSSL-GRPC/ssl/d1_both.cc:265-268 | A reachable state in which a genuine fragment of message read_seq + 7 is refused |
| `DtlsNetwork.FragmentsKept` | ComicApp/Pods/BoringSSL-GRPC/ssl/d1_both.cc:345-406 | In whatever order genuine fragments of the messages of the window arrive, the receiver holds exactly the offsets it had and those they carried |
| `DtlsNetwork.ArrivesIffCovered` | ComicApp/Pods/BoringSSL-GRPC/ssl/d1_both.cc:345-424 | The current message becomes readable if and only if the fragments that arrived cover it, and then reads as it was sent |
| `DtlsNetwork.FlightArrives` | ComicApp/Pods/BoringSSL-GRPC/ssl/d1_both.cc:345-424 | When all records of one whole writing of a flight have arrived, in any order, each of its messages in the window is complete and reads as it was queued |
| `DtlsNetwork.ReadsInOrder` | ComicApp/Pods/BoringSSL-GRPC/ssl/d1_both.cc:408-438 | Complete messages of the window are delivered one after the other |
| `DtlsNetwork.FlightDelivered` | ComicApp/Pods/BoringSSL-GRPC/ssl/d1_both.cc:345-438 | A flight that is written without a break and arrives is delivered as it was queued, in order |
| `DtlsNetwork.GenuineIsAuthentic` | ComicApp/Pods/BoringSSL-GRPC/ssl/d1_both.cc:644-734 | All a sender writes is what the network theorem assumes of the network |
| `DtlsSender.Sender.FinishMessage` | ComicApp/Pods/BoringSSL-GRPC/ssl/d1_both.cc:511-537 | The message with its header as one fragment, or an error when its length has more than 24 bits |
| `DtlsSender.Sender.ClearOutgoing` | ComicApp/Pods/BoringSSL-GRPC/ssl/d1_both.cc:500-509 | The flight is empty and the position at its start |
| `DtlsSender.Sender.AddOutgoing` | ComicApp/Pods/BoringSSL-GRPC/ssl/d1_both.cc:555-594 | A finished flight is dropped first; at most seven messages and a 32-bit length, else nothing changes |
| `DtlsSender.Sender.UpdateMtu` | ComicApp/Pods/BoringSSL-GRPC/ssl/d1_both.cc:615-632 | A usable MTU is kept; otherwise it becomes the one the transport reports, from 228 to 2^30, or 1472 |
| `DtlsSender.Sender.SealNextMessage` | ComicApp/Pods/BoringSSL-GRPC/ssl/d1_both.cc:644-734 | Seals what the transition function says of the flight, the room and the cipher's answer |
| `DtlsSender.Sender.SealOneNext` | ComicApp/Pods/BoringSSL-GRPC/ssl/d1_both.cc:644-734 | That is the next slice of the message at the position, genuine and within the room left, which a partial one fills; no progress if and only if not even one byte fits |
| `DtlsSender.Sender.SealOneFails` | ComicApp/Pods/BoringSSL-GRPC/ssl/d1_both.cc:644-734 | Sealing fails exactly without a cipher for the epoch, or when the cipher fails or its prefix leaves too little room |
| `DtlsSender.Sender.SealNextPacket` | ComicApp/Pods/BoringSSL-GRPC/ssl/d1_both.cc:739-780 | A packet within the MTU that continues the flight where the last one ended; it ends inside a message or where the next item does not fit any more; too small an MTU is reported only when nothing fits an empty packet |
| `DtlsSender.Sender.SendPacket` | ComicApp/Pods/BoringSSL-GRPC/ssl/d1_both.cc:796-815 | A packet the transport takes strictly advances the position; one it refuses puts the position back; one whose sealing fails loses what it had sealed |
| `DtlsSender.Sender.SendFlight` | ComicApp/Pods/BoringSSL-GRPC/ssl/d1_both.cc:782-827 | What was written and then what was lost continue the flight to the new position; 1 means that all was written; the writing is still unbroken if and only if it was and nothing is lost |
| `DtlsSender.Sender.FlushFlight` | ComicApp/Pods/BoringSSL-GRPC/ssl/d1_both.cc:829-834 | The flight is marked complete and keeps its contents |
| `DtlsSender.Sender.Retransmit` | ComicApp/Pods/BoringSSL-GRPC/ssl/d1_both.cc:836-845 | The flight is sent again from its start, whatever happened before |
| `DtlsSender.FragmentsPartition` | ComicApp/Pods/BoringSSL-GRPC/ssl/d1_both.cc:644-834 | Across failing writes and changing MTUs the fragments written of each message are a contiguous, disjoint, in-order partition of its body up to the position |
| `DtlsSender.Sender.UnbrokenExact` | ComicApp/Pods/BoringSSL-GRPC/ssl/d1_both.cc:739-834 | The records written since the flight began continue it up to the position if and only if no packet has failed to seal after its first record |
| `DtlsSender.HalfSealedPacket` | ComicApp/Pods/BoringSSL-GRPC/ssl/d1_both.cc:739-815 | Two messages in one packet: when the second cannot be sealed the first is lost, and what is written next does not continue the flight |
| `DtlsSender.NoCatchingUp` | ComicApp/Pods/BoringSSL-GRPC/ssl/d1_both.cc:644-780 | A record sealed at a position does not bring an earlier position up to it |
| `DtlsSender.WalkForward` | ComicApp/Pods/BoringSSL-GRPC/ssl/d1_both.cc:644-780 | Records that continue the flight move (message, offset) strictly forward |
| `DtlsReceiver.Receiver.SetReadState` | ComicApp/Pods/BoringSSL-GRPC/ssl/dtls_method.cc:81-95 | The read epoch changes if and only if nothing is left over |
| `DtlsSender.Sender.SetWriteState` | ComicApp/Pods/BoringSSL-GRPC/ssl/dtls_method.cc:97-107 | The flight keeps being sealed for the epochs it was queued in: the old cipher for the old epoch, the new one for the new, and none for others |
| `HandshakeClient.RankRises` | ComicApp/Pods/BoringSSL-GRPC/ssl/handshake_client.cc:1707-1789 | Every step that succeeds or changes state raises a rank on (state, resumed?): the client's loop terminates whatever the server sends |
| `HandshakeClient.SuspendedUnchanged` | ComicApp/Pods/BoringSSL-GRPC/ssl/handshake_client.cc:1707-1789 | A step that suspends in its state has sent, consumed and hashed nothing, so entering it again repeats no effect |
| `HandshakeClient.SuspendsToWait` | ComicApp/Pods/BoringSSL-GRPC/ssl/handshake_client.cc:1707-1789 | It waits for a message that is not there, or for a callback that asked to be retried |
| `HandshakeClient.TranscriptExact` | ComicApp/Pods/BoringSSL-GRPC/ssl/handshake_client.cc:535-1705 | Each message sent or consumed in a step enters the transcript exactly once, in order |
| `HandshakeClient.HelloVerifyRequestResets` | ComicApp/Pods/BoringSSL-GRPC/ssl/handshake_client.cc:491-533 | A HelloVerifyRequest and the first ClientHello are left out of the transcript (section 4.2.6 of RFC 6347) |
| `HandshakeOrder.ClientStepOrder` | ComicApp/Pods/BoringSSL-GRPC/ssl/handshake_client.cc:1707-1789 | A step takes or sends only the message that comes next for the flags: whatever came was asked for, and what had to come came |
| `HandshakeOrder.ClientAlwaysInOrder` | ComicApp/Pods/BoringSSL-GRPC/ssl/handshake_client.cc:1707-1789 | Whoever the peer is, a client that is done has exactly the messages its flags call for in its transcript, in order, each Finished over all before it |
| `HonestClient.Step` | ComicApp/Pods/BoringSSL-GRPC/ssl/handshake_client.cc:1707-1789 | An honest client accepts the server's next message in every state and stays at the place of the script where its transcript is |
| `HandshakePath.ClientVisitsAll` | ComicApp/Pods/BoringSSL-GRPC/ssl/handshake_client.cc:1707-1789 | Whoever the peer is, a client has been in every state of its handshake before the one it is in, and left it with its application ready wherever that is asked |
| `HandshakePath.CertificateAccepted` | ComicApp/Pods/BoringSSL-GRPC/ssl/handshake_client.cc:871-889 | So with a certificate cipher none is past the verification of the server's certificate unless the application has accepted it |
| `HandshakePath.ClientAnswered` | ComicApp/Pods/BoringSSL-GRPC/ssl/handshake_client.cc:871-889 | An answer that says no ends the run where the answer counts, and one to be retried leaves the client as it was |
| `HandshakePath.ClientAnswers` | ComicApp/Pods/BoringSSL-GRPC/ssl/handshake_client.cc:871-1536 | Which states ask the application, and what each answer does there |
| `HandshakePath.ClientIgnores` | ComicApp/Pods/BoringSSL-GRPC/ssl/handshake_client.cc:535-1705 | In no other state does the answer matter, except that a ClientKeyExchange may fail |
| `HandshakePath.ClientGoesOn` | ComicApp/Pods/BoringSSL-GRPC/ssl/handshake_client.cc:1707-1789 | The next state and what is waited for: DTLS passes through the HelloVerifyRequest, false start returns early, the ChangeCipherSpec comes before the Finished, and keys change with no message left over |
| `HandshakePath.ClientRefusesExactly` | ComicApp/Pods/BoringSSL-GRPC/ssl/handshake_client.cc:535-1705 | Exactly what a client refuses in each state; what a server may leave out, it can leave out |
| `HandshakeServer.RankRises` | ComicApp/Pods/BoringSSL-GRPC/ssl/handshake_server.cc:1539-1621 | Every step that succeeds or changes state raises a rank: the server's loop terminates whatever the client sends |
| `HandshakeServer.SuspendedUnchanged` | ComicApp/Pods/BoringSSL-GRPC/ssl/handshake_server.cc:1539-1621 | A step that suspends in its state has had no effect |
| `HandshakeServer.SuspendsToWait` | ComicApp/Pods/BoringSSL-GRPC/ssl/handshake_server.cc:1539-1621 | It waits for a message that is not there, or for a callback that asked to be retried |
| `HandshakeServer.TranscriptExact` | ComicApp/Pods/BoringSSL-GRPC/ssl/handshake_server.cc:432-1537 | Each message sent or consumed in a step enters the transcript exactly once, in order |
| `HandshakeOrder.ServerStepOrder` | ComicApp/Pods/BoringSSL-GRPC/ssl/handshake_server.cc:1539-1621 | The same for a step of the server |
| `HandshakeOrder.ServerAlwaysInOrder` | ComicApp/Pods/BoringSSL-GRPC/ssl/handshake_server.cc:1539-1621 | Whoever the peer is, a server that is done has exactly the messages its flags call for in its transcript, in order, and a client certificate if it insists on one |
| `HandshakeOrder.SameStory` | ComicApp/Pods/BoringSSL-GRPC/ssl/handshake_server.cc:1539-1621 | The handshake a server completes is one that a client completes with the same flags |
| `HonestServer.Step` | ComicApp/Pods/BoringSSL-GRPC/ssl/handshake_server.cc:1539-1621 | An honest server accepts the client's next message in every state and stays in the script |
| `HandshakePath.ServerVisitsAll` | ComicApp/Pods/BoringSSL-GRPC/ssl/handshake_server.cc:1539-1621 | Whoever the peer is, a server has been in every state of its handshake before the one it is in, and left it with its application ready wherever that is asked |
| `HandshakePath.ClientCertificateAccepted` | ComicApp/Pods/BoringSSL-GRPC/ssl/handshake_server.cc:1042-1056 | So none that was sent a certificate is past its verification unless the application has accepted it |
| `HandshakePath.ServerAnswered` | ComicApp/Pods/BoringSSL-GRPC/ssl/handshake_server.cc:1042-1056 | An answer that says no ends the run where the answer counts, and one to be retried changes nothing |
| `HandshakePath.ServerAnswers` | ComicApp/Pods/BoringSSL-GRPC/ssl/handshake_server.cc:432-1537 | Which states ask the application, and what each answer does there |
| `HandshakePath.ServerIgnores` | ComicApp/Pods/BoringSSL-GRPC/ssl/handshake_server.cc:432-1537 | In no other state, and before the message has come, does the answer matter |
| `HandshakePath.ServerGoesOn` | ComicApp/Pods/BoringSSL-GRPC/ssl/handshake_server.cc:1539-1621 | The next state and what is waited for |
| `HandshakePath.ServerRefusesExactly` | ComicApp/Pods/BoringSSL-GRPC/ssl/handshake_server.cc:432-1537 | Exactly what a server refuses in each state |
| `RunHandshake.AppendsOnlyAfterFlush` | ComicApp/Pods/BoringSSL-GRPC/ssl/handshake.cc:491-628 | The machine, which appends to the flight, runs only when no part of the flight has left: what add_record_to_flight asserts of its callers |
| `RunHandshake.StepFacts` | ComicApp/Pods/BoringSSL-GRPC/ssl/handshake.cc:491-628 | A step moves towards the end of the machine, or leaves it alone and waits |
| `RunHandshake.Handshaker.Handshake` | ComicApp/Pods/BoringSSL-GRPC/ssl/handshake.cc:611-622 | The state loop terminates; ssl_hs_ok means state_done, and any other wait is progress unless a callback asked for it |
| `RunHandshake.Handshaker.Flushes` | ComicApp/Pods/BoringSSL-GRPC/ssl/handshake.cc:501-507 | Flushing takes turns of this side, is resumed where the transport stopped it, and is progress once all is out |
| `RunHandshake.Handshaker.OpenNext` | ComicApp/Pods/BoringSSL-GRPC/ssl/handshake.cc:509-544 | Reading takes at most one item, of the kind waited for |
| `RunHandshake.WrongItemEnds` | ComicApp/Pods/BoringSSL-GRPC/ssl/handshake.cc:509-544 | A ChangeCipherSpec where a message is expected, or the other way round, ends the handshake: nothing is sent any more |
| `RunHandshake.RightItem` | ComicApp/Pods/BoringSSL-GRPC/ssl/handshake.cc:509-544 | The right one is handed over and nothing else changes |
| `RunHandshake.Handshaker.ResolveWait` | ComicApp/Pods/BoringSSL-GRPC/ssl/handshake.cc:494-608 | What was waited for is resolved with progress, or the caller gets its result: -1 for a wait on the application and 1 for an early return, exactly then, and the wait is over |
| `RunHandshake.Handshaker.RunHandshake` | ComicApp/Pods/BoringSSL-GRPC/ssl/handshake.cc:491-628 | A call terminates and takes turns of its own side only; 1 without an early return means that the handshake is complete, and an error is sticky |
| `JointHandshake.HandshakeCompletes` | ComicApp/Pods/BoringSSL-GRPC/ssl/handshake.cc:491-628 | For every consistent setting of the branching flags and every fair schedule, whatever it suspends, an honest client and server both reach state_done with equal transcripts that hold one Finished of each side |
| `JointHandshake.TurnAboutIsFair` | ComicApp/Pods/BoringSSL-GRPC/ssl/handshake.cc:491-628 | Fair schedules exist |
| `JointHandshake.NeverRejected` | ComicApp/Pods/BoringSSL-GRPC/ssl/handshake.cc:491-628 | For every consistent setting of the flags and every interleaving and suspension, an honest client and server never reject each other's next message |
| `JointHandshake.NeverStuck` | ComicApp/Pods/BoringSSL-GRPC/ssl/handshake.cc:491-628 | Until both are done one of them can go on: no deadlock |
| `JointHandshake.ClientProgress` | ComicApp/Pods/BoringSSL-GRPC/ssl/handshake.cc:491-628 | No client turn undoes progress, and one that can do something with its application ready makes some |
| `JointHandshake.ServerProgress` | ComicApp/Pods/BoringSSL-GRPC/ssl/handshake.cc:491-628 | The same for the server |
| `JointHandshake.FairRunFinishes` | ComicApp/Pods/BoringSSL-GRPC/ssl/handshake.cc:491-628 | From every reachable point every fair schedule brings both sides to state_done, however often it suspends them first |
| `JointHandshake.OneFinishedEach` | ComicApp/Pods/BoringSSL-GRPC/ssl/handshake.cc:380-476 | Then the transcripts are equal and hold one Finished of each side, sent by one and checked by the other (section 7.3 of RFC 5246) |
| `JointHandshake.CallsTakeTurns` | ComicApp/Pods/BoringSSL-GRPC/ssl/handshake.cc:491-628 | The turns a call of ssl_run_handshake takes are turns of the joint run, which stays in agreement |
| `Handshake.Connection.AddMessage` | ComicApp/Pods/BoringSSL-GRPC/ssl/handshake.cc:176-184 | The message joins the flight and the transcript |
| `Handshake.Connection.HashMessage` | ComicApp/Pods/BoringSSL-GRPC/ssl/handshake.cc:215-222 | The current message enters the transcript and stays current |
| `Handshake.Connection.GetFinished` | ComicApp/Pods/BoringSSL-GRPC/ssl/handshake.cc:380-429 | Only a Finished over the transcript so far passes, and is consumed; one that does not match has been hashed before it is refused |
| `Handshake.Connection.SendFinished` | ComicApp/Pods/BoringSSL-GRPC/ssl/handshake.cc:431-476 | The Finished covers the transcript before it, and then joins it |
| `HandshakeClient.Machine.Step` | ComicApp/Pods/BoringSSL-GRPC/ssl/handshake_client.cc:1707-1789 | Whatever the state, one turn of the loop changes the object as the transition does: a success or a new state raises the rank, a suspension leaves everything alone, and each message sent or consumed enters the transcript once (HandshakePath has what the transition must be) |
| `HandshakeServer.Machine.Step` | ComicApp/Pods/BoringSSL-GRPC/ssl/handshake_server.cc:1539-1621 | The same for the server |
| `TlsMessages.ParseOfRaw` | ComicApp/Pods/BoringSSL-GRPC/ssl/s3_both.cc:399-425 | A serialized message parses back whatever follows it |
| `TlsMessages.CutOneWay` | ComicApp/Pods/BoringSSL-GRPC/ssl/s3_both.cc:167-182 | A stream of messages can be cut into messages in one way only |
| `TlsMessages.ReadsWhatWasSent` | ComicApp/Pods/BoringSSL-GRPC/ssl/s3_both.cc:399-439 | However the stream was cut into records, the messages taken are the first ones sent; the next is current if and only if all of it has come, and otherwise no more bytes are asked for than it has |
| `TlsMessages.Reader.GetMessage` | ComicApp/Pods/BoringSSL-GRPC/ssl/s3_both.cc:427-439 | The complete message at the front, if there is one |
| `TlsMessages.Reader.OpenHandshake` | ComicApp/Pods/BoringSSL-GRPC/ssl/s3_both.cc:474-560 | A record is appended if and only if it is a handshake record, no message is complete and the length announced, if it has come, is not too large |
| `TlsMessages.Reader.NextMessage` | ComicApp/Pods/BoringSSL-GRPC/ssl/s3_both.cc:562-583 | Takes exactly the current message off the stream; every message so taken came under one read key |
| `TlsMessages.Reader.SetReadState` | ComicApp/Pods/BoringSSL-GRPC/ssl/tls_method.cc:84-95 | The keys change if and only if the buffer holds nothing but the message reported, so no message crosses a change of keys |
| `WritePath.Connection.AddRecordToFlight` | ComicApp/Pods/BoringSSL-GRPC/ssl/s3_both.cc:135-165 | The record joins the end of the flight; sent bytes, write buffer and unsent flight are still all sealed records in sealing order |
| `WritePath.Connection.AddMessage` | ComicApp/Pods/BoringSSL-GRPC/ssl/s3_both.cc:184-205 | The new records' plaintexts, none over the fragment size, are the message; on failure a prefix of it |
| `WritePath.Connection.AddChangeCipherSpec` | ComicApp/Pods/BoringSSL-GRPC/ssl/s3_both.cc:207-218 | One record with one byte |
| `WritePath.Connection.AddAlert` | ComicApp/Pods/BoringSSL-GRPC/ssl/s3_both.cc:220-229 | One alert record in the flight |
| `WritePath.Connection.FlushFlight` | ComicApp/Pods/BoringSSL-GRPC/ssl/s3_both.cc:231-279 | The write buffer goes first; on success with a flight, every byte of every sealed record has been sent in sealing order; without one it succeeds and sends nothing |
| `WritePath.Connection.WriteFlight` | ComicApp/Pods/BoringSSL-GRPC/ssl/s3_both.cc:257-268 | Partial and failed writes resume where they stopped |
| `WritePath.Connection.WritePending` | ComicApp/Pods/BoringSSL-GRPC/ssl/s3_pkt.cc:202-218 | A record in progress is only continued for its own type and a caller with enough data at the same place |
| `WritePath.Connection.DoWrite` | ComicApp/Pods/BoringSSL-GRPC/ssl/s3_pkt.cc:221-289 | Unflushed handshake data goes first; one record is sealed unless one is in progress, and order is kept; when sealing fails the flight has become the write buffer |
| `WritePath.Connection.WriteAppData` | ComicApp/Pods/BoringSSL-GRPC/ssl/s3_pkt.cc:129-200 | While the caller comes back with the same data after each failure, every byte is sealed exactly once and in order, in records within the fragment size; after a closing alert nothing is |
| `WritePath.Connection.DispatchAlert` | ComicApp/Pods/BoringSSL-GRPC/ssl/s3_pkt.cc:405-423 | Success means that the alert was sealed in a record of its own, now or before, and that the write buffer is empty; otherwise it stays pending, sealed at most once. The application record in flight and its caller's retry stay as they were |
| `WritePath.Connection.SendAlert` | ComicApp/Pods/BoringSSL-GRPC/ssl/s3_pkt.cc:377-403 | At most one closing alert, of these two bytes: over any calls the alerts sealed and the one waiting are those asked for, each once and in order; it waits while a record is being written and does not disturb a caller's retry |
| `WritePath.Connection.SendFatalAlert` | ComicApp/Pods/BoringSSL-GRPC/ssl/ssl_lib.cc:1156-1168 | Called again and again it sends its alert once, and refuses while another one is pending |

## Left out

- The Swift application: screens and calls into Firebase and Realm.
- Cryptography: ciphers, hashes, signatures and key exchange answer arbitrarily; a Finished message carries the transcript it covers instead of a MAC of it.
- nanopb with pointers, callbacks, extensions, fixed-count arrays, implicit presence, null-terminated framing or without 64-bit integers.
- The bytes of nanopb's struct in memory: where the decoders write is modelled, on failing runs too, but the message itself is a value with one slot for each field or oneof; what a failed decode leaves there, the bytes behind a string's NUL and the contents of an unset oneof are not. `pb_size_t` has 32 bits.
- Widths of `size_t`: stream positions and lengths of buffers are unbounded numbers; the overflow checks of additions on them are left out.
- Varint.DecodersAgree: the 32-bit decoder's shift counter is unbounded in the model; in the source it has at least 8 bits, which decides about inputs of more than 10 bytes.
- TLS 1.3, early data, SSL 3.0, V2ClientHello, renegotiation, handoff and handback.
- What a step that fails has changed before is not part of its contract, apart from GetFinished: the machine is not used after an error.
- The contents of handshake messages besides their type and the facts that decide a branch, the checks of ServerHello extensions against the offer, and which alert a failure sends.
- Loss between the two machines of JointHandshake: their channel is reliable and in order, as the DTLS transport provides it; the server sends no HelloVerifyRequest, as in the source.
- RunHandshake.Handshaker.RunHandshake: every wait on the application is one wait, and an unfinished read or flush is retried only by the next call.
- DTLS timers: a timeout is a retransmission at any time.
- DtlsReceiver.Receiver.NextMessage: does not set `flight_has_reply`, which only the timer uses.
- ReplayWindow.Reader.SetReadState: assumes that the 16-bit epoch does not wrap; the refusal of leftover data is in DtlsReceiver.
- WriteSequence.Writer.SetWriteState: assumes that the 16-bit epoch does not wrap.
- Overlap of plaintext and ciphertext buffers, which dtls_seal_record checks.
- DtlsSender.Sender.FinishMessage: assumes fewer than 2^16 handshake messages; the body's length prefix is filled in as the builder does.
- The bytes of sealed DTLS records in DtlsSender, where a record is what was sealed and a size within the cipher's overhead; WriteSequence has them.
- DtlsSender.Sender.SetWriteState: only what the flight needs; the counters are in WriteSequence.
- Records that do not open are no events of the network runs, since they do not reach the handshake layer (ReplayWindow.Reader.OpenRecord).
- Ways to close the write side other than an alert (quiet shutdown), and the stages of SSL_shutdown, which calls SendAlert and DispatchAlert again.
- On the write path: early data, and reading while a handshake is in progress; buffer addresses are numbers, compared as the source compares pointers.
- The TLS record layer under TlsMessages: what it makes of a record is a parameter; HelloRequests after the handshake.
- Memory orders weaker than sequential consistency, which the reference counts do not use.
- Allocation failures, error queues, message callbacks and alerts other than the results named here.
