# Verified model of librtmpsvr

This project models the protocol core of librtmpsvr, an RTMP client and server library in C, and
proves properties of that model in Dafny. `dafny verify dfyconfig.toml` checks everything.

The model follows the code where code and standard differ. Two such places matter for the chunk
stream: a new message goes out under a type-3 header when its absolute timestamp equals the previous
one, while the reader adds the channel's last timestamp field once more; and continuation chunks do
not repeat the extended timestamp (RTMP 1.0, section 5.3.1.3), on which both ends agree. No
conformance with the standard is claimed.

How the parts are laid out:

- **Chunk stream.** `ChunkFormat` says what bytes a packet becomes. `ChunkSender` sends over the
  caller's own memory, building headers in place over body bytes. `ChunkReader` is the reader on
  values; `SocketBuffer` and `ChunkReaderMachine` are the same reader over a socket that delivers
  arbitrary fragments and over body blocks that are filled in place. `ChunkStream`, `ChunkRuns`,
  `ChunkExactness`, `ChunkMismatch` and `ChunkInterleaving` relate the two ends: one message, whole
  runs, exactly when timestamps and chunk sizes survive, what two different chunk sizes do, and chunks
  of several channels in any order.
- **AMF0.** `Amf0` is the codec on values, `AmfMachine` the loops over buffers. `AmfRoundTrip` and
  `AmfExactness` say what they do to each other: which trees survive, what limited room leaves of
  them, and when the decoder stays inside its buffer; `AmfWire` says what the bytes are.
  `AmfArguments`, `AmfArgumentForms` and `AmfArgumentsRoundTrip` are objects printed as arguments and
  read back.
- **FLV.** `FlvAggregate` rewrites aggregate messages, `FlvReader` hands out the stream in pieces of
  the caller's choice, `FlvStartup` says what the stream begins with, `FlvWriter` takes a stream in
  pieces, `FlvRebuild` shows that writing undoes reading.
- **H.264.** `AvcPacketiser` and `AvcReceiver` convert between start codes and length-prefixed units,
  `AvcRoundTrip` composes them, `AvcForms` covers what a packetiser need not have written.
- **Calls, queue, cipher.** `CallTable` holds outstanding calls, `PacketFifo` and `SenderLoop` the
  sender's queue and thread, `Tea` the block decryption.

Methods carry the loops and in-place updates of the code and are proved against functions; lemmas are
about those functions. `Bytes`, `Memory`, `PacketTypes`, `Sequences`, `StartCodes` and `Wrappers` are
shared helpers. A number in AMF0 is eight opaque bytes. Functions of the environment are parameters:
the fragments a socket delivers, the reading of a transaction id as an integer, the format and the
parser of a floating-point number.

## Model
| member | source | states |
|---|---|---|
| ChunkFormat.ChunksLength | jni/librtmpsvr/librtmp/rtmp.c:3345-3410 | The output for a body of `n` bytes is `n` plus one continuation header for every chunk after the first. |
| ChunkFormat.NumChunksIsCeiling | jni/librtmpsvr/librtmp/rtmp.c:3353 | The quotient the sender computes is the number of pieces the body is really cut into, for every positive chunk size. |
| ChunkFormat.ChosenTypeIs | jni/librtmpsvr/librtmp/rtmp.c:3256-3265 | Which header type goes out, in the fields of the packet and of the one before it on its channel: size and type are left out when both are the same or this was asked for, the timestamp too when it is the same as well. |
| ChunkFormat.HeaderBytesAre | jni/librtmpsvr/librtmp/rtmp.c:3274-3343 | The header byte by byte: type and channel, timestamp or difference, size and type, stream id with its low byte first, large timestamps behind. |
| ChunkFormat.HeaderLength | jni/librtmpsvr/librtmp/rtmp.c:3274-3306 | How many bytes it has, by channel, by what is left out and by the size of the timestamp field; another timestamp with the same size and type gives three bytes behind the basic header. |
| ChunkFormat.StoredHeader | jni/librtmpsvr/librtmp/rtmp.c:3441-3443 | The packet is kept with the header type that went out, all other channels stay as they were. |
| ChunkFormat.LongestHeader | jni/librtmpsvr/librtmp/rtmp.c:3250 | No header is longer than the 18 bytes of headroom, and one has exactly 18. |
| ChunkSender.RequestFits | jni/librtmpsvr/librtmp/rtmp.c:3350-3362 | The request buffer of the HTTP path has room for header and all chunks, with exactly one continuation header to spare. |
| ChunkSender.Sender.BuildHeader | jni/librtmpsvr/librtmp/rtmp.c:3274-3343 | The header is built backwards from the body: it ends where the body starts, stays within 18 bytes, is basic header, fields and extended timestamp in wire order, and nothing else in memory changes. |
| ChunkSender.Sender.NewRequest | jni/librtmpsvr/librtmp/rtmp.c:3350-3362 | A request buffer is made exactly for more than one chunk over HTTP, and it is large enough. |
| ChunkSender.Sender.SendChunk | jni/librtmpsvr/librtmp/rtmp.c:3364-3410 | One turn: header and chunk go out, the next continuation header is written only over bytes already sent, and what was sent plus what is still owed stays the same. |
| ChunkSender.Sender.SendLoop | jni/librtmpsvr/librtmp/rtmp.c:3364-3410 | The loop ends for every positive chunk size; although it overwrites the body, what leaves is the header and the original body with a type-3 header between the pieces; bytes before the first overwritten one are untouched. |
| ChunkSender.Sender.WriteChunks | jni/librtmpsvr/librtmp/rtmp.c:3350-3419 | The HTTP batch and the direct writes put the same bytes on the wire. |
| ChunkSender.Sender.SendPacket | jni/librtmpsvr/librtmp/rtmp.c:3244-3446 | A call appends the chunk format of the packet to the wire, records it as the previous packet of its channel, and refuses header types above 3 without any effect. |
| ChunkSender.Sender.SendChunkSize | jni/librtmpsvr/rtmp_stream.c:305-324 | The new chunk size is in force before its announcement is cut into chunks. |
| SocketBuffer.SockBuf.Fill | jni/librtmpsvr/librtmp/rtmp.c:3603-3646 | However the socket splits the stream, a fill of an empty or partly read buffer neither loses nor reorders bytes; it yields none exactly when the stream has ended or the buffer has no free end. |
| SocketBuffer.SockBuf.ReadN | jni/librtmpsvr/librtmp/rtmp.c:1319-1414 | All `n` bytes, in order, or 0 when the stream ends first; the rest of the stream is untouched. |
| ChunkReaderMachine.ReadBasic | jni/librtmpsvr/librtmp/rtmp.c:2939-2971 | The three basic-header forms are read from the socket buffer as the grammar says, and exactly their bytes are taken. |
| ChunkReaderMachine.ReadFields | jni/librtmpsvr/librtmp/rtmp.c:2985-3024 | The header fields, with the extended timestamp, as far as the header type has them. |
| ChunkReaderMachine.Receiver.ReadHeader | jni/librtmpsvr/librtmp/rtmp.c:2939-3038 | A header starts from the packet kept for its channel, or from the caller's; a block for the body is there whenever the body is not empty. |
| ChunkReaderMachine.Receiver.ReadBody | jni/librtmpsvr/librtmp/rtmp.c:3040-3062 | The next piece goes behind the bytes received so far; the packets of all other channels keep their contents. |
| ChunkReaderMachine.Receiver.File | jni/librtmpsvr/librtmp/rtmp.c:3064-3087 | The packet is kept for its channel; a complete one gets its absolute timestamp and its block is owned by the caller alone. |
| ChunkReaderMachine.Receiver.ReadPacket | jni/librtmpsvr/librtmp/rtmp.c:2930-3090 | One call over the socket buffer and in-place body blocks does what the value-level reader does with the bytes still to come, and fails exactly when they end first. |
| ChunkReaderMachine.Receiver.ReceiveMessage | jni/librtmpsvr/librtmp/rtmp.c:1118-1131 | Calls until a packet is complete rebuild the message that the value-level reader rebuilds. |
| ChunkReaderMachine.Receiver.Serve | jni/librtmpsvr/librtmp/rtmp.c:2732-2742 | A complete type-1 packet of at least four bytes sets the chunk size as a signed 32-bit number; nothing else changes. |
| ChunkReader.ReadChunk | jni/librtmpsvr/librtmp/rtmp.c:2930-3090 | Every chunk read consumes at least one byte. |
| ChunkReader.ReadMessage | jni/librtmpsvr/librtmp/rtmp.c:1118-1131 | The packet returned is complete, and reading stops after finitely many chunks. |
| ChunkStream.BasicHeaderParses | jni/librtmpsvr/librtmp/rtmp.c:2945-2971 | What the sender writes as basic header for channels 2 to 65599 is read back as the same header type and channel. |
| ChunkStream.HeaderParses | jni/librtmpsvr/librtmp/rtmp.c:2939-3024 | Any header the sender builds is read back field by field, and exactly its bytes are consumed. |
| ChunkStream.FieldlessChunk | jni/librtmpsvr/librtmp/rtmp.c:2973-3038 | A chunk without fields goes on with the body under way on its channel, starts a message like the last one there, or one like the caller's last packet on a channel not seen before. |
| ChunkStream.BodyRoundTrip | jni/librtmpsvr/librtmp/rtmp.c:3040-3062 | A body cut into chunks is put together again for equal chunk sizes, whatever follows it. |
| ChunkStream.MessageRoundTrip | jni/librtmpsvr/librtmp/rtmp.c:2930-3090 | One message: the reader rebuilds channel, type and body from the wire, takes the timestamp and stream id the header rules give it, leaves the following bytes alone, and both ends stay in step. |
| ChunkStream.AnnouncementKeepsSync | jni/librtmpsvr/rtmp_stream.c:305-324 | With both sizes at least 4 the announcement is the same bytes under the old and the new chunk size. |
| ChunkStream.StepRoundTrip | jni/librtmpsvr/librtmp/rtmp.c:2732-2742 | One send or chunk-size change, served by the reader, leaves both ends in step, chunk size included. |
| ChunkRuns.RunRoundTrip | jni/librtmpsvr/librtmp/rtmp.c:2930-3090 | Main result: for any sequence of sends and chunk-size changes on any channels, the reader delivers exactly the messages sent, in order, and both ends are in step afterwards. |
| ChunkRuns.ChunkSizesStaySynchronised | jni/librtmpsvr/rtmp_stream.c:1080-1088 | After each complete message of any run the reader's chunk size equals the sender's. |
| ChunkRuns.FreshConnectionIsLocked | jni/librtmpsvr/librtmp/rtmp.c:227-246 | A new connection starts in step. |
| ChunkExactness.TimestampsExactIff | jni/librtmpsvr/librtmp/rtmp.c:3262-3263 | Over a whole run every timestamp arrives as sent if and only if a type-3 header opens a message only when the last timestamp field of the channel equals the difference due. |
| ChunkExactness.NewConnectionExactIff | jni/librtmpsvr/librtmp/rtmp.c:2930-3090 | End to end from a new connection, whatever follows: the messages read from the wire are those sent, in order, with channel, type and body as sent, and all timestamps are as sent if and only if no message of the run was one that drifts. |
| ChunkExactness.SpacedArrivesExactly | jni/librtmpsvr/librtmp/rtmp.c:3262-3263 | End to end, in the messages alone: if every later message of a channel has a full header, or is not asked to go without a timestamp and has another one than the message before, all messages arrive with the timestamps they were sent with. |
| ChunkExactness.RepeatedTimestampDrifts | jni/librtmpsvr/librtmp/rtmp.c:3068-3074 | Two equal video packets at time 5 arrive with timestamps 5 and 10. |
| ChunkExactness.StreamIdOfLastLarge | jni/librtmpsvr/librtmp/rtmp.c:2980-3011 | Every message of a run is delivered with the stream id of the last message with a full header on its channel, itself included. |
| ChunkExactness.EmptyMessage | jni/librtmpsvr/librtmp/rtmp.c:2973-3038 | On a new connection a chunk without fields is an empty message by itself, at time 0. |
| ChunkExactness.AnnouncementBytes | jni/librtmpsvr/rtmp_stream.c:305-324 | The sixteen bytes that announce a size, for sizes in use of at least 4. |
| ChunkExactness.AnnouncementSyncsIff | jni/librtmpsvr/rtmp_stream.c:305-324 | After sendChunkSize(k), k positive, on a connection in step, whatever follows: the reader ends up with k if k is the size in use; for another k, and a size in use of at least 4, if and only if k is at least 4. |
| ChunkMismatch.NoLongMessage | jni/librtmpsvr/librtmp/rtmp.c:2930-3090 | Whatever channels and header types bytes are taken for, a body that still lacks as many bytes as there are, headers not counted, is not completed. |
| ChunkMismatch.MismatchIff | jni/librtmpsvr/librtmp/rtmp.c:3040-3062 | Two ends that agree on everything but the chunk size: a message no longer than the larger size, with nothing behind it, is received whole with no byte left over if and only if it is no longer than the smaller size or the sizes are equal. |
| ChunkMismatch.FirstMessageAfterReopeningIff | jni/librtmpsvr/rtmp_client.c:201-225 | RTMP_Close keeps the chunk size (rtmp.c:3540-3556), and the connect request goes out before a size is announced: a new peer receives such a request, of at most the larger of that size and 128 bytes, if and only if it is no longer than either or the size is 128. |
| ChunkMismatch.AnnouncementAloneSyncsIff | jni/librtmpsvr/rtmp_stream.c:305-324 | For any sizes, with nothing behind the announcement: the reader takes over k if and only if k is the size in use, or neither size is below 4. |
| ChunkInterleaving.HeaderIsLocal | jni/librtmpsvr/librtmp/rtmp.c:2973-3024 | A chunk's packet depends only on what its own channel has stored, once the channel began with a full header. |
| ChunkInterleaving.OthersUntouched | jni/librtmpsvr/librtmp/rtmp.c:3064-3087 | Reading a chunk changes neither the partial packet nor the timestamp of any other channel. |
| ChunkInterleaving.InterleavingIndependence | jni/librtmpsvr/librtmp/rtmp.c:2973-3087 | For any order of the chunks of several channels, each channel's deliveries and state are those of its own chunks alone. |
| ChunkInterleaving.AnyInterleaving | jni/librtmpsvr/librtmp/rtmp.c:2930-3090 | The same for the flat byte stream, without knowing where chunks begin. |
| Amf0.EncodeProp | jni/librtmpsvr/librtmp/amf.c:349-399 | Output never exceeds the room given. |
| Amf0.DecodeValue | jni/librtmpsvr/librtmp/amf.c:624-766 | A decoded value consumes at least one byte, and at most the four bytes of an array count more than there are. |
| Amf0.DecodeProps | jni/librtmpsvr/librtmp/amf.c:1035-1077 | The resynchronising loop terminates on every byte string, by remaining size and error flag, and claims at most four bytes more than there are. |
| AmfExactness.ValueRoundTripIff | jni/librtmpsvr/librtmp/amf.c:585-766 | In front of other bytes, a tree comes back whole and takes exactly its encoding if and only if no property in it is a null and every property has a non-empty name that fits its length field. |
| AmfExactness.PropsRoundTripIff | jni/librtmpsvr/librtmp/amf.c:1035-1077 | The same for a property list and its end mark, resynchronisation included. |
| AmfExactness.AnyTailRoundTripIff | jni/librtmpsvr/librtmp/amf.c:844-874 | A tree survives whatever bytes follow it if and only if it meets that condition. |
| AmfRoundTrip.ValueRoundTrip | jni/librtmpsvr/librtmp/amf.c:585-766 | The positive half of it, also when nothing follows. |
| AmfRoundTrip.PropsRoundTrip | jni/librtmpsvr/librtmp/amf.c:1035-1077 | The same for a property list and its end mark. |
| AmfRoundTrip.ValueListRoundTripIff | jni/librtmpsvr/librtmp/amf.c:1047-1053 | A nameless value list comes back whole if and only if no number in it starts with the two bytes that make it look like an end mark. |
| AmfRoundTrip.TruncationIsCut | jni/librtmpsvr/librtmp/amf.c:355-364 | For any room, output that is not refused is the complete encoding of the input with property lists cut to prefixes at any depth: a partly written property leaves no trace. |
| AmfRoundTrip.TruncatedOutputDecodes | jni/librtmpsvr/librtmp/amf.c:844-874 | Such output stays below the room given and decodes to the cut tree. |
| AmfRoundTrip.CompleteIff | jni/librtmpsvr/librtmp/amf.c:844-874 | Nothing is cut if and only if there is at least one byte more room than the encoding needs. |
| AmfRoundTrip.NullPropertyIsLost | jni/librtmpsvr/librtmp/amf.c:355-387 | An example of a tree that fails ValueRoundTripIff: a named null is written without its name, and decoding drops it. |
| AmfRoundTrip.WholeAgainIff | jni/librtmpsvr/librtmp/amf.c:844-874 | What is decoded from output for a given room is the whole object if and only if there was one byte more room than its encoding needs. |
| AmfExactness.ValueStaysInside | jni/librtmpsvr/librtmp/amf.c:681-692 | When no array marker stands among the last four bytes, a decoded value claims no more bytes than there are. |
| AmfExactness.PropsStayInside | jni/librtmpsvr/librtmp/amf.c:1035-1077 | The same for the resynchronising property loop. |
| AmfRoundTrip.ArrayMarkerOverruns | jni/librtmpsvr/librtmp/amf.c:681-692 | An example of the other case: a lone array marker is taken for five bytes. |
| AmfWire.WrittenScalars | jni/librtmpsvr/librtmp/amf.c:158-260 | The bytes of numbers, booleans, nulls, short and long strings. |
| AmfWire.WrittenProp | jni/librtmpsvr/librtmp/amf.c:355-364 | A property is its name behind two length bytes, then its value; nulls and nameless properties have no name bytes. |
| AmfWire.RoomForScalars | jni/librtmpsvr/librtmp/amf.c:158-260 | Each scalar is written exactly when it fits, a string exactly when it would fit with the longer length field. |
| AmfWire.RoomForProps | jni/librtmpsvr/librtmp/amf.c:355-387 | A property that is no null is written exactly when there is one byte more than its name and three, and its value fits behind the name. |
| AmfWire.ReadScalars | jni/librtmpsvr/librtmp/amf.c:634-722 | What the markers 0, 1 and 11 and the bytes behind them are read as. |
| AmfWire.ReadEmpty | jni/librtmpsvr/librtmp/amf.c:670-674 | The markers 5, 6 and 13 are all read as a null. |
| AmfWire.ReadStrings | jni/librtmpsvr/librtmp/amf.c:646-732 | A short or a long string is read from behind its length. |
| AmfWire.ReadRefuses | jni/librtmpsvr/librtmp/amf.c:664-765 | The markers that are refused. |
| AmfWire.ReadArray | jni/librtmpsvr/librtmp/amf.c:681-692 | An array is read as the object with its properties, whatever its count says, and takes four bytes more. |
| AmfWire.ReadProp | jni/librtmpsvr/librtmp/amf.c:600-643 | A named property is its name and the value behind it, if there are at least four bytes; a nameless one is the value. |
| AmfMachine.EncodePropInto | jni/librtmpsvr/librtmp/amf.c:349-399 | Written into a buffer, a property is the value-level encoding for the room there is; bytes outside stay as they were. |
| AmfMachine.EncodeScalarInto | jni/librtmpsvr/librtmp/amf.c:158-260 | Marker, length field and bytes of a number, boolean, string or null are written one after the other exactly when they fit, with the string's own stricter check, and are the value-level encoding. |
| AmfMachine.EncodeObjectInto | jni/librtmpsvr/librtmp/amf.c:844-874 | The same for an object: properties until one does not fit, then the end mark or a refusal. |
| AmfMachine.DecodeShortString | jni/librtmpsvr/librtmp/amf.c:646-655 | Reading its length field from the buffer, the string branch accepts exactly what the value-level decoding accepts, with the same bytes and the same size left. |
| AmfMachine.DecodeFixed | jni/librtmpsvr/librtmp/amf.c:634-645 | The same for numbers, booleans and the empty types; every other marker is refused. |
| AmfMachine.DecodeTree | jni/librtmpsvr/librtmp/amf.c:656-692 | The same for objects and arrays, where the array count is passed over even when fewer than four bytes are there. |
| AmfMachine.DecodeObjectAt | jni/librtmpsvr/librtmp/amf.c:1034-1077 | Moving over the buffer with a remaining size that can become negative, the loop with its error flag computes the value-level decoding of the bytes in the window. |
| AmfMachine.EncodeThenDecode | jni/librtmpsvr/librtmp/amf.c:844-874 | An object written into a window of a buffer and decoded from there, whatever stands behind it: a cut of the object that takes exactly the bytes written, and the whole object if and only if the window had one byte more than its encoding. |
| AmfArguments.CountAmf | jni/librtmpsvr/rtmp_stream.c:472-508 | The length budget and twice the number of texts, counted over nested objects. |
| AmfArguments.Printer.DumpAmf | jni/librtmpsvr/rtmp_stream.c:510-565 | The buffer receives " -C " and a text for each property and each closed object, in order, and argv gets the offset and length of each part. |
| AmfArguments.WithinBudget | jni/librtmpsvr/rtmp_stream.c:472-565 | dumpAMF uses exactly the argument slots countAMF predicted and at most its bytes, for every tree whose own numbers print in at most 40 characters. |
| AmfArguments.BudgetIs | jni/librtmpsvr/rtmp_stream.c:472-508 | For every tree, what countAMF counts is what dumpAMF prints and what is to spare: 40 less the length of each number, one byte for each object, and what a zero byte cuts off a name. |
| AmfArguments.AtoiReads | jni/librtmpsvr/librtmp/rtmp.c:511-523 | The integers of boolean and object arguments: decimal digits, with a sign or without, up to the first byte that is no digit. |
| AmfArgumentForms.PrintedForm | jni/librtmpsvr/rtmp_stream.c:510-565 | The text printed for a property of each type, with its letters, and the two texts around an object. |
| AmfArgumentForms.UnnamedForms | jni/librtmpsvr/librtmp/rtmp.c:507-543 | What each of the five arguments without a name adds. |
| AmfArgumentForms.NamedForms | jni/librtmpsvr/librtmp/rtmp.c:544-573 | What each of the four arguments with a name adds inside an object; other letters, and any name at depth 0, are refused. |
| AmfArgumentForms.RefusedForms | jni/librtmpsvr/librtmp/rtmp.c:500-576 | Everything else is refused. |
| AmfArguments.SlotsHoldTexts | jni/librtmpsvr/rtmp_stream.c:510-565 | Read through argv, the buffer is "-C" and the texts in turn. |
| AmfArgumentsRoundTrip.ArgParses | jni/librtmpsvr/librtmp/rtmp.c:500-576 | For a name without colon and zero byte: one printed argument is read as the property it was printed for, a number as what its text parses to, or refused exactly when a name is at top level or in front of a null. |
| AmfArgumentsRoundTrip.TextsRead | jni/librtmpsvr/librtmp/rtmp.c:578-591 | For names without colon and zero byte, from any depth and for any number format: reading the printed list extends the open object by exactly the printed properties, numbers as re-read, and returns to that depth, or is refused. |
| AmfArgumentsRoundTrip.DumpParseRoundTripIff | jni/librtmpsvr/librtmp/rtmp.c:500-591 | Printing and reading back gives the tree, at depth 0, if and only if names stand only inside objects and not on nulls, have neither a colon nor a zero byte, and each number in the tree is the one its text parses to. |
| AmfArgumentsRoundTrip.ColonNameIsCut | jni/librtmpsvr/librtmp/rtmp.c:545-550 | A property named a:b comes back as a, with another value. |
| FlvAggregate.RewriteTag | jni/librtmpsvr/librtmp/rtmp.c:4186-4247 | One turn: timestamp moved, trailing size appended or put right, and no byte outside the copied body and its spare bytes touched. |
| FlvAggregate.RewriteTags | jni/librtmpsvr/librtmp/rtmp.c:4172-4251 | The in-place loop over the copied body computes the rewritten stream, how much it grew, and what it saw. |
| FlvAggregate.AggregateOfTags | jni/librtmpsvr/librtmp/rtmp.c:4108-4130 | For a body that is a list of complete tags, the same tags come out, every timestamp moved by one difference modulo 2^32 and every trailing size equal to data size plus 11; nothing is appended. |
| FlvAggregate.LastSizeAppendedIff | jni/librtmpsvr/librtmp/rtmp.c:4204-4222 | A last tag without its trailing size is repaired like the others, by exactly the four spare bytes, if and only if it has a payload: the loop stops in front of a bare header. |
| FlvAggregate.LastTagCut | jni/librtmpsvr/librtmp/rtmp.c:4193-4213 | A last tag whose payload is cut short stays as it is, except that its timestamp moves like the others. |
| FlvAggregate.LooseEnd | jni/librtmpsvr/librtmp/rtmp.c:4186-4186 | Fewer than twelve bytes behind the last whole tag stay as they are. |
| FlvAggregate.RepairedLength | jni/librtmpsvr/librtmp/rtmp.c:4108-4130 | Moving timestamps and putting trailing sizes right changes no length. |
| FlvAggregate.SpareIgnoredIff | jni/librtmpsvr/librtmp/rtmp.c:4108-4130 | The output is the same whatever lay in the spare bytes before if and only if no trailing size is there in part. |
| FlvReader.AggregateOutput | jni/librtmpsvr/librtmp/rtmp.c:4172-4251 | An aggregate of complete tags comes out as those tags, moved together so that the first has the packet's timestamp. |
| FlvReader.UntrailedAggregateOutput | jni/librtmpsvr/librtmp/rtmp.c:4204-4222 | The same when the last tag lacks its trailing size and has a payload. |
| FlvReader.BuildTag | jni/librtmpsvr/librtmp/rtmp.c:4107-4258 | In the caller's buffer or in one of its own, a packet's tag is the same bytes, within the packet's size plus four; only an aggregate that ends within a trailing size shows what lay in the four spare bytes. |
| FlvReader.FlvSource.Overflow | jni/librtmpsvr/librtmp/rtmp.c:4107-4130 | A tag that does not fit goes to a buffer of its own; the caller gets what fits and the rest waits. |
| FlvReader.FlvSource.Read1Packet | jni/librtmpsvr/librtmp/rtmp.c:3828-4281 | Called only when nothing is left over: the next packet's tag is delivered or held back, too small packets give nothing, and the end of the stream is reported. |
| FlvReader.FlvSource.Collect | jni/librtmpsvr/librtmp/rtmp.c:4309-4353 | Start-up packets are collected behind the FLV header until a timestamp or both media kinds are known; an overflow replaces the buffer. |
| FlvReader.FlvSource.TakeLeftover | jni/librtmpsvr/librtmp/rtmp.c:4364-4385 | Leftovers are handed out first and in order. |
| FlvReader.FlvSource.Read | jni/librtmpsvr/librtmp/rtmp.c:4290-4402 | Bytes returned and bytes still to come always make up the same stream; never more than asked; nothing is returned only at the end. |
| FlvReader.Drain | jni/librtmpsvr/librtmp/rtmp.c:4290-4402 | For any sequence of buffer sizes the results put together start the one stream. |
| FlvReader.StreamExactIff | jni/librtmpsvr/librtmp/rtmp.c:4309-4340 | For every connection: some data byte makes the stream the patched header and every packet's tag in order if and only if the collecting at the start ends before the connection does (by a timestamp, both media kinds or an overflow) and all packets collected fit. If the connection ends first the stream is empty; if a packet does not fit, the header's length of bytes is missing. |
| FlvReader.EarlyEndLosesAll | jni/librtmpsvr/librtmp/rtmp.c:4315-4322 | An example of the first case: one audio packet with timestamp 0, which would make 17 bytes, and nothing is returned. |
| FlvStartup.StreamOfTags | jni/librtmpsvr/librtmp/rtmp.c:4309-4353 | For a connection that begins with audio, video and data that fit the start-up buffer: the stream is the 13 header bytes, with 4 for audio and 1 for video among the packets collected, and then every packet's bytes; it is empty if collecting never stops. |
| FlvStartup.CollectedIff | jni/librtmpsvr/librtmp/rtmp.c:4322-4350 | Collecting stops if and only if one packet that is passed on has a timestamp other than 0, or both audio and video went by. |
| FlvStartup.FirstPacketStarts | jni/librtmpsvr/librtmp/rtmp.c:4322-4350 | One audio, video or data packet with a timestamp is enough, and its kind is the header's data byte. |
| FlvStartup.OutputBytes | jni/librtmpsvr/librtmp/rtmp.c:4136-4258 | The bytes a packet becomes: tag header, body and size for audio, video and data; body and a zero for others. |
| FlvStartup.AggregateSeen | jni/librtmpsvr/librtmp/rtmp.c:4172-4265 | After an aggregate the timestamp is that of its last tag, moved like the first to the packet's, or the packet's in live mode; audio and video are noted from its tags. |
| FlvStartup.FirstFitsIff | jni/librtmpsvr/librtmp/rtmp.c:4325-4340 | When the first packet is audio, video or data with a timestamp, it fits the start-up buffer if and only if its tag and four more bytes fit behind the header in 128 KiB. |
| FlvReader.StartupKeeps | jni/librtmpsvr/librtmp/rtmp.c:4330-4340 | Once the collecting has ended: everything is there if all packets fit, otherwise exactly the header's 13 bytes are missing. |
| FlvWriter.FlvSink.Start | jni/librtmpsvr/librtmp/rtmp.c:4417-4465 | A tag header is taken apart and the body allocated, with the data-frame name in front for data tags. |
| FlvWriter.FlvSink.TakeBody | jni/librtmpsvr/librtmp/rtmp.c:4470-4488 | The body takes what it can; a full one is sent and four bytes behind it are passed over. |
| FlvWriter.FlvSink.Write | jni/librtmpsvr/librtmp/rtmp.c:4406-4491 | The loop over the caller's bytes computes what is sent, what stays under way and the number returned. |
| FlvRebuild.PieceAdvances | jni/librtmpsvr/librtmp/rtmp.c:4406-4491 | From one good cut to the next, a call takes all its bytes, sends the packets completed in between and keeps the right partial one. |
| FlvRebuild.PiecesRebuild | jni/librtmpsvr/librtmp/rtmp.c:4406-4491 | Any pieces with good cuts rebuild every tag's packet in order. |
| FlvRebuild.TagIsOutput | jni/librtmpsvr/librtmp/rtmp.c:4136-4170 | What the reader makes of a packet is a tag with that packet's type, timestamp and body. |
| FlvRebuild.RebuiltIs | jni/librtmpsvr/librtmp/rtmp.c:4417-4465 | The packet made of a tag: channel 4, a full header for data and for audio and video at time 0, and the encoded name @setDataFrame in front of data. |
| FlvRebuild.WholeTags | jni/librtmpsvr/librtmp/rtmp.c:4406-4491 | Whole tags in one call, behind an FLV header or not, become their packets, and the call returns its size. |
| FlvRebuild.WriteUndoesRead | jni/librtmpsvr/librtmp/rtmp.c:4406-4491 | The FLV file the reader makes of audio, video and data packets, written in any such pieces, becomes packets of the same type, timestamp and body in order; data packets gain exactly the encoded name. |
| FlvRebuild.ResumesIff | jni/librtmpsvr/librtmp/rtmp.c:4415-4487 | A first piece that ends within a tag leaves its packet under way if and only if the cut lies strictly inside the body. |
| AvcPacketiser.Scan | jni/librtmpsvr/rtmp_client.c:593-603 | The counting loop finds the unit before the first start code and the run of low bytes that ends with it. |
| AvcPacketiser.Client.GetSpsAndPps | jni/librtmpsvr/rtmp_client.c:133-193 | The decoder configuration for the stored parameter sets, filled into a buffer of exactly its size; nothing without both sets. |
| AvcPacketiser.Client.SendX264VideoData | jni/librtmpsvr/rtmp_client.c:540-662 | Parameter sets in front are stored, the rest is queued as one length-prefixed packet; data without a start code are refused. |
| AvcReceiver.VideoReceiver.Deliver | jni/librtmpsvr/rtmp_stream.c:1051-1069 | A unit reaches the callback behind a start code, with the packet's timestamp, its absolute flag and the key flag, in a buffer that grows when the unit is larger. |
| AvcReceiver.VideoReceiver.HandleUnits | jni/librtmpsvr/rtmp_stream.c:1032-1077 | The loop, with its count as it is, makes the callbacks of the value-level description. |
| AvcReceiver.VideoReceiver.HandleParameters | jni/librtmpsvr/rtmp_stream.c:987-1030 | Both parameter sets are taken from the sequence header and handed out, alone and behind start codes; a length that is negative as a short takes nothing and leads back to bytes already passed. |
| AvcReceiver.VideoReceiver.HandleVideoPacket | jni/librtmpsvr/rtmp_stream.c:966-1079 | All branches: raw mode, and those on type, key flag and AVC packet type. |
| AvcRoundTrip.BodyDeliveredIff | jni/librtmpsvr/rtmp_stream.c:1032-1077 | A body of any number of units becomes that many callbacks in order, although the count is two too large, if and only if every unit is one the receiver can take. |
| AvcRoundTrip.UnitFoundIff | jni/librtmpsvr/rtmp_client.c:593-603 | The scan stops at the end of a unit if and only if no start code ends inside it (two bytes of 00 or 01, then 01) and its last byte is neither 00 nor 01. |
| AvcRoundTrip.HeaderDeliveredIff | jni/librtmpsvr/rtmp_stream.c:987-1030 | The packetiser's sequence header gives back both parameter sets if and only if both lengths are below 32768, so that they are read as positive, and both sets fit the buffer. |
| AvcRoundTrip.ConfigurationRecord | jni/librtmpsvr/rtmp_client.c:133-193 | The decoder configuration record: version, profile, compatibility and level from the set, four-byte lengths, one set of each kind. |
| AvcRoundTrip.FrameRecord | jni/librtmpsvr/rtmp_client.c:605-640 | The body of a frame's packet: frame type and codec, no composition time, length and frame. |
| AvcForms.LoneSet | jni/librtmpsvr/rtmp_client.c:555-604 | A parameter set with nothing behind it is stored whole. |
| AvcForms.NoSetInFront | jni/librtmpsvr/rtmp_client.c:540-604 | Data that begin with something else leave the stored sets as they are. |
| AvcForms.BodyKinds | jni/librtmpsvr/rtmp_stream.c:983-1035 | Which bodies are read as sequence header and which as units. |
| AvcForms.SetsTaken | jni/librtmpsvr/rtmp_stream.c:987-1030 | Parameter sets of any length below 32768, also empty ones, are taken from where their lengths say; an empty one adds no start code. |
| AvcForms.NegativeLength | jni/librtmpsvr/rtmp_stream.c:996-1022 | A length that is negative as a short takes no set, and the second length is looked for in front of it. |
| AvcForms.LengthEndsUnits | jni/librtmpsvr/rtmp_stream.c:1042-1072 | A unit length of zero or of more than twenty megabytes ends the packet. |
| AvcRoundTrip.RawDelivered | jni/librtmpsvr/rtmp_stream.c:969-974 | In raw mode the body is handed on as it is. |
| AvcRoundTrip.OthersIgnored | jni/librtmpsvr/rtmp_stream.c:985-1036 | Other codecs, frame types and packet types, and bodies too short, reach no callback. |
| AvcRoundTrip.AccessUnitRoundTrip | jni/librtmpsvr/rtmp_client.c:540-662 | Parameter sets and a frame, behind start codes of either length, reach the receiver's callbacks unchanged, with the timestamp given to the packetiser. |
| CallTable.MethodCalls.Queue | jni/librtmpsvr/librtmp/rtmp.c:2305-2317 | A call is appended, and the block always has room for the entry in use. |
| CallTable.MethodCalls.Erase | jni/librtmpsvr/librtmp/rtmp.c:2285-2298 | One entry leaves and the others keep their order. |
| CallTable.MethodCalls.TakeResult | jni/librtmpsvr/librtmp/rtmp.c:2381-2400 | A result removes at most the first call with its id and returns that call's name. |
| CallTable.MethodCalls.DropByName | jni/librtmpsvr/librtmp/rtmp.c:2482-2491 | As for _onbwdone, onStatus (2521-2541) and playlist_ready (2566-2575): the first call of the name is dropped, if there is one. |
| CallTable.EveryRunKeepsInv | jni/librtmpsvr/librtmp/rtmp.c:2285-2400 | Over any run of kept and unkept invokes, results, drops and closes: every call kept is still in the table or has left it, as often as it was kept; the table is in the order of keeping; ids other than 0 are given once, in increasing order. |
| CallTable.ResultAnswersItsCall | jni/librtmpsvr/librtmp/rtmp.c:2381-2400 | After any run, a result with an id other than 0 removes a call if and only if one was kept under that id and has not left, and it removes that one; repeating the result changes nothing. |
| CallTable.UnqueuedResultIgnored | jni/librtmpsvr/librtmp/rtmp.c:1722-1730 | The result of an invoke that was sent without being kept changes nothing. |
| CallTable.IdsCount | jni/librtmpsvr/librtmp/rtmp.c:1722-1730 | The n-th invoke since the connection was last closed has the id n, whether it is kept or not. |
| CallTable.EventsDo | jni/librtmpsvr/librtmp/rtmp.c:2285-2400 | What each event does to the table after any run; a call kept has the number of its invoke. |
| CallTable.InvokeFields | jni/librtmpsvr/librtmp/rtmp.c:3421-3439 | In a body that starts with a string and a number, the name and the eight bytes of the id are found where they were written. |
| CallTable.StaysIff | jni/librtmpsvr/librtmp/rtmp.c:3364-3410 | Name and id are kept by the send loop when the body fits one chunk, or they end before the first header written over it. |
| CallTable.SendInvoke | jni/librtmpsvr/librtmp/rtmp.c:3421-3439 | Although the body was overwritten while it was sent, the call queued is the one in the original body: for a body of a string, a number and anything else, that string and that number. |
| PacketFifo.FifoAgent.Push | jni/librtmpsvr/packet_fifo.c:35-59 | The lazily headed list gains the packet, with its time, at its end. |
| PacketFifo.FifoAgent.Front | jni/librtmpsvr/packet_fifo.c:60-72 | The oldest packet, and the queue as it was. |
| PacketFifo.FifoAgent.Pop | jni/librtmpsvr/packet_fifo.c:73-94 | Exactly the oldest packet leaves, and the time at which it was queued is returned. |
| PacketFifo.FifoAgent.Clear | jni/librtmpsvr/packet_fifo.c:96-111 | The queue is empty afterwards; the packets freed are all of them, or none when only the tail was set. |
| SenderLoop.EveryRunKeepsInv | jni/librtmpsvr/rtmp_client.c:290-342 | Over every interleaving of the sender thread and producers, the invariant below holds. |
| SenderLoop.RunsFromStart | jni/librtmpsvr/rtmp_client.c:290-342 | Packets handled, in order, and packets queued are the packets pushed; what was sent is what was handled as sent; a packet was dropped if and only if it was video whose first byte is 0x27 and more than 75 packets were queued at the test; since the last reconnect, counted over all sockets opened in between, the metadata's turn came exactly once before every packet and that of the parameter sets exactly once before every video, where a turn sends them or finds none stored. |
| SenderLoop.TestDropIff | jni/librtmpsvr/rtmp_client.c:300-306 | The step itself: the packet in hand is dropped if and only if all of this holds. |
| SenderLoop.DroppedPass | jni/librtmpsvr/rtmp_client.c:294-306 | Such a packet is taken off the queue and nothing is sent. |
| SenderLoop.SentPass | jni/librtmpsvr/rtmp_client.c:294-333 | Any other packet, when the sends succeed: the metadata and parameter sets still due and stored go out, then the packet, then it is taken off. |
| SenderLoop.FailedSends | jni/librtmpsvr/rtmp_client.c:307-331 | A failed send leaves the queue and the flags as they are; after a timeout the loop goes on at once on a new socket, after any other failure it is left. |
| SenderLoop.PossibleIff | jni/librtmpsvr/rtmp_client.c:290-345 | At every point exactly the next step of the loop can follow; producers can always store and push. |
| SenderLoop.GoesOutBareIff | jni/librtmpsvr/rtmp_client.c:233-260 | A packet goes out on a socket that has not had the metadata if and only if, since the last reconnect, a send timed out (which opens a new socket, 325-328) or the metadata's turn came while there was none. A video goes out on a socket that has not had the parameter sets if and only if a send timed out after their turn, or it came while they were not both stored. |
| Tea.SumIsZeroIff | jni/librtmpsvr/librtmp/rtmp.c:3733-3747 | The running sum is zero modulo 2^32 only when no round is left. |
| Tea.Decode | jni/librtmpsvr/librtmp/rtmp.c:3733-3747 | The loop ends after exactly 6 + 52 / n rounds for every n of at least 1, and computes the description by rounds. |
| Tea.SampleDecodes | jni/librtmpsvr/librtmp/rtmp.c:3733-3747 | The last two rounds of a block of three words, computed as by XXTEA. |
| Tea.StepUndone | jni/librtmpsvr/librtmp/rtmp.c:3742-3745 | A word's update is undone by adding the same mixing term back, for blocks of at least two words. |
| Tea.EncodedUndoesDecoded | jni/librtmpsvr/librtmp/rtmp.c:3733-3747 | All rounds can be undone in reverse. |
| Tea.DecryptionIsInjective | jni/librtmpsvr/librtmp/rtmp.c:3733-3747 | Under one key, different blocks of the same size decrypt differently. |
| Bytes.DecodeEncodeInt24 | jni/librtmpsvr/librtmp/amf.c:49-56 | A 24-bit field holds its number modulo 2^24. |
| Bytes.DecodeEncodeInt32 | jni/librtmpsvr/librtmp/amf.c:58-64 | A 32-bit field holds its number modulo 2^32. |
| Bytes.DecodeEncodeInt32LE | jni/librtmpsvr/librtmp/rtmp.c:2907-2928 | A signed number survives the little-endian field. |

## Left out

- ChunkSender.Sender.SendPacket: failed or partial writes and a failed allocation are not modelled; every write takes all its bytes.
- ChunkSender.Sender.WriteChunks: the headers of the HTTP request around the batch are not part of the bytes compared.
- ChunkRuns.RunRoundTrip: the connection is not closed and opened again within a run. RTMP_Close forgets the packets of both channel tables but keeps both chunk sizes and the reader's channel timestamps; ChunkMismatch.FirstMessageAfterReopeningIff says what the kept size does to a request.
- ChunkMismatch.MismatchIff: for messages longer than both sizes, and for bytes behind the message, what the reader takes depends on the body or on those bytes, and nothing is stated.
- ChunkExactness.AnnouncementSyncsIff: for a size in use below 4 and another size announced, what the reader takes depends on the bytes that follow; ChunkMismatch.AnnouncementAloneSyncsIff covers these sizes when nothing follows.
- ChunkStream.MessageRoundTrip: channels 0 and 1, whose numbers are escapes in the basic header, are outside the sender's format; a header type that leaves out size or type is used only when the channel's previous packet has the same ones.
- SocketBuffer.SockBuf.Fill: socket errors, interrupted calls and timeouts are not modelled.
- SocketBuffer.SockBuf.ReadN: a timeout in the middle of a read, after which the bytes read so far are lost, the bandwidth report sent back while reading, and reading through HTTP are not modelled.
- ChunkReaderMachine.Receiver.ReadPacket: the raw-chunk option is left out, and nothing is said of the state after a failed read, when the connection is closed; sizes are unbounded integers, so an overflow of size and chunk size is not modelled.
- ChunkReaderMachine.Receiver.ReceiveMessage: the retry after a timeout and what the packet is then used for are left out.
- ChunkReaderMachine.Receiver.Serve: bandwidth, control and other messages served between packets do not touch the state modelled here and are left out.
- AmfRoundTrip.LongStringRoundTrip: lengths from 2^31 on, where the code's integer types differ between platforms, are left out.
- Amf0.DecodeValue: strict arrays and AMF3 values are refused; there is no encoder for them.
- AmfMachine.DecodeFixed: strict arrays and AMF3 values are refused here too.
- AmfArgumentsRoundTrip.TextsRead: names with a colon or a zero byte are excluded; DumpParseRoundTripIff covers them.
- AmfArgumentsRoundTrip.ArgParses: the same names are excluded.
- AmfExactness.ValueRoundTripIff: dates, which the encoder refuses, are not among the trees it speaks of, and strings are shorter than 2^31; with nothing behind the tree only the positive half is stated.
- AmfArgumentsRoundTrip.DumpParseRoundTripIff: the tree is filled on values, not through shared property blocks; dates, for which the printing code has no letter, are excluded.
- AmfArguments.Printer.DumpAmf: the zero byte that a print leaves behind its text is not counted; the next print overwrites it.
- FlvReader.FlvSource.Read1Packet: resume, seeking and the keyframe search are left out, and so is the error of a corrupt aggregate, which the code overwrites with the packet's size.
- FlvReader.BuildTag: reads behind aggregates shorter than eight bytes are taken as timestamp 0.
- FlvReader.FlvSource.Read: aggregates must not end in one to three bytes of a trailing size: for these, and by FlvAggregate.SpareIgnoredIff for no others, the stream depends on what the spare bytes held before.
- FlvReader.FlvSource.Overflow: the same aggregates are excluded.
- FlvReader.Drain: the same aggregates are excluded.
- FlvReader.FlvSource.Collect: the same aggregates are excluded; after an overflow at the start the code copies the tag 13 bytes too far forward; the model keeps that, and StreamExactIff says when it happens.
- FlvWriter.FlvSink.Write: calls that would read behind the caller's bytes are excluded, and so are data tags of fewer than two bytes, for which the name does not pass the string encoder's own size check; a failing send is not modelled.
- FlvRebuild.WriteUndoesRead: data packets of fewer than two bytes are excluded, see FlvWriter.FlvSink.Write; assumes that a tag does not itself start with the letters FLV.
- AvcReceiver.VideoReceiver.HandleVideoPacket: bodies for which the code would leave the packet or its buffer are excluded by the precondition.
- AvcPacketiser.Client.GetSpsAndPps: parameter sets shorter than four bytes, for which unset bytes would be copied, are excluded.
- CallTable.SendInvoke: the method name and the id must lie within the body bytes that the send loop does not overwrite.
- CallTable.ResultAnswersItsCall: results with the id 0, under which every set_playlist is kept, are outside the if-and-only-if; TakeResult says what they do.
- PacketFifo.FifoAgent.Pop: the mutex is taken for granted: each operation is one step; times are real numbers.
- SenderLoop.RunsFromStart: clearing the queue while a packet is being sent is left out. After a timeout the new socket is not followed: whether it can be opened shows only as the loop going on or being left.
- Tea.Decode: unpacking the hexadecimal text and the key is left out.
- The RTMP handshake, key exchange and digest code, which both builds compile out.
- Sockets, name lookup, proxies, TLS, HTTP tunnelling, thread start-up and logging.
- URL and option parsing other than AMF options, metadata assembly, and the branches of the server that only answer invokes.
