# Verification of the gRPC transport, the protobuf codec and the round-robin balancer

This project models three vendored parts of the device plugin service and proves what
they promise:

* **The gRPC-Go client transport** (`google.golang.org/grpc/transport`): inbound and outbound
  HTTP/2 flow control (sections 5.1.2 and 6.9 of RFC 7540), stream admission, shutdown, the
  receive buffer, and the `grpc-message` and `grpc-timeout` headers.
* **The protobuf wire codec** (`github.com/gogo/protobuf/proto`): varints, the size, encode and
  decode passes over a schema, unknown fields, required fields, and extensions kept as bytes.
* **The round-robin balancer** (`google.golang.org/grpc/balancer.go`).

## How it is built

Code that updates objects is written as classes and methods whose contracts state the whole new
state; the functions these contracts use are the reference, and lemmas prove what the source
promises about them. Concurrent code is a machine: a state, one step for each channel operation
or mutex-protected block, and lemmas about every legal sequence of steps (`Legal`, `Final`).
Channels with one slot are optional values; frames are abstract values. Automatic induction is
switched off on every lemma, so each proof is the one that is written.

| file | models |
|---|---|
| Words, Varint, DecodeBuffers, EncodeBuffers | machine words, varints, the two faces of `Buffer` |
| Messages, Encoding, Encoder, Sizer | schemas and values, the bytes and errors of enc_struct, its in-place form, the size pass |
| Skipping, Decoding, Decoder | skip and its grammar, unmarshalType as a function, its in-place form |
| Merging, RoundTrip, Codec | what merging means; round trip, merging, what decoding leaves |
| WireFormat, OldReaders | what the bytes mean to other programs, and to older ones |
| Chains, Completeness, Courses, Requirements, Silence, Reliability, Sendable | required fields: what a decode without a report is worth |
| Extensions, ExtensionCodec | the byte-string form of extensions, and its records as the codec writes them |
| Quota, InFlows, Frames | quotaPool, inFlow, sums over frames |
| Inbound, Receiver, Settling | inbound flow control as a machine of two parties, as objects, and that it never stalls |
| Outbound, Sender | any number of Write calls as a machine, and one call on its pools |
| Lifecycle, Clients | shutdown and admission as a machine, and as objects |
| RecvBuffers, Balancer, GrpcMessages, Timeouts | recvBuffer and its reader, the balancer, the header codecs |

`dafny verify dfyconfig.toml` checks everything.

## Where the code and its promises part

Each of these is proved, with the exact condition where there is one.

* A SETTINGS that shrinks the initial window adds 2^32 bytes too much to every stream, because the
  difference is taken in 32 bits (`Outbound.InStepIff`, `Outbound.ShrinkingBreaks`).
* Between releasing the mutex and closing `shutdownChan`, `Close` has a transport that is closing
  with the channel open (`Lifecycle.Lifecycle`).
* A stream closed twice raises the number of streams admitted (`Lifecycle.AdmissionIff`,
  `Lifecycle.ClosingTwiceBreaks`).
* Padding of a frame on a finished stream is given back twice, unless nothing is left to be given back
  (`InFlows.PaddingTwice`).
* A required field with a tag above 64 sent twice, and a group around a message, both hide missing
  required fields (`Silence.TrustIff`, `Silence.HidesNothingIff`, `Reliability.ReliableIff`, `Sendable.SoundIff`).
* The extension scans never end on a tag that is cut short (`Extensions.ScanEndsIff`).
* Timeouts above 2562047 hours decode to negative durations (`Timeouts.TimeoutRoundTrip`).
* An empty data item, which the transport never writes, ends a stream like EOF
  (`RecvBuffers.ReadsText`, through `StopOf`).

## Model

| member | source | states |
|---|---|---|
| Codec.MarshalUnmarshal | services/k8s-dev-plugin-service/src/github.com/gogo/protobuf/proto/decode.go:462-583 | Round trip: for every valid schema (distinct positive tags; varint, zigzag, fixed, bytes, repeated, packed, messages, groups) and every typed message that enc_struct accepts and whose unrecognized bytes are whole records (as skipAndSave leaves them), unmarshalType on the bytes gives back the same message, reads all of them and reports nothing missing |
| Codec.RoundTripIff | services/k8s-dev-plugin-service/src/github.com/gogo/protobuf/proto/encode.go:1227-1276 | The exact condition on unrecognized bytes: a message that encodes without error comes back unchanged if and only if, at every depth, they are what skipAndSave collects |
| Codec.GroupUnmarshal | services/k8s-dev-plugin-service/src/github.com/gogo/protobuf/proto/decode.go:475-483 | The same inside an enclosing group: decoding stops right behind the end-group tag, whatever follows |
| Codec.Reencode | services/k8s-dev-plugin-service/src/github.com/gogo/protobuf/proto/decode.go:317-341 | For arbitrary bytes that decode, if the result encodes then decoding the encoding gives the same struct, unknown fields included and in order |
| Codec.UnmarshalMerge | services/k8s-dev-plugin-service/src/github.com/gogo/protobuf/proto/decode.go:401-415 | Merging: reading the bytes of an accepted message into any typed struct gives the merge of the two: of scalars and bytes the last one written wins, singular structs are merged recursively, repeated fields and unrecognized bytes are appended |
| Codec.ConcatMerges | services/k8s-dev-plugin-service/src/github.com/gogo/protobuf/proto/decode.go:462-583 | The bytes of two accepted messages, one after the other, decode to the second merged into the first, with nothing missing |
| Codec.ConcatMergesGroup | services/k8s-dev-plugin-service/src/github.com/gogo/protobuf/proto/decode.go:475-483 | So do two bodies inside one group |
| Codec.DecodedMsg | services/k8s-dev-plugin-service/src/github.com/gogo/protobuf/proto/decode.go:462-583 | Whatever the input, the struct that unmarshalType fills is typed, and its unrecognized bytes are whole records at every depth |
| Codec.AppendRecord | services/k8s-dev-plugin-service/src/github.com/gogo/protobuf/proto/decode.go:317-341 | skipAndSave keeps the unrecognized bytes a sequence of canonical tag and one whole value |
| Codec.AcceptedMsg | services/k8s-dev-plugin-service/src/github.com/gogo/protobuf/proto/encode.go:1227-1276 | If enc_struct returns nil then no required field is unset and no repeated element is nil, at any depth, whatever the unrecognized bytes |
| Codec.EncodesIff | services/k8s-dev-plugin-service/src/github.com/gogo/protobuf/proto/encode.go:1227-1276 | Within a third of the size limit, enc_struct returns nil if and only if every required field is set and no repeated element is nil, at every depth |
| Codec.FinishedSize | services/k8s-dev-plugin-service/src/github.com/gogo/protobuf/proto/encode.go:1248-1269 | A message that encodes ends within maxMarshalSize, counted from where it was put in the buffer |
| RoundTrip.RoundTripMsg | services/k8s-dev-plugin-service/src/github.com/gogo/protobuf/proto/decode.go:462-583 | The bytes of a message take the loop of unmarshalType from a fresh struct to that message with no required field left to see, whatever follows them and whether or not it is a group |
| RoundTrip.TakeMore | services/k8s-dev-plugin-service/src/github.com/gogo/protobuf/proto/decode.go:462-583 | The same for a struct that already holds something: from any point of the loop the bytes of a message merge it in |
| RoundTrip.TakeFields | services/k8s-dev-plugin-service/src/github.com/gogo/protobuf/proto/decode.go:462-583 | and for the fields from any index on |
| RoundTrip.PackedOrNot | services/k8s-dev-plugin-service/src/github.com/gogo/protobuf/proto/decode.go:536-540 | A repeated numeric field reads the same from one packed value and from its elements one by one, whichever the schema declares |
| RoundTrip.WrongWire | services/k8s-dev-plugin-service/src/github.com/gogo/protobuf/proto/decode.go:535-543 | Which wire types a declared field takes: its own, packed bytes for a repeated number, a start of a group always; every other one is an error |
| RoundTrip.TakeUnknown | services/k8s-dev-plugin-service/src/github.com/gogo/protobuf/proto/decode.go:526-527 | Unrecognized records are read back one by one and kept verbatim in order |
| RoundTrip.PackedRoundTrip | services/k8s-dev-plugin-service/src/github.com/gogo/protobuf/proto/decode.go:739-760 | The elements of a packed field are read back, exactly up to their announced length |
| Encoder.EncStruct | services/k8s-dev-plugin-service/src/github.com/gogo/protobuf/proto/encode.go:1227-1276 | On a buffer updated in place: appends exactly the bytes of the message, never disturbs earlier ones, and fails exactly as specified (nil elements, size limit, required fields) |
| Encoder.EncLenStruct | services/k8s-dev-plugin-service/src/github.com/gogo/protobuf/proto/encode.go:1304-1334 | A nested message is left as its length varint and its bytes, at any depth, although its length was reserved as four bytes and patched later |
| Encoder.EncGroup | services/k8s-dev-plugin-service/src/github.com/gogo/protobuf/proto/encode.go:588-602 | A group is bracketed by its start and end tag; a final error leaves only a prefix extension |
| Encoder.EncChildren | services/k8s-dev-plugin-service/src/github.com/gogo/protobuf/proto/encode.go:961-994 | Repeated messages and groups: every element in order; a nil element stops with errRepeatedHasNil, a missing required field is remembered |
| Encoder.EncPackedField | services/k8s-dev-plugin-service/src/github.com/gogo/protobuf/proto/encode.go:745-762 | Packed fields, built in a separate buffer, are one tag, one length and the elements |
| Encoder.EncField | services/k8s-dev-plugin-service/src/github.com/gogo/protobuf/proto/encode.go:314-326 | Every field encoder by presence and kind, including the ErrNil and proto3-zero cases |
| Encoder.Marshal | services/k8s-dev-plugin-service/src/github.com/gogo/protobuf/proto/encode.go:261-285 | Buffer.Marshal: the bytes and the error of enc_struct, replaced by ErrTooLarge exactly when the buffer ends above the limit |
| EncodeBuffers.EncodeBuffer.PatchLength | services/k8s-dev-plugin-service/src/github.com/gogo/protobuf/proto/encode.go:1309-1334 | Back-patched length: whatever body was appended after four reserved bytes, the buffer ends as old contents, varint of its length, body, whether the length takes fewer, exactly or more than four bytes |
| EncodeBuffers.EncodeBuffer.ShiftRight | services/k8s-dev-plugin-service/src/github.com/gogo/protobuf/proto/encode.go:1320-1323 | A longer length moves the body right in place without losing a byte |
| EncodeBuffers.EncodeBuffer.ShiftLeft | services/k8s-dev-plugin-service/src/github.com/gogo/protobuf/proto/encode.go:1324-1327 | A shorter length moves it left in place |
| EncodeBuffers.EncodeBuffer.EncodeVarint | services/k8s-dev-plugin-service/src/github.com/gogo/protobuf/proto/encode.go:111-118 | Appends the varint; the spare capacity behind it, which the length patch relies on, is untouched |
| Sizer.Size | services/k8s-dev-plugin-service/src/github.com/gogo/protobuf/proto/encode.go:288-309 | The size pass refines the encode pass: whenever enc_struct succeeds or only misses required fields, at whatever place in a buffer, it appends exactly this many bytes |
| Sizer.SizeStruct | services/k8s-dev-plugin-service/src/github.com/gogo/protobuf/proto/encode.go:1278-1299 | The same for every message without nil elements, through messages, groups, packed and repeated fields |
| Sizer.SizeChildren | services/k8s-dev-plugin-service/src/github.com/gogo/protobuf/proto/encode.go:996-1064 | Sizing all tags first and then the bodies adds up to what the encoder interleaves |
| Sizer.SizePacked | services/k8s-dev-plugin-service/src/github.com/gogo/protobuf/proto/encode.go:764-780 | The sized packed field is as long as the encoded one |
| Sizer.FinishedMsg | services/k8s-dev-plugin-service/src/github.com/gogo/protobuf/proto/encode.go:1241-1246 | An encoder that finishes has met no nil element, so its size is defined |
| Varint.DecodeEncode | services/k8s-dev-plugin-service/src/github.com/gogo/protobuf/proto/decode.go:80-101 | Decoding inverts EncodeVarint for every uint64, whatever follows, in 1 to 10 bytes |
| Varint.EncodeShortest | services/k8s-dev-plugin-service/src/github.com/gogo/protobuf/proto/encode.go:111-118 | No varint the decoder accepts is shorter than the encoding of its value |
| Varint.SizeVarint | services/k8s-dev-plugin-service/src/github.com/gogo/protobuf/proto/encode.go:125-134 | sizeVarint is the length of the encoding |
| Varint.EncodeVarint | services/k8s-dev-plugin-service/src/github.com/gogo/protobuf/proto/encode.go:95-105 | The free function EncodeVarint yields the same bytes as the buffer method |
| Varint.DecodePrefix | services/k8s-dev-plugin-service/src/github.com/gogo/protobuf/proto/decode.go:63-78 | What is decoded does not depend on the bytes behind it |
| DecodeBuffers.DecodeBuffer.DecodeVarint | services/k8s-dev-plugin-service/src/github.com/gogo/protobuf/proto/decode.go:107-202 | The unrolled decoder, in wrapping 64-bit arithmetic, agrees with the reference on value, error and final index for every buffer |
| DecodeBuffers.DecodeBuffer.DecodeVarintSlow | services/k8s-dev-plugin-service/src/github.com/gogo/protobuf/proto/decode.go:80-101 | So does the loop, hence both agree with each other |
| DecodeBuffers.DecodeUnrolled | services/k8s-dev-plugin-service/src/github.com/gogo/protobuf/proto/decode.go:119-201 | Adding each byte with its top bit and taking the bit off again, ten times, decodes the varint or overflows |
| DecodeBuffers.DecodeBuffer.DecodeFixed64 | services/k8s-dev-plugin-service/src/github.com/gogo/protobuf/proto/decode.go:207-225 | Little-endian eight bytes, or an unexpected EOF with the index unmoved |
| DecodeBuffers.DecodeBuffer.DecodeFixed32 | services/k8s-dev-plugin-service/src/github.com/gogo/protobuf/proto/decode.go:230-244 | Little-endian four bytes, likewise |
| DecodeBuffers.DecodeBuffer.DecodeRawBytes | services/k8s-dev-plugin-service/src/github.com/gogo/protobuf/proto/decode.go:276-302 | Length-delimited bytes, with negative and excessive lengths refused |
| DecodeBuffers.DecodeBuffer.SkipField | services/k8s-dev-plugin-service/src/github.com/gogo/protobuf/proto/decode.go:344-378 | On arbitrary bytes skip ends, never moves the index back or past the end, and stops exactly where the reference says |
| Varint.UnzigzagZigzag64 | services/k8s-dev-plugin-service/src/github.com/gogo/protobuf/proto/decode.go:249-256 | The zigzag decoder inverts the encoder on every 64-bit word |
| Varint.UnzigzagZigzag32 | services/k8s-dev-plugin-service/src/github.com/gogo/protobuf/proto/decode.go:261-268 | The 32-bit zigzag decoder inverts the encoder on the low word |
| Messages.WordRoundTrip | services/k8s-dev-plugin-service/src/github.com/gogo/protobuf/proto/decode.go:624-631 | Every bool, int32, uint32 or 64-bit value survives its coding, sign extension and truncation, whatever follows |
| WireFormat.Int32IsInt64 | services/k8s-dev-plugin-service/src/github.com/gogo/protobuf/proto/encode.go:355-375 | An int32 is sign-extended: its bytes are those of the int64 of the same value, and read as an int64 give that value |
| WireFormat.NegativeIsLong | services/k8s-dev-plugin-service/src/github.com/gogo/protobuf/proto/encode.go:355-375 | so a negative int32 takes ten bytes |
| WireFormat.ScalarOnWire | services/k8s-dev-plugin-service/src/github.com/gogo/protobuf/proto/encode.go:105-200 | What each coding puts on the wire, in terms of the value: modulo 2^64, folded by zigzag, or as little-endian bytes |
| WireFormat.ScalarFromWire | services/k8s-dev-plugin-service/src/github.com/gogo/protobuf/proto/decode.go:600-640 | What a number on the wire means to each type: any but zero is true, an int32 or uint32 is its low 32 bits, zigzag is unfolded |
| OldReaders.MsgRecords | services/k8s-dev-plugin-service/src/github.com/gogo/protobuf/proto/decode.go:344-378 | What enc_struct writes is tags and whole values, at every depth: to a type that knows none of them it is unknown records |
| OldReaders.OldReads | services/k8s-dev-plugin-service/src/github.com/gogo/protobuf/proto/decode.go:500-527 | A program with an older type of the message reads the fields it knows, reports nothing, and keeps the bytes of all the others |
| OldReaders.NewReads | services/k8s-dev-plugin-service/src/github.com/gogo/protobuf/proto/decode.go:317-341 | and what it writes, a newer one reads as the message it began with: nothing is lost on the way through an old program |
| Skipping.SkipIsGrammar | services/k8s-dev-plugin-service/src/github.com/gogo/protobuf/proto/decode.go:344-378 | skip succeeds with n bytes if and only if those bytes are one well-formed value of that wire type, groups nested to any depth |
| Skipping.SkipItem | services/k8s-dev-plugin-service/src/github.com/gogo/protobuf/proto/decode.go:344-378 | Every well-formed value is stepped over exactly |
| Skipping.SkippedItem | services/k8s-dev-plugin-service/src/github.com/gogo/protobuf/proto/decode.go:344-378 | Whatever is stepped over parses as a value of the grammar |
| Skipping.SkipPrefix | services/k8s-dev-plugin-service/src/github.com/gogo/protobuf/proto/decode.go:344-378 | A skipped value is skipped again alone and in front of anything else |
| Decoder.UnmarshalType | services/k8s-dev-plugin-service/src/github.com/gogo/protobuf/proto/decode.go:462-583 | The in-place decoder, which swaps buffers and moves an index, computes exactly the reference decoder: struct, error and final index |
| Decoder.UnmarshalRound | services/k8s-dev-plugin-service/src/github.com/gogo/protobuf/proto/decode.go:467-567 | One round of its loop, with every branch |
| Decoder.DecMessage | services/k8s-dev-plugin-service/src/github.com/gogo/protobuf/proto/decode.go:904-933 | An embedded message is decoded in its own bytes; the outer buffer and the index behind those bytes are restored, whether or not that fails |
| Decoder.DecPackedLoop | services/k8s-dev-plugin-service/src/github.com/gogo/protobuf/proto/decode.go:739-760 | The packed loop reads while below the announced end |
| Decoder.SkipAndSave | services/k8s-dev-plugin-service/src/github.com/gogo/protobuf/proto/decode.go:317-341 | The canonical tag and the value are appended verbatim to the unrecognized bytes |
| Silence.TrustIff | services/k8s-dev-plugin-service/src/github.com/gogo/protobuf/proto/decode.go:549-581 | The exact condition, for the fields of a message or group itself: a decode that reports nothing lacks no required field, for every input, if and only if there is at most one required field or none has a tag above 64; in a message, those above 64 do no harm that are messages no input can decode into in silence |
| Silence.HidesNothingIff | services/k8s-dev-plugin-service/src/github.com/gogo/protobuf/proto/decode.go:475-483 | The exact condition below a group: every silent decode of its body is complete there, if and only if no struct field of its type reaches, through struct fields, a type with a required field |
| Silence.GroupCompleteIff | services/k8s-dev-plugin-service/src/github.com/gogo/protobuf/proto/decode.go:475-483 | Both together: silence of a group means that every required field is set at every depth, if and only if its own fields are counted right and nothing below needs one |
| Silence.GroupForgets | services/k8s-dev-plugin-service/src/github.com/gogo/protobuf/proto/decode.go:475-483 | So a message with a group that does not meet this condition, whose other required fields can be sent in silence, decodes in silence although a required field is missing inside the group |
| Silence.Fooled | services/k8s-dev-plugin-service/src/github.com/gogo/protobuf/proto/decode.go:559-565 | A required field with a tag above 64, sent as often as there are required fields, is read to the end without a report although all the other required fields are unset |
| Silence.GroupHides | services/k8s-dev-plugin-service/src/github.com/gogo/protobuf/proto/decode.go:475-483 | For any group type that reaches a required field, a body that sets every required field of the group itself, leaves one out further below and is read to its end tag without a report |
| Silence.StepKept | services/k8s-dev-plugin-service/src/github.com/gogo/protobuf/proto/decode.go:549-566 | Every round of unmarshalType keeps the counter right for every input, in messages until something was reported, in groups always |
| Silence.LoopKept | services/k8s-dev-plugin-service/src/github.com/gogo/protobuf/proto/decode.go:549-581 | So a decode that ends without a report lacks no required field of its own, into whatever struct |
| Reliability.ReliableIff | services/k8s-dev-plugin-service/src/github.com/gogo/protobuf/proto/decode.go:462-583 | The exact condition for a schema: every message of every type that decodes in silence has every required field set at every depth, if and only if each type counts its required fields right and the groups of each type that can be sent in silence meet their own condition |
| Reliability.SilenceMeansComplete | services/k8s-dev-plugin-service/src/github.com/gogo/protobuf/proto/decode.go:549-581 | In such a schema a message that decodes in silence is complete, at every depth |
| Reliability.SilentFills | services/k8s-dev-plugin-service/src/github.com/gogo/protobuf/proto/decode.go:555-566 | Where the counter can be trusted, input that decodes in silence contains for every required message field a shorter one that does |
| Sendable.FillableIff | services/k8s-dev-plugin-service/src/github.com/gogo/protobuf/proto/decode.go:549-581 | Which message types some input fills in silence is computed by following the schema until nothing more is found; the lengths of that input have to fit their prefixes, which is checked on a bound |
| Sendable.SilentIsFound | services/k8s-dev-plugin-service/src/github.com/gogo/protobuf/proto/decode.go:549-581 | No input fills a type that is not found in this way, whatever its length |
| Sendable.ClosedInTime | services/k8s-dev-plugin-service/src/github.com/gogo/protobuf/proto/decode.go:549-581 | Following the schema takes no more rounds than there are types |
| Sendable.CountsIff | services/k8s-dev-plugin-service/src/github.com/gogo/protobuf/proto/decode.go:555-566 | So the exact condition for the fields of a message can be computed from the schema |
| Sendable.PlainCounts | services/k8s-dev-plugin-service/src/github.com/gogo/protobuf/proto/decode.go:555-566 | Without a required message field above tag 64 it is the one for groups: at most one required field, or no tag above 64 |
| Sendable.SoundIff | services/k8s-dev-plugin-service/src/github.com/gogo/protobuf/proto/decode.go:462-583 | and the exact condition for a whole schema can be computed too |
| Completeness.NeedsStep | services/k8s-dev-plugin-service/src/github.com/gogo/protobuf/proto/decode.go:462-583 | Reaching a required field is computed in as many steps as there are types, and is what it should be: here, or one struct field further on |
| Completeness.NothingBelow | services/k8s-dev-plugin-service/src/github.com/gogo/protobuf/proto/decode.go:462-583 | A typed struct none of whose struct fields reaches a required field is complete below |
| Courses.LoopCourse | services/k8s-dev-plugin-service/src/github.com/gogo/protobuf/proto/decode.go:462-583 | Where a decode stops, whether it fails and what it reports do not depend on the struct it merges into |
| Requirements.FillTakes | services/k8s-dev-plugin-service/src/github.com/gogo/protobuf/proto/decode.go:549-566 | Input that sends each required field once, in silence where that is possible, takes the loop through all of them |
| Requirements.FillCounts | services/k8s-dev-plugin-service/src/github.com/gogo/protobuf/proto/decode.go:549-566 | and lowers the counter by one for each |
| Extensions.ExtensionBytes.ClearExtension | services/k8s-dev-plugin-service/src/github.com/gogo/protobuf/proto/extensions.go:408-416 | On every well-formed concatenation of records it ends and leaves exactly the records of the other fields, byte for byte and in order |
| Extensions.ExtensionBytes.DeleteExtension | services/k8s-dev-plugin-service/src/github.com/gogo/protobuf/proto/extensions.go:383-401 | Removes the first record of the field at or after the offset by splicing, and returns its offset or -1 |
| Extensions.ExtensionBytes.HasExtension | services/k8s-dev-plugin-service/src/github.com/gogo/protobuf/proto/extensions.go:347-365 | True exactly when some record has the field number |
| Extensions.HasWithout | services/k8s-dev-plugin-service/src/github.com/gogo/protobuf/proto/extensions.go:408-416 | After clearing, the field is gone and every other field is present if and only if it was |
| Extensions.WithoutDropped | services/k8s-dev-plugin-service/src/github.com/gogo/protobuf/proto/extensions.go:393-396 | Dropping one record of a field leaves the same records of the others |
| Extensions.RecordNumber | services/k8s-dev-plugin-service/src/github.com/gogo/protobuf/proto/extensions.go:352-354 | The record written with a field's tag has that field's number, up to 2^29-1 |
| Extensions.WithRecord | services/k8s-dev-plugin-service/src/github.com/gogo/protobuf/proto/extensions.go:408-416 | One record more: its field is there, clearing its field takes it away, clearing another leaves it in place |
| Extensions.ExtensionBytes.SetRawExtension | services/k8s-dev-plugin-service/src/github.com/gogo/protobuf/proto/extensions.go:194-200 | The records of the field give way to the new bytes |
| ExtensionCodec.WrittenRecord | services/k8s-dev-plugin-service/src/github.com/gogo/protobuf/proto/extensions_gogo.go:149-157 | A singular field as the encoder writes it is one record of that field's number, found and sized by the scans |
| ExtensionCodec.SetField | services/k8s-dev-plugin-service/src/github.com/gogo/protobuf/proto/extensions.go:194-200 | Setting an extension to an encoded value adds exactly this field; clearing it leaves all the others |
| Extensions.AdvanceExactlyWhen | services/k8s-dev-plugin-service/src/github.com/gogo/protobuf/proto/extensions.go:352-364 | On arbitrary bytes the scan moves forward if and only if the next tag is a readable varint and no length wraps |
| Extensions.ScanEndsIff | services/k8s-dev-plugin-service/src/github.com/gogo/protobuf/proto/extensions.go:352-364 | On arbitrary bytes, but for groups and lengths that wrap: the scan ends, and then within as many turns as there are bytes, if and only if every tag it meets is readable |
| Extensions.ScanEndsInTime | services/k8s-dev-plugin-service/src/github.com/gogo/protobuf/proto/extensions.go:352-364 | The same bound for lengths that lead back: a scan, if it meets no group, ends if and only if it ends within as many turns as there are bytes |
| Extensions.TruncatedTagSticks | services/k8s-dev-plugin-service/src/github.com/gogo/protobuf/proto/extensions_gogo.go:149-157 | For one, a tag cut short leaves the offset where it is |
| Quota.PoolLaw | services/k8s-dev-plugin-service/src/google.golang.org/grpc/transport/control.go:130-151 | Over every interleaving of the two halves of add with receives, nothing is lost, the whole positive balance is on offer whenever no add is under way, and the refill never finds the slot full |
| Quota.BalanceFromSteps | services/k8s-dev-plugin-service/src/google.golang.org/grpc/transport/control.go:130-156 | What is in the pool after any run: what was there, plus what the calls of add were given, less what was received |
| Quota.AcquirePositive | services/k8s-dev-plugin-service/src/google.golang.org/grpc/transport/control.go:154-156 | A receiver is given a positive amount, namely everything started with and added less everything received before |
| Quota.SettledIsNew | services/k8s-dev-plugin-service/src/google.golang.org/grpc/transport/control.go:116-126 | A pool at rest is determined by its balance: positive and whole on offer, or a debt |
| Quota.QuotaPool.Add | services/k8s-dev-plugin-service/src/google.golang.org/grpc/transport/control.go:130-151 | The new balance is on offer if it is positive |
| Quota.QuotaPool.Acquire | services/k8s-dev-plugin-service/src/google.golang.org/grpc/transport/control.go:154-156 | Takes the whole positive balance or blocks |
| Quota.QuotaPool.constructor | services/k8s-dev-plugin-service/src/google.golang.org/grpc/transport/control.go:116-126 | A new pool is at rest with balance q |
| InFlows.InFlow.OnData | services/k8s-dev-plugin-service/src/google.golang.org/grpc/transport/control.go:173-181 | In 32-bit arithmetic; as long as the sums fit, pendingData grows by n and the frame is refused exactly when pendingData and pendingUpdate exceed the limit |
| InFlows.InFlow.OnRead | services/k8s-dev-plugin-service/src/google.golang.org/grpc/transport/control.go:185-199 | In 32-bit arithmetic; reading no more than is pending moves it out of pendingData, into pendingUpdate or a window update |
| InFlows.InFlow.ResetPendingData | services/k8s-dev-plugin-service/src/google.golang.org/grpc/transport/control.go:201-207 | Returns what was pending and leaves nothing |
| InFlows.OnReadExact | services/k8s-dev-plugin-service/src/google.golang.org/grpc/transport/control.go:185-199 | Reading no more than is pending moves it to pendingUpdate or into a window update, and less than a quarter stays back |
| InFlows.OnReadUnderflows | services/k8s-dev-plugin-service/src/google.golang.org/grpc/transport/control.go:190-191 | pendingData wraps around exactly when something but less than n was pending |
| InFlows.PaddingTwice | services/k8s-dev-plugin-service/src/google.golang.org/grpc/transport/http2_client.go:795-807 | A padded frame on a finished stream is accounted correctly exactly when it has no padding, or when the padding is the whole frame and the frame is all that is pending |
| Inbound.WindowsAddUp | services/k8s-dev-plugin-service/src/google.golang.org/grpc/transport/control.go:172-207 | Two-party flow control: in every run, whatever the peer sends, peer credit, data in flight, pendingData, pendingUpdate and window updates in flight make up the limit, for the connection and every stream in use |
| Inbound.NeverRejected | services/k8s-dev-plugin-service/src/google.golang.org/grpc/transport/control.go:173-181 | A peer that stays within its windows is never rejected, on the connection or on a stream, in any run |
| Inbound.NotStarved | services/k8s-dev-plugin-service/src/google.golang.org/grpc/transport/control.go:185-199 | Once everything is read and delivered the peer has more than limit - limit/4 credit |
| Inbound.SumLaw | services/k8s-dev-plugin-service/src/google.golang.org/grpc/transport/http2_client.go:780-844 | Between frames the connection's pendingData is the sum over its streams, in every run on a live transport |
| Inbound.NoUnderflow | services/k8s-dev-plugin-service/src/google.golang.org/grpc/transport/control.go:190-191 | In every reachable state, no onRead that any step makes takes more than is pending |
| Inbound.RunKeeps | services/k8s-dev-plugin-service/src/google.golang.org/grpc/transport/http2_client.go:766-844 | Every interleaving of reader, application, CloseStream and peer keeps all these laws |
| Inbound.DispatchKeeps | services/k8s-dev-plugin-service/src/google.golang.org/grpc/transport/http2_client.go:800-822 | The block of handleData under the stream's mutex keeps them |
| Inbound.UpdateWindowKeeps | services/k8s-dev-plugin-service/src/google.golang.org/grpc/transport/http2_client.go:766-778 | So does updateWindow |
| Inbound.ReleaseKeeps | services/k8s-dev-plugin-service/src/google.golang.org/grpc/transport/http2_client.go:547-564 | So does the release in CloseStream |
| Inbound.ReleaseSettles | services/k8s-dev-plugin-service/src/google.golang.org/grpc/transport/http2_client.go:547-564 | All pending credit of a closed stream returns to the connection |
| Inbound.StaysSettled | services/k8s-dev-plugin-service/src/google.golang.org/grpc/transport/http2_client.go:801-808 | and no later step counts data against it again |
| Settling.CanSettle | services/k8s-dev-plugin-service/src/google.golang.org/grpc/transport/http2_client.go:766-844 | No starvation: from every state that a peer within its windows can bring about, the reader, the application and the controller get to one where everything is read, released and delivered, and the peer has more than three quarters of every window, giving up no stream |
| Settling.DeliverAll | services/k8s-dev-plugin-service/src/google.golang.org/grpc/transport/http2_client.go:1125-1150 | All window updates on their way reach the peer, each where it belongs |
| Settling.FromSteps | services/k8s-dev-plugin-service/src/google.golang.org/grpc/transport/http2_client.go:766-844 | What a state holds, from the steps alone: data is taken in the order sent, and what is being read is what Read returned less what updateWindow was given |
| Receiver.ClientTransport.HandleData | services/k8s-dev-plugin-service/src/google.golang.org/grpc/transport/http2_client.go:780-844 | handleData on objects, for unpadded frames: the whole new state of connection, stream and queued updates |
| Receiver.ClientTransport.UpdateWindow | services/k8s-dev-plugin-service/src/google.golang.org/grpc/transport/http2_client.go:766-778 | updateWindow on objects: both flows are credited and both updates queued, unless the stream is done |
| Receiver.ClientTransport.CloseStream | services/k8s-dev-plugin-service/src/google.golang.org/grpc/transport/http2_client.go:515-569 | The flow-control part of CloseStream on objects |
| Receiver.HandledIsRun | services/k8s-dev-plugin-service/src/google.golang.org/grpc/transport/http2_client.go:780-844 | An uninterrupted handleData is the machine's steps in a row |
| Receiver.UpdatedWindowIsStep | services/k8s-dev-plugin-service/src/google.golang.org/grpc/transport/http2_client.go:766-778 | An uninterrupted updateWindow is one step of the machine |
| Receiver.ClosedIsStep | services/k8s-dev-plugin-service/src/google.golang.org/grpc/transport/http2_client.go:547-564 | The release of an uninterrupted CloseStream is one step of the machine |
| Outbound.StreamWindow | services/k8s-dev-plugin-service/src/google.golang.org/grpc/transport/http2_client.go:658-753 | Over all interleavings of Write calls, WINDOW_UPDATEs and SETTINGS that do not shrink the initial window while a stream is active, DATA bytes sent on a stream never exceed the window announced for it |
| Outbound.InStepIff | services/k8s-dev-plugin-service/src/google.golang.org/grpc/transport/http2_client.go:1114-1121 | The exact condition: at the end of a run no pool has more than the peer announced, if and only if every SETTINGS that shrinks the window found no active stream |
| Outbound.ConnectionWindow | services/k8s-dev-plugin-service/src/google.golang.org/grpc/transport/http2_client.go:658-753 | In every run DATA bytes never exceed 65535 plus the increments of the connection's window updates, frames are at most 16384 bytes, a Write that returned nil sent exactly its data in order, a failed one a prefix; END_STREAM only with the end of a last Write |
| Outbound.ConnectionQuotaKept | services/k8s-dev-plugin-service/src/google.golang.org/grpc/transport/http2_client.go:701-722 | While the transport is neither closing nor broken, 65535 plus all increments is what was sent, what is in the pool and what calls hold: aborted calls cost the connection nothing |
| Outbound.GrantedIsAnnounced | services/k8s-dev-plugin-service/src/google.golang.org/grpc/transport/http2_client.go:945-955 | The windows of these laws are what the peer announced, read off the steps alone: for a stream the initial window at its opening, and its updates and the changes by SETTINGS while it was open |
| Outbound.Exclusive | services/k8s-dev-plugin-service/src/google.golang.org/grpc/transport/http2_client.go:701-740 | writableChan: no two calls write at the same time, in any run, and while the transport is neither closing nor broken the token is never lost |
| Outbound.AcquireCuts | services/k8s-dev-plugin-service/src/google.golang.org/grpc/transport/http2_client.go:662-690 | The piece booked is the next of the data and as long as it can be: a full frame, all that is left, or all of one of the two amounts |
| Outbound.CallEnds | services/k8s-dev-plugin-service/src/google.golang.org/grpc/transport/http2_client.go:701-753 | A call that ends early sends nothing more |
| Outbound.SettingsExactIff | services/k8s-dev-plugin-service/src/google.golang.org/grpc/transport/http2_client.go:1114-1121 | The pools stay in step with the peer exactly when a SETTINGS does not shrink the window; otherwise each stream gets 2^32 bytes too much |
| Outbound.ShrinkingBreaks | services/k8s-dev-plugin-service/src/google.golang.org/grpc/transport/http2_client.go:1118 | A run in which a byte is sent into a window of zero |
| Outbound.RunKeeps | services/k8s-dev-plugin-service/src/google.golang.org/grpc/transport/http2_client.go:658-753 | Every step of every Write call moves quota between pool, hand, wire and loss without making any |
| Outbound.AcquireKeeps | services/k8s-dev-plugin-service/src/google.golang.org/grpc/transport/http2_client.go:662-690 | Cutting the next piece off the data and booking its quota keeps the laws |
| Outbound.AbortKeeps | services/k8s-dev-plugin-service/src/google.golang.org/grpc/transport/http2_client.go:701-724 | So does every way a call can be aborted |
| Sender.Transport.Write | services/k8s-dev-plugin-service/src/google.golang.org/grpc/transport/http2_client.go:658-753 | One call on the two pools by itself: it sends as much as the smaller balance allows, in full frames and a last one, succeeds exactly when that is everything, and takes from the connection exactly what it sent |
| Sender.WriteIsRun | services/k8s-dev-plugin-service/src/google.golang.org/grpc/transport/http2_client.go:658-753 | A Write that nobody disturbs is a run of the machine: the same bytes, verdict and balances as the method |
| Sender.Transport.Reserve | services/k8s-dev-plugin-service/src/google.golang.org/grpc/transport/http2_client.go:662-690 | The two waits: the next piece is the largest allowed and the overbooked rest goes back |
| Lifecycle.Lifecycle | services/k8s-dev-plugin-service/src/google.golang.org/grpc/transport/http2_client.go:574-652 | Over all runs: errorChan has been closed exactly when the state is unreachable or closing, no channel is closed twice, and shutdownChan exactly when closing, precisely but for the gap in Close after it releases the mutex |
| Lifecycle.DrainedIsClosed | services/k8s-dev-plugin-service/src/google.golang.org/grpc/transport/http2_client.go:521-527 | A draining transport without active streams always has a call on its way into Close, which takes it to closing |
| Lifecycle.RunLives | services/k8s-dev-plugin-service/src/google.golang.org/grpc/transport/http2_client.go:1234-1248 | closing is final and a transport that left reachable never returns |
| Lifecycle.RunAdmits | services/k8s-dev-plugin-service/src/google.golang.org/grpc/transport/http2_client.go:366-395 | Stream admission: while reachable, pool, quota held by NewStream calls, active streams and queued resets make up maxStreams across every raise or cut, but for streams closed twice |
| Lifecycle.AdmittedBelowLimit | services/k8s-dev-plugin-service/src/google.golang.org/grpc/transport/http2_client.go:366-380 | A NewStream call takes quota only below the limit last applied, when no stream was closed twice; otherwise below it plus the number of such calls |
| Lifecycle.AdmissionIff | services/k8s-dev-plugin-service/src/google.golang.org/grpc/transport/http2_client.go:366-395 | The admission law is exact on a reachable transport if and only if no CloseStream call was for a stream closed before |
| Lifecycle.ClosingTwiceBreaks | services/k8s-dev-plugin-service/src/google.golang.org/grpc/transport/http2_client.go:515-546 | A run with a limit of one and two active streams, after one stream was closed twice |
| Lifecycle.OnceIff | services/k8s-dev-plugin-service/src/google.golang.org/grpc/transport/http2_client.go:515-569 | Over every run that ends reachable, nothing but closing a stream twice adds to the law, and each time it does |
| Lifecycle.CancelRefunds | services/k8s-dev-plugin-service/src/google.golang.org/grpc/transport/http2_client.go:374-380 | A NewStream call whose context ends gives its quota back, one that ends with the transport does not |
| Clients.Client.Close | services/k8s-dev-plugin-service/src/google.golang.org/grpc/transport/http2_client.go:574-608 | Close ends in closing with both channels closed, each closed once; the new state of all fields |
| Clients.CloseIsRun | services/k8s-dev-plugin-service/src/google.golang.org/grpc/transport/http2_client.go:574-608 | An uninterrupted Close is the steps of the machine in a row |
| Clients.GracefulIsRun | services/k8s-dev-plugin-service/src/google.golang.org/grpc/transport/http2_client.go:610-652 | So is an uninterrupted GracefulClose |
| Clients.NotifyIsRun | services/k8s-dev-plugin-service/src/google.golang.org/grpc/transport/http2_client.go:1234-1248 | and notifyError |
| Clients.CloseStreamIsRun | services/k8s-dev-plugin-service/src/google.golang.org/grpc/transport/http2_client.go:515-569 | and CloseStream, with the Close it may call |
| Clients.NewStreamIsRun | services/k8s-dev-plugin-service/src/google.golang.org/grpc/transport/http2_client.go:352-395 | and the admission part of NewStream |
| Clients.SecondLookIsRun | services/k8s-dev-plugin-service/src/google.golang.org/grpc/transport/http2_client.go:381-395 | and its second half by itself, with the refund |
| Clients.SettingsIsRun | services/k8s-dev-plugin-service/src/google.golang.org/grpc/transport/http2_client.go:1102-1113 | and a new stream limit |
| Clients.Client.GracefulClose | services/k8s-dev-plugin-service/src/google.golang.org/grpc/transport/http2_client.go:610-652 | The new state for every old one; without streams it goes all the way to closing |
| Clients.Client.NotifyError | services/k8s-dev-plugin-service/src/google.golang.org/grpc/transport/http2_client.go:1234-1248 | reachable becomes unreachable, draining becomes closing, others stay |
| Clients.Client.CloseStream | services/k8s-dev-plugin-service/src/google.golang.org/grpc/transport/http2_client.go:515-569 | The last stream of a draining transport closes it; otherwise the quota comes back, at once or with the reset |
| Clients.Client.HandleReset | services/k8s-dev-plugin-service/src/google.golang.org/grpc/transport/http2_client.go:1145-1152 | A queued reset gives its quota back |
| Clients.Client.ApplyMaxStreams | services/k8s-dev-plugin-service/src/google.golang.org/grpc/transport/http2_client.go:1102-1113 | A new limit, capped at 2^31-1, moves the pool by the difference |
| Clients.Client.NewStream | services/k8s-dev-plugin-service/src/google.golang.org/grpc/transport/http2_client.go:352-395 | The admission part without interference: which error in which state; a created stream has a fresh id and there was room for it |
| Clients.Client.FirstLook | services/k8s-dev-plugin-service/src/google.golang.org/grpc/transport/http2_client.go:352-380 | The first look at the state and the two waits: one of the quota is held, or nothing has changed |
| Clients.Client.SecondLook | services/k8s-dev-plugin-service/src/google.golang.org/grpc/transport/http2_client.go:381-395 | The second look, whatever other methods have done since: a draining transport gets its quota back, a reachable one its stream |
| RecvBuffers.Fifo | services/k8s-dev-plugin-service/src/google.golang.org/grpc/transport/transport.go:89-120 | Under any interleaving of put, receive and load, items received, slot and backlog are the items put, in order, and nothing put is stuck |
| RecvBuffers.ReadsText | services/k8s-dev-plugin-service/src/google.golang.org/grpc/transport/transport.go:135-158 | The bytes Read returns, however the calls are sized, are a prefix of the text put; without cancellation an error comes after all of it and is the first one put |
| RecvBuffers.ErrorStays | services/k8s-dev-plugin-service/src/google.golang.org/grpc/transport/transport.go:135-139 | An error stays for good |
| RecvBuffers.RecvBufferReader.Read | services/k8s-dev-plugin-service/src/google.golang.org/grpc/transport/transport.go:135-158 | One call: as much of the rest as fits, the error that ends it, or blocking |
| RecvBuffers.ReadIsRun | services/k8s-dev-plugin-service/src/google.golang.org/grpc/transport/transport.go:135-158 | An undisturbed Read is a run of the machine, with the same result |
| RecvBuffers.RecvBuffer.Put | services/k8s-dev-plugin-service/src/google.golang.org/grpc/transport/transport.go:89-100 | put appends to what is waiting |
| RecvBuffers.RecvBuffer.Load | services/k8s-dev-plugin-service/src/google.golang.org/grpc/transport/transport.go:102-112 | load makes the next item available and loses none |
| Balancer.Fairness | services/k8s-dev-plugin-service/src/google.golang.org/grpc/balancer.go:287-315 | Any k picks in a row, k being the number connected, return each connected address exactly once in cyclic order from next |
| Balancer.AnswersArePicks | services/k8s-dev-plugin-service/src/google.golang.org/grpc/balancer.go:296-315 | and these picks are what Get calls return |
| Balancer.FailFastRotates | services/k8s-dev-plugin-service/src/google.golang.org/grpc/balancer.go:316-327 | With none connected, fail-fast calls go around all the addresses, one after the other |
| Balancer.NoLostWakeup | services/k8s-dev-plugin-service/src/google.golang.org/grpc/balancer.go:249-272 | In every reachable state addresses are distinct, an open waitCh means none is connected, and once one is connected or the balancer closed every blocked Get can go on |
| Balancer.WokenReturns | services/k8s-dev-plugin-service/src/google.golang.org/grpc/balancer.go:341-377 | A woken Get returns a connected address |
| Balancer.RoundRobin.Scan | services/k8s-dev-plugin-service/src/google.golang.org/grpc/balancer.go:300-314 | The scan ends within len(addrs) turns at the first connected address |
| Balancer.RoundRobin.Get | services/k8s-dev-plugin-service/src/google.golang.org/grpc/balancer.go:287-334 | Get in all its cases: closed, a connected address, fail-fast, or waiting on the one channel |
| Balancer.RoundRobin.Up | services/k8s-dev-plugin-service/src/google.golang.org/grpc/balancer.go:249-272 | Without duplicates the counting loop wakes waiters exactly when this address is the first to connect |
| Balancer.RoundRobin.Down | services/k8s-dev-plugin-service/src/google.golang.org/grpc/balancer.go:275-284 | Only that address is marked as not connected |
| Balancer.RoundRobin.WatchAddrUpdates | services/k8s-dev-plugin-service/src/google.golang.org/grpc/balancer.go:167-216 | Updates on a list without duplicates: the last one about an address decides whether it is listed, entries never deleted stay as they are and in order, new ones come last and are not connected; the new list is sent on |
| Balancer.UpdatesApplied | services/k8s-dev-plugin-service/src/google.golang.org/grpc/balancer.go:167-203 | The same, as a law about the updates |
| Balancer.ListIsFromSteps | services/k8s-dev-plugin-service/src/google.golang.org/grpc/balancer.go:167-284 | In every run, from the steps alone: which addresses are listed, and which of them are connected |
| Balancer.UpConnects | services/k8s-dev-plugin-service/src/google.golang.org/grpc/balancer.go:249-262 | Up connects the address, if it is listed, and changes no other entry |
| Balancer.DownDisconnects | services/k8s-dev-plugin-service/src/google.golang.org/grpc/balancer.go:275-284 | and down disconnects it |
| Balancer.GivesUp | services/k8s-dev-plugin-service/src/google.golang.org/grpc/balancer.go:341-377 | A call whose context ends waits no longer, and no other is affected |
| Balancer.RoundRobin.Close | services/k8s-dev-plugin-service/src/google.golang.org/grpc/balancer.go:385-400 | The channel that callers wait on is closed and no longer kept, so by NoLostWakeup every waiter can go on |
| GrpcMessages.RoundTrip | services/k8s-dev-plugin-service/src/google.golang.org/grpc/transport/http_util.go:340-400 | Decoding inverts encoding for every byte string |
| GrpcMessages.EncodeGrpcMessage | services/k8s-dev-plugin-service/src/google.golang.org/grpc/transport/http_util.go:340-352 | The encoder with its fast path equals the unchecked form |
| GrpcMessages.DecodeGrpcMessage | services/k8s-dev-plugin-service/src/google.golang.org/grpc/transport/http_util.go:369-380 | So does the decoder |
| GrpcMessages.EncodeUncheckedLoop | services/k8s-dev-plugin-service/src/google.golang.org/grpc/transport/http_util.go:354-366 | The loop over bytes writes the concatenation of their codes |
| GrpcMessages.DecodeUncheckedLoop | services/k8s-dev-plugin-service/src/google.golang.org/grpc/transport/http_util.go:382-400 | The decoding loop, with its skipping index |
| GrpcMessages.EncodeFast | services/k8s-dev-plugin-service/src/google.golang.org/grpc/transport/http_util.go:340-352 | Encoding changes nothing if and only if every byte may pass |
| GrpcMessages.ReencodeIff | services/k8s-dev-plugin-service/src/google.golang.org/grpc/transport/http_util.go:354-400 | Encoding inverts decoding exactly on what the encoder produces |
| GrpcMessages.CanonicalPrintable | services/k8s-dev-plugin-service/src/google.golang.org/grpc/transport/http_util.go:354-366 | Encoded text is printable ASCII |
| GrpcMessages.TextPasses | services/k8s-dev-plugin-service/src/google.golang.org/grpc/transport/http_util.go:340-352 | Printable ASCII from space to the closing brace is sent as it is, but for percent |
| GrpcMessages.OtherEscaped | services/k8s-dev-plugin-service/src/google.golang.org/grpc/transport/http_util.go:354-366 | Every other byte is sent as percent and its two upper-case digits |
| GrpcMessages.DigitsDecode | services/k8s-dev-plugin-service/src/google.golang.org/grpc/transport/http_util.go:382-400 | Digits of either case are decoded |
| Timeouts.TimeoutRoundTrip | services/k8s-dev-plugin-service/src/google.golang.org/grpc/transport/http_util.go:280-326 | At most eight digits and a unit; the decoded timeout is at least t and less than a unit above it exactly up to 2562047 hours, beyond which it is negative |
| Timeouts.UnitIsFinest | services/k8s-dev-plugin-service/src/google.golang.org/grpc/transport/http_util.go:288-309 | The unit sent is the finest that will do: in a finer one eight digits do not cover the timeout |
| Timeouts.PassedIsZero | services/k8s-dev-plugin-service/src/google.golang.org/grpc/transport/http_util.go:288-291 | A timeout that has passed is sent as zero |
| Timeouts.DivRoundsUp | services/k8s-dev-plugin-service/src/google.golang.org/grpc/transport/http_util.go:280-285 | div rounds up: the result times the unit covers d by less than a unit |

## Left out

- Oneofs, map fields, custom types, self-marshalling messages and the non-nullable `enc_ref_*` forms: they call generated or user code, or repeat the forms modelled.
- Extensions kept as a map, and extension records of group type in the byte-string form.
- Reflection: a schema and a value datatype stand for `reflect` and `structPointer`; fields are listed in the order enc_struct visits them, so the sorting of `prop.order` is not modelled. Floats are bit patterns, strings are bytes without a UTF-8 check.
- Codec.MarshalUnmarshal: a nil and an empty repeated field are the same value, as are a nil and an empty byte slice element.
- Decoder.DecPackedLoop: the announced end of a packed field is an unbounded sum, where Go's int would overflow for lengths within a buffer's size of 2^63.
- Decoder.UnmarshalType: the text of errors is left out, so RequiredNotSetError does not carry the field's name; after a hard error the index is not specified.
- EncodeBuffers.EncodeBuffer.Append: the growth factor of Go's append is fixed at two, which no contract depends on. Encoding and decoding use two classes for the one Go Buffer.
- Quota.PoolLaw: Go's 64-bit int is unbounded, so overflow of a balance is not modelled; the same holds for the pools in Outbound and Lifecycle, which are modelled by their balance.
- Sendable.FillableIff: needs the bound `Room` on the lengths of what it sends to be below 2^63; for schemas where that fails only one direction is known (SilentIsFound). CountsIff and SoundIff inherit it, Reliability.ReliableIff does not.
- Silence.HidesNothingIff: for schemas of fewer than 2^56 message types, so that the lengths of its counterexample fit their prefixes; the same bound is in GroupCompleteIff, GroupHides, GroupForgets, Reliability.ReliableIff and Sendable.SoundIff.
- OldReaders.OldReads: the older type differs in the outermost message; the types of its fields are the same.
- Extensions.ScanEndsIff: groups, whose sizing is left out, and lengths that wrap around; for these see ScanEndsInTime.
- Inbound.RunKeeps: unpadded frames; a peer may use ids that never were, but not an id before the client has opened it; what happens after the transport has failed is not followed.
- Receiver.ClientTransport.HandleData: the content of the data and the status put into the stream are left out, only byte counts are kept.
- Receiver.ClientTransport.CloseStream: the flow-control part; draining, quota and reset are in Clients.Client.CloseStream.
- Outbound.RunKeeps: flushing and the writer count of the framer are left out; a failed frame write counts as not sent.
- Sender.Transport.Write: runs without other goroutines, and writableChan is free.
- Lifecycle.RunLives: the goAway channels of streams, GOAWAY bookkeeping, keepalive, header encoding and the server's side are left out; stream ids do not wrap around.
- Clients.Client.FirstLook: a wait for quota when there is none ends as a cancelled context would.
- RecvBuffers.ReadsText: bytes.Reader.Read is not part of the repository and is taken to give EOF when it is drained.
- Balancer.NoLostWakeup: Start is called once, as its interface documents; called twice without a resolver it would enter the target twice. The name resolver and the receiver of addrCh are left out.
- Timeouts.TimeoutRoundTrip: strconv is not part of the repository; its decimal formatting and parsing are defined here.
- The device plugin itself, logging, tracing, stats, credentials, HPACK, the http2 framer, TLS, timers, back-off and dialling: input and output, or time.
