# porter_go_sdk: a Dafny model of the MQTT v5 codec and client dispatch

This project models the core of porter_go_sdk, a small MQTT Version 5.0
client library written in Go, and proves properties of the model:

- the packet framer and its cursor reads (`packet.go`): command validation,
  the split of the first byte into command and flags, the slice taken by the
  remaining length, and `readProperties`;
- the property decoder (`property.go`): the identifier table and the switch
  of `readProperty`, which consumes the packet's buffer in place;
- the CONNECT builder, the CONNACK parser and the reason-code table
  (`connect.go`);
- the PUBLISH builder and parser and `AppMessage` (`publish.go`);
- the client (`sdk.go`): `NewClient` and its `With*` options, `readMessage`
  with its received-message counter, one turn of the read loop that
  `connect` starts, and the check of the first byte of the server's reply
  to CONNECT.

The modules follow the Go files:

- `Wire` (wire.dfy) holds the byte-level helpers the Go code calls but
  whose source is not part of this model.
- `Framing` (packet.dfy) holds `validateType`, `newPacket` and the cursor
  reads of the `packet` class.
- `Properties` (property.dfy) holds `readProperty`, `readProperties` and the
  property encoder.
- `Connect` (connect.dfy), `Publish` (publish.dfy) and `Sdk` (sdk.dfy) hold
  the rest.

Code that changes state step by step is written as methods, each proved
equal to a specification function:

- the cursor reads, which are methods of the `Packet` class, over its
  `buffer` field;
- the property and CONNACK/PUBLISH loops, with loop invariants;
- the builders, which accumulate buffers and a length counter;
- the client's option closures, `readMessage` and the read-loop turn, which
  are methods of the `PorterClient` class.

Properties of those functions are proved as lemmas.

The CONNACK property section is specified as a function of its own bytes
(`Connect.ConnackProperties`). `readConnack` runs the same loop on the whole
buffer from the cursor. `Connect.ConnackPropertiesInPlace` proves that the
two agree.

A Go runtime panic (an index or slice past the buffer, a failed type
assertion) is the explicit outcome `Panic` of `Result`. The model never
assumes it away.

The helpers without source are defined by the standard's semantics. The
model assumes that:

- `decodeVarint`, `encodeVarInt` and `evalBytes` implement the Variable Byte
  Integer of section 1.5.5 of MQTT Version 5.0. `evalBytes(v)` is the
  length of the shortest encoding, and `decodeVarint` does not report how
  many bytes it read.
- `readUint16`, `readUint32` and `writeUint16` are the big-endian Two and
  Four Byte Integers of sections 1.5.2 and 1.5.3. They fail on a buffer
  that is too short.
- `readUTFString` and `writeUTFString` are the UTF-8 Encoded String of
  section 1.5.4: a two-byte length, then that many bytes. The reader fails
  when fewer bytes follow.
- `NewProperty` encodes its value by its type.
- `readIncrementUint16`, `readIncrementUint32`, `readStringIncrement` and
  `readIncrementByte` read like the helpers above and advance the cursor
  by what they read. `readIncrementByte` indexes the buffer directly.
- `QoSFlag` is 0x18, the Will QoS bits of the Connect Flags.
- `PasswordMethod` is an arbitrary fixed string.
- `ConnectCMD` (connect.go:77) and `PublishCMD` (publish.go:27) are 0x10
  and 0x30, the values of `connectcmd` and `publishcmd` in packet.go:11-13.

## Source behaviour the model reproduces

The model reproduces these behaviours of the code as written. A lemma
exhibits each:

- `buildConnect` counts the property bytes, the user name and the password
  twice in the remaining length, and never counts the property-length
  varint. The length it writes is never the number of bytes that follow
  (`Connect.ConnectLengthMiscount`, `Connect.ConnectDev1`).
- `readPublish` starts its property loop at the property-length varint
  itself. After a Content Type it steps past the identifier only. It reads
  the payload one byte past where the loop stopped, and only when the
  format flag is set. As a result:
  - built packets that carry a format indicator or a content type need not
    read back: the two examples panic and fail
    (`Publish.PublishFormatReadBackPanics`,
    `Publish.PublishContentTypeMisread`);
  - a PUBLISH without properties reads back with an empty payload
    (`Publish.PublishReadBackDropsPayload`).
- `newPacket` keeps `buff[evalBytes(L):L]` rather than the body, and panics
  on a zero remaining length (`Framing.NewPacketShiftedBody`,
  `Framing.NewPacketEmptyBodyPanics`).
- `readConnack` reads Session Expiry Interval as two bytes, where section
  3.2.2.3.2 defines a Four Byte Integer (`Connect.ConnackSessionExpiryHighHalf`,
  `Connect.ConnackSessionExpiryExample`).
- `readProperty` rejects the declared identifiers 18, 19 and 26 as unknown
  (`Properties.DeclaredIdentifierRejected`).
- `readProperties` stops once at most `propsLen` bytes remain, rather than
  after consuming `propsLen` bytes. It may therefore decode bytes past the
  declared block
  (`Properties.ReadPropertiesDecodesUntilDeclaredLengthRemains`,
  `Properties.ReadPropertiesSkipsFinalBlock`,
  `Properties.ReadPropertiesOvershootsBlock`).
- In the read loop, a read error is type-asserted to `net.Error` before it
  is examined (sdk.go:152). `TCPConn.Read` reports the end of the stream
  as a bare `io.EOF`, which is not a `net.Error`, so the assertion panics.
  Only an EOF wrapped inside a `net.Error` reaches the clean end at
  sdk.go:170-173. The model follows the code here, not the intent of
  "clean end on EOF" (`Sdk.StepOnReadErrors`).

## Model

| member | source | states |
|---|---|---|
| Wire.EvalBytes | packet.go:79 | `evalBytes` is 1 to 4, and for an encodable value it is the shortest length: `v < 128^n`, and `128^(n-1) <= v` when n > 1 |
| Wire.VarIntBytes | connect.go:185-187 | the encoding written for a remaining length has exactly `evalBytes(n)` bytes |
| Wire.EncodeVarInt | publish.go:71-75 | `encodeVarInt` succeeds exactly for values up to 268,435,455, writing `evalBytes(n)` bytes, and otherwise fails with the too-large error |
| Wire.DecodeVarint | packet.go:74-77 | `decodeVarint` either succeeds or reports a malformed integer; a decoded value is at most 268,435,455 and its shortest length fits in the buffer |
| Wire.VarIntRoundTrip | packet.go:74-79 | decoding the encoding of `n`, whatever follows it, gives `n` back |
| Wire.VarIntRejectsFifthByte | packet.go:74-77 | four bytes that all carry the continuation bit are malformed; a fifth byte is never read |
| Wire.ReadUint16 | packet.go:123-131 | `readUint16` succeeds exactly when two bytes are present, and otherwise fails with the short-buffer error |
| Wire.ReadUint16Inverse | packet.go:123-131 | re-encoding the value read gives back the two bytes read |
| Wire.ReadUint16Prefix | packet.go:123-131 | `readUint16` depends only on the first two bytes |
| Wire.Uint16RoundTrip | connect.go:142-145 | a keep-alive written with `writeUint16` reads back unchanged |
| Wire.ReadUint32 | packet.go:113-121 | `readUint32` succeeds exactly when four bytes are present, and otherwise fails with the short-buffer error |
| Wire.ReadUint32Inverse | packet.go:113-121 | re-encoding the value read gives back the four bytes read |
| Wire.Uint32RoundTrip | property.go:58-67 | a Four Byte Integer reads back unchanged |
| Wire.Utf | connect.go:169-173 | a UTF-8 string occupies its two-byte prefix plus its bytes |
| Wire.WriteUtf | connect.go:169-173 | `writeUTFString` succeeds exactly for strings of at most 65,535 bytes, writing 2 + length bytes, and otherwise fails with the too-long error |
| Wire.ReadUtf | packet.go:102-111 | `readUTFString` succeeds exactly when the prefix and the declared number of bytes are present; the result fits in what was read |
| Wire.ReadUtfInverse | packet.go:102-111 | the bytes consumed by a successful read are exactly the encoding of the string returned |
| Wire.UtfRoundTrip | packet.go:102-111 | a written string reads back unchanged, whatever follows it |
| Framing.ValidateType | packet.go:40-63 | accepts exactly the fifteen bytes 0x10, 0x20, ..., 0xF0 and returns them unchanged; every other byte, 0x00 included, is the invalid-command error |
| Framing.NewPacket | packet.go:65-86 | panics on an empty buffer; rejects a zero high nibble; otherwise a malformed remaining length `L` fails with the malformed-varint error, and a well-formed one succeeds when `evalBytes(L) <= L <= len(buff)` and panics on the slice when not; on success the flags are the low nibble, cmd + flags is the first byte, cmd passes `validateType`, `length == evalBytes(L)` and the buffer is `buff[evalBytes(L)..L]` |
| Framing.NewPacketRejectsBeforeLength | packet.go:69-72 | a first byte below 0x10 fails with the invalid-command error before the remaining length is looked at |
| Framing.NewPacketShiftedBody | packet.go:74-85 | with a one-byte remaining length `L`, the packet keeps the first `L - 1` bytes after the command byte (none when `L` is 1) instead of the body |
| Framing.NewPacketEmptyBodyPanics | packet.go:79-83 | a packet with remaining length 0 (a bare PINGRESP or DISCONNECT) panics on the slice `[1:0]` |
| Framing.Packet.constructor | packet.go:80-85 | the packet holds the command, flags, buffer and length of the frame |
| Framing.Packet.ReadByte | packet.go:88-90 | consumes and returns the first unread byte, or reports end of buffer and consumes nothing |
| Framing.Packet.Next | packet.go:98 | takes the next `n` bytes, or all that are left, and the unread part is what follows them |
| Framing.Packet.ReadVarint | packet.go:92-100 | returns `decodeVarint` of the unread bytes and consumes `evalBytes` of the value on success, nothing on failure |
| Framing.Packet.ReadString | packet.go:102-111 | returns `readUTFString` of the unread bytes; on success the consumed bytes are exactly the string's encoding, on failure nothing is consumed |
| Framing.Packet.ReadUint32 | packet.go:113-121 | returns `readUint32` of the unread bytes; on success exactly its four-byte encoding is consumed, on failure nothing |
| Framing.Packet.ReadUint16 | packet.go:123-131 | returns `readUint16` of the unread bytes; on success exactly its two-byte encoding is consumed, on failure nothing |
| Properties.DecodedKind | property.go:46-153 | none; characterised by `DecodedKindIsStandardMinusThree` |
| Properties.DecodedKindIsStandardMinusThree | property.go:16-153 | the switch gives every identifier the data type of Table 2-4 of MQTT Version 5.0, except that the declared identifiers 18, 19 and 26 fall to "unknown property" |
| Properties.EncodeValue | property.go:52-150 | the encoding of a value has its length prefixes plus the size `readProperty` records for it |
| Properties.EncodeProperty | property.go:46-150 | an encoded property is its key byte, then its prefixes and recorded size |
| Properties.ReadFourByte | property.go:53-67 | identifiers 2, 17, 24, 39 read a Four Byte Integer; fewer than four bytes is an error after `Next` consumed what was there |
| Properties.ReadTwoByte | property.go:68-81 | identifiers 33, 34, 35 read a Two Byte Integer; fewer than two bytes is an error after `Next` consumed what was there |
| Properties.ReadOneByte | property.go:82-100 | the eight one-byte identifiers read one byte; an empty buffer is end of buffer |
| Properties.ReadVarByte | property.go:101-114 | Subscription Identifier decodes a varint and consumes `evalBytes(value)` bytes; a malformed varint consumes nothing |
| Properties.ReadString | property.go:133-150 | the seven string identifiers consume 2 + len bytes; a short buffer consumes nothing |
| Properties.ReadPair | property.go:115-132 | User Property consumes two strings, 4 + len(k) + len(v) bytes; a short second string leaves the first consumed |
| Properties.ReadValue | property.go:52-150 | every reader never panics, never consumes more than is there, and on success consumes the value's prefixes plus its recorded size |
| Properties.PropertyStep | property.go:46-154 | `readProperty` consumes the key byte first, returns a property whose key is that byte and whose type and size follow the switch, consumes 1 + prefixes + size bytes, and fails with "unknown property" after one byte for any identifier outside the switch |
| Properties.ReadFourByteValue | property.go:53-67 | the Four Byte case consumes from the packet's buffer exactly as `ReadFourByte` says |
| Properties.ReadTwoByteValue | property.go:68-81 | the Two Byte case consumes from the packet's buffer exactly as `ReadTwoByte` says |
| Properties.ReadOneByteValue | property.go:82-100 | the Byte case consumes from the packet's buffer exactly as `ReadOneByte` says |
| Properties.ReadVarByteValue | property.go:101-114 | the Subscription Identifier case consumes exactly as `ReadVarByte` says |
| Properties.ReadPairValue | property.go:115-132 | the User Property case consumes exactly as `ReadPair` says |
| Properties.ReadStringValue | property.go:133-150 | the string case consumes exactly as `ReadString` says |
| Properties.ReadProperty | property.go:46-154 | `readProperty` returns what `PropertyStep` gives for the unread bytes and leaves the buffer advanced by the bytes it consumed |
| Properties.FourByteRoundTrip | property.go:53-67 | a Four Byte Integer reads back and consumes four bytes |
| Properties.TwoByteRoundTrip | property.go:68-81 | a Two Byte Integer reads back and consumes two bytes |
| Properties.OneByteRoundTrip | property.go:82-100 | a byte reads back and consumes one byte |
| Properties.VarByteRoundTrip | property.go:101-114 | a canonically encoded Subscription Identifier reads back and consumes `evalBytes(value)` bytes |
| Properties.StringRoundTrip | property.go:133-150 | a string reads back and consumes 2 + len bytes |
| Properties.PairRoundTrip | property.go:115-132 | a string pair reads back and consumes 4 + len(k) + len(v) bytes |
| Properties.ReadValueRoundTrip | property.go:52-150 | each reader reads back the encoding of a value of its type and consumes exactly that encoding |
| Properties.PropertyRoundTrip | property.go:46-154 | encoding a property the decoder can produce and decoding it gives the property back, consuming exactly its encoding |
| Properties.ReadValueInverse | property.go:52-150 | for every type but the varint, the bytes a reader consumed are exactly the encoding of the value it returned |
| Properties.PropertyStepInverse | property.go:46-154 | for every type but the varint, the bytes `readProperty` consumed are exactly the encoding of the property it returned |
| Properties.NonCanonicalSubscriptionId | property.go:101-114 | the two-byte encoding `80 00` of 0 is decoded but only one byte is consumed, so the `00` is left to be read as the next key |
| Properties.UnknownIdentifierFails | property.go:151-152 | any identifier outside the switch fails with "unknown property" after consuming the key byte |
| Properties.DeclaredIdentifierRejected | property.go:24-31 | a well-formed Assigned Client Identifier, Server Keep Alive or Response Information property cannot be decoded |
| Properties.ReadProperties | packet.go:133-152 | a negative capacity `max` panics at the allocation before anything is read; otherwise `readProperties` returns the list and leaves the buffer as the loop specification says, and any property error returns no list |
| Properties.DrainFrom | packet.go:144-151 | none; characterised by `DrainStep`, `DrainLeavesAtMostDeclared`, `DrainExtends`, `DrainWellFormed` and `DrainRoundTrip` |
| Properties.ReadPropertiesSpec | packet.go:133-152 | none; characterised by `ReadPropertiesAfterLength`, `ReadPropertiesDecodesUntilDeclaredLengthRemains`, `ReadPropertiesSkipsFinalBlock`, `ReadPropertiesRejectsOverlongBlock` and `ReadPropertiesOutcome` |
| Properties.DrainStep | packet.go:144-150 | a successful turn of the loop appends the property read and continues after it |
| Properties.DrainLeavesAtMostDeclared | packet.go:144-151 | on success the loop leaves at most `propsLen` bytes, and those are a suffix of the buffer |
| Properties.DrainExtends | packet.go:144-151 | the loop only appends to the list it started with |
| Properties.DrainWellFormed | packet.go:144-151 | every property the loop returns has the type and size the switch gives its key |
| Properties.DrainRoundTrip | packet.go:144-151 | a run of encoded properties followed by `propsLen` bytes is decoded in wire order, leaving exactly those bytes |
| Properties.ReadPropertiesAfterLength | packet.go:135-142 | after a length prefix `n`, a buffer with fewer than `n` bytes left fails with the invalid-length error; otherwise the loop runs with `propsLen = n` |
| Properties.ReadPropertiesDecodesUntilDeclaredLengthRemains | packet.go:133-152 | if a block is followed by exactly as many bytes as its prefix declares, its properties are returned in wire order and those bytes are left unread |
| Properties.ReadPropertiesOvershootsBlock | packet.go:144-151 | the loop runs until at most `propsLen` bytes remain: with a declared length of 2, `01 05` is decoded although only one byte follows it |
| Properties.ReadPropertiesSkipsFinalBlock | packet.go:144 | a property block that ends the buffer is not decoded: the list is empty and the block is left unread |
| Properties.ReadPropertiesRejectsOverlongBlock | packet.go:140-142 | a declared length larger than the bytes left fails with the invalid-length error |
| Properties.ReadPropertiesOutcome | packet.go:133-152 | on success every property is well formed, the unread part is a suffix of the buffer, and it holds at most the declared length |
| Properties.NewProperty | connect.go:97-104 | `NewProperty` succeeds exactly for values the wire format can carry, keeping the key and encoding the value's prefixes plus size; otherwise it reports which limit failed |
| Properties.WriteProps | connect.go:150-161 | the builders' property loop writes each key and its value in order |
| Properties.NewPropertyDecodes | publish.go:33-47 | what `NewProperty` encodes, `readProperty` decodes back when the key's switch group matches the value's type |
| Connect.ParseReasonCode | connect.go:13-58 | none; characterised by `ReasonCodeTable` |
| Connect.ReasonCodeTable | connect.go:13-58 | "Unspecified Error" is given to exactly the codes the switch does not name, 0x00 included; two different named codes never get the same text, so a description identifies its code |
| Connect.OptionalUtf | connect.go:119-133 | an absent user name or password writes nothing, a present one its prefix and bytes |
| Connect.ConnectPropBlock | connect.go:96-161 | the property block is Session Expiry Interval (0x11, four bytes) when the expiry is non-zero, then Authentication Method (0x15, a string) when there are credentials |
| Connect.ConnectPropLength | connect.go:96-161 | the property block is 5 bytes for the expiry plus 3 + len bytes for the authentication method |
| Connect.ConnectFlag | connect.go:90-137 | none; characterised by `ConnectFlagBits` |
| Connect.ConnectFlagBits | connect.go:90-137 | bit 7 of the flags is set exactly when there is a user name, bit 6 exactly when there is a password, bit 0 never; with no credentials and QoS 0 the byte is 0 |
| Connect.ConnectPacket | connect.go:60-204 | the build succeeds exactly when the client id and every credential string fit a UTF-8 prefix, and otherwise fails with the too-long error |
| Connect.CollectConnectFields | connect.go:88-134 | the first part of `buildConnect` yields the properties, the flag byte and the encoded user name and password, or the too-long error exactly when a credential string does not fit |
| Connect.BuildConnect | connect.go:60-204 | `buildConnect` returns exactly the CONNECT specified by `ConnectPacket` |
| Connect.ConnectPropertiesEncode | connect.go:96-161 | the property block is the encoding of Session Expiry Interval and Authentication Method, each a property the decoder can produce |
| Connect.ConnectPropertiesDecode | connect.go:147-167 | the client's own property loop reads those properties back, in order |
| Connect.ConnectPacketFrame | connect.go:184-203 | a CONNECT is 0x10, then the remaining length as counted, then the body; the body is `SentLength` bytes |
| Connect.VariableHeaderFields | connect.go:81-145 | the variable header reads back as "MQTT" version 5, the flags, the keep-alive, the property length and the properties, followed by the payload |
| Connect.ConnectVariableHeader | connect.go:81-197 | in a CONNECT body: protocol name and version, then the connect flags, the keep-alive, the property length and block, then the payload |
| Connect.ConnectPayload | connect.go:169-197 | the payload reads back as the client id, then the user name and then the password when present, and ends the packet |
| Connect.ConnectLengthMiscount | connect.go:81-185 | the remaining length written exceeds the bytes that follow by props + user name + password − the property varint; it is never right, and without credentials or expiry it is one short |
| Connect.ConnectDev1 | connect.go:60-204 | client "dev1", keep-alive 60, no credentials, QoS 0, no expiry builds `10 10 00 04 4D 51 54 54 05 00 00 3C 00 00 04 64 65 76 31`: 16 declared, 17 sent |
| Connect.ConnackStep | connect.go:254-305 | one turn advances the cursor within the buffer; it keeps the reason code and text; identifiers that are not kept leave the response unchanged; unknown identifiers skip one byte |
| Connect.ConnackLoop | connect.go:247-306 | the loop terminates, stops at or past `ceil`, and never changes the reason code or its text |
| Connect.ReadConnackSpec | connect.go:215-309 | an empty buffer panics; a buffer shorter than the remaining length fails; on success the code is the byte after the session-present byte and the description is its reason text, whatever the code |
| Connect.ConnackAfterLength | connect.go:226-241 | past the remaining length, a buffer that ends before the reason code panics; on success the code is the byte after the session-present byte and the description is its reason text |
| Connect.ConnackProperties | connect.go:240-308 | the property section, read from its own bytes, never changes the reason code or its description |
| Connect.ReadConnackProperty | connect.go:254-305 | one turn of the switch does what `ConnackStep` specifies |
| Connect.ReadConnack | connect.go:215-309 | `readConnack` returns what `ReadConnackSpec` specifies |
| Connect.ReadConnackProperties | connect.go:240-308 | the property loop, indexing the whole buffer from `at`, returns what `ConnackProperties` specifies of the bytes from `at` on |
| Connect.ConnackPropertiesInPlace | connect.go:240-306 | the property section of `b[at..]` is the loop run in place on `b` from `at` plus the length of the property-length field |
| Connect.ConnackLoopShift | connect.go:247-306 | the loop from `at + cursor` in `b` has the same outcome as the loop from `cursor` in `b[at..]` |
| Connect.ConnackStepShift | connect.go:254-305 | one turn at `at + cursor` in `b` is the turn at `cursor` in `b[at..]`, with the new cursor moved by `at` |
| Connect.ConnackOutcomeIgnoresCode | connect.go:222-308 | behind a canonical remaining length, whether a CONNACK parses does not depend on its reason-code byte: a non-zero code still returns no error; on success the response carries that code and its text and agrees on every other field (`SameButCode`) with the response for any other code; a failure is the same failure for every code |
| Connect.ReadConnackIgnoresCode | connect.go:222-308 | two CONNACK buffers with the same remaining length that agree after the reason code both parse or both fail; parsed responses agree on every field but the code and its text, and a failure is the same failure |
| Connect.ConnackAfterLengthIgnoresCode | connect.go:226-308 | past the remaining length, two buffers that agree after the reason code both parse, with responses that agree but for the code and its text, or fail alike |
| Connect.ConnackPropertiesIgnoresCode | connect.go:240-308 | the property section never looks at the reason code: two responses that differ only in code and text give outcomes that agree the same way, or the same failure |
| Connect.ConnackLoopIgnoresCode | connect.go:247-306 | the property loop never looks at the reason code: it stops at the same cursor with responses that agree but for the code, or fails alike |
| Connect.ConnackStepIgnoresCode | connect.go:254-305 | one turn of the switch never looks at the reason code: the same new cursor and responses that agree but for the code, or the same failure |
| Connect.ConnackRefusalParses | connect.go:232-308 | a CONNACK with Not Authorized (0x87) parses without error, with that code and "Not Authorized" |
| Connect.ConnackSessionExpiryHighHalf | connect.go:255-261 | a four-byte Session Expiry Interval is read as its high half, and the loop resumes at its low half |
| Connect.ConnackSessionExpiryExample | connect.go:249-306 | a CONNACK announcing a session expiry of 5 yields `serverExpiry == 0` |
| Connect.ReadConnackHeader | connect.go:226-241 | past the remaining length and the session-present byte, the reason code is read and the property section follows it |
| Connect.ConnackStringFields | connect.go:276-301 | 0x12 sets the assigned id, 0x1f the reason, and 0x15 discards, each to the string that follows, stepping past it |
| Connect.ConnackSkippedFields | connect.go:268-275 | 0x24 consumes one byte and 0x27 four, both dropped; a missing byte after 0x24 panics and a short integer after 0x27 is the short-buffer error |
| Connect.ConnackTwoByteFields | connect.go:262-296 | 0x13 sets the server keep-alive to the Two Byte Integer that follows; 0x21 reads it and discards it |
| Publish.PublishPropBlock | publish.go:29-64 | the properties are `01 01` when the format flag is set, then `03` and the content type as a string when it is non-empty |
| Publish.PublishPropLength | publish.go:29-48 | `propLen` is 2 for the format indicator plus 3 + len for the content type |
| Publish.PublishBody | publish.go:50-71 | the body is exactly `remLen` bytes long |
| Publish.PublishPacket | publish.go:25-81 | the build succeeds exactly when topic and content type fit a string prefix and `remLen` fits a varint, and otherwise fails with the matching error |
| Publish.BuildPublish | publish.go:25-81 | `buildPublish` returns exactly the PUBLISH specified by `PublishPacket` |
| Publish.PublishPacketFrame | publish.go:27-80 | the first byte is 0x30 whatever the QoS, the remaining length decodes to `remLen`, and exactly `remLen` bytes follow it |
| Publish.PublishBodyFields | publish.go:50-69 | the body reads back as the topic, then the property length, then the property block and the payload |
| Publish.PublishIgnoresUnwrittenFields | publish.go:15-81 | the QoS, the correlation data and the subscription id do not change the packet |
| Publish.PublishLoop | publish.go:114-138 | the loop terminates at or past `ceil` and changes only the format flag and the content type |
| Publish.ReadPublishSpec | publish.go:83-150 | none; characterised by `ReadPublishFields`, `ReadPublishHeader`, `PublishTopicReadBack` and `PublishReadBackDropsPayload` |
| Publish.ReadPublishFields | publish.go:83-150 | an empty buffer panics; a malformed remaining length fails with the malformed-varint error; a buffer shorter than the remaining length it declares fails with the invalid-length error; on success the topic is the string after the fixed header, the QoS, correlation and subscription id are empty, and the payload is empty unless the format flag was read |
| Publish.PublishAfterTopic | publish.go:108-149 | after the topic the result keeps that topic, and the payload stays empty unless the format flag was read |
| Publish.ScanPublishProperties | publish.go:114-138 | the cursor loop returns what `PublishLoop` specifies |
| Publish.ReadPublish | publish.go:83-150 | `readPublish` returns what `ReadPublishSpec` specifies |
| Publish.ReadPublishAfterTopic | publish.go:108-149 | the part after the topic returns what `PublishAfterTopic` specifies |
| Publish.PublishTopicReadBack | publish.go:97-105 | whenever a built PUBLISH is read back without error, whatever follows it, the topic is the one written |
| Publish.PublishReadBackDropsPayload | publish.go:140-149 | a PUBLISH built without properties reads back with its topic and an empty payload, whatever follows it |
| Publish.ReadPublishHeader | publish.go:97-109 | once the remaining length and topic are read, the rest is the part after the topic, at the property length |
| Publish.PublishFormatBuilt | publish.go:27-80 | topic "a" with the format flag builds `30 06 00 01 61 02 01 01` |
| Publish.PublishFormatReadBackPanics | publish.go:109-147 | that packet does not read back: the payload read past its end panics |
| Publish.PublishContentTypeBuilt | publish.go:41-80 | content type "x" and payload "hi" build `30 09 00 00 04 03 00 01 78 68 69` |
| Publish.PublishContentTypeMisread | publish.go:126-147 | that packet fails to read back: the string's length byte is taken for a format indicator |
| Publish.PublishCursorExceedsLength | publish.go:115-118 | one example: in `30 03 00 00 05` the property length 5 opens the loop with the cursor at offset 4, past the remaining length 3, and the first turn fails with the cursor-exceeded-length error; other overlong property lengths may be read as properties first |
| Sdk.ApplyOption | sdk.go:57-83 | none; characterised by `LastWriterWins` and `PorterClient.Apply` |
| Sdk.Configure | sdk.go:102-104 | none; characterised by `ConfigureSnoc` and `LastWriterWins` |
| Sdk.ConfigureSnoc | sdk.go:102-104 | applying one more option after a list is applying it to the list's result |
| Sdk.LastWriterWins | sdk.go:57-107 | the id, the message bound and the credentials are those of the last option that writes them, or the defaults; basic credentials carry both user and password |
| Sdk.ReadBuffer | sdk.go:150-151 | the read buffer has 1024 bytes: the data read, then zeros |
| Sdk.ReadMessageSpec | sdk.go:233-257 | none; characterised by `ReadMessageDispatch`, `ReadMessageCounter`, `HandledStep` and `HandlerGetsEmptyPayload` |
| Sdk.ReadMessageDispatch | sdk.go:233-257 | a DISCONNECT emits a clean end and returns nil; any first byte other than 0xE0 and 0x30 changes nothing |
| Sdk.ReadMessageCounter | sdk.go:248-253 | with a bound of at least 1 the counter stays in `[0, receivedMax)`; an end is emitted only with a nil result, and for a PUBLISH only when the counter reaches the bound |
| Sdk.HandledStep | sdk.go:238-253 | a PUBLISH that decodes and that the handler accepts counts one message, resetting to 0 and ending at the bound |
| Sdk.ReceivedCount | sdk.go:248-253 | over `n` handled PUBLISH packets, `ends * receivedMax + received == r0 + n` |
| Sdk.HandlerGetsEmptyPayload | sdk.go:238-244 | a PUBLISH built without properties, read into the 1024-byte buffer, reaches the handler with an empty payload |
| Sdk.Step | sdk.go:142-184 | none; characterised by `StepOnReadErrors`, `DisconnectKeepsReading` and `StepKeepsCounter` |
| Sdk.StepOnReadErrors | sdk.go:150-177 | on a timeout the loop writes exactly `C0 00` and continues; an error that is not a `net.Error` (a bare EOF) crashes; a `net.Error` wrapping EOF ends cleanly |
| Sdk.DisconnectKeepsReading | sdk.go:179-182 | a DISCONNECT emits a clean end but the loop keeps running with the same counter |
| Sdk.StepKeepsCounter | sdk.go:142-184 | the loop's counter stays in `[0, receivedMax)` turn after turn |
| Sdk.HandshakeCheck | sdk.go:133-140 | the reply is accepted exactly when its first byte is 0x20, and otherwise rejected with the unexpected-response error |
| Sdk.RefusalPassesHandshake | sdk.go:138-140 | a CONNACK refusing the connection (Not Authorized) passes the check |
| Sdk.PorterClient.constructor | sdk.go:85-107 | `NewClient` stores host, keep-alive and QoS, starts from 10 messages and the no-op handler, then applies the options in order |
| Sdk.PorterClient.Apply | sdk.go:57-83 | each option changes only the field its closure writes |
| Sdk.PorterClient.ReadMessage | sdk.go:233-257 | `readMessage` returns the result and new counter of `ReadMessageSpec`, and appends a clean end exactly when that says so |
| Sdk.PorterClient.ReadLoopStep | sdk.go:142-184 | one turn of the loop reaches the state, emits the end states and writes the packets `Step` gives |

## Left out

- Transport I/O is not modelled. This covers resolving and dialling, `SetReadDeadline`, and `conn.Read`, `Write` and `Close`. A read is the abstract outcome `ReadEvent`. The outcomes of the ping write and the deadline reset are parameters.
- Concurrency is not modelled: the goroutine, the `select` on `ctx.Done()`, and the unsynchronised `connOpen` flag. Emitted end states are appended to the sequence `ends` instead of sent on the capacity-1 channel. A second send that would block the goroutine is not modelled.
- `Subscribe` is not modelled, nor `buildSubscribe` and any SUBACK handling, which it calls and whose source is not part of this model.
- The `Publish` method at sdk.go:259-262 is not modelled: it has no logic.
- The example programs are not modelled.
- The 4-argument call of `buildConnect` at sdk.go:116-121 is not modelled. The 5-argument `buildConnect` of connect.go is the one modelled.
- The message handler is a function of the payload alone. The `context.Context` argument is not modelled, and nor is any effect the handler has.
- Sdk.PorterClient.ReadMessage: `*received` is a parameter and the new count is the result, because Dafny methods cannot write through a pointer to a caller's integer.
- Connect.ReadConnack: on an error it returns only the error. The Go code also returns a partly filled response, which its caller ignores.
- Publish.ReadPublish: on an error it returns only the error. The Go code also returns a partly filled message, which its caller ignores.
- Framing.NewPacket: a buffer is a sequence, so its capacity is its length. Go checks the upper bound of `buff[remainingLen:length]` (packet.go:82) against `cap(buff)`; a slice with spare capacity could yield a frame reaching past `len(buff)` where the model panics. `newPacket` has no caller in this code.
- Properties.ReadProperties: a non-negative capacity `max` has no effect. A capacity too large to allocate, which also panics in Go, is not modelled: it depends on the memory available.
- Properties.PropertyStep: on an error it returns no property. The Go code returns a zero `property{}`.
- Integers are unbounded. The Go `int` counters (`n`, `remLen`, `received`) are not wrapped at 64 bits; no realistic input reaches that width.
- `AppMessage.MessageQoS` is a byte rather than the `QoS` type, whose definition is not part of this model.
