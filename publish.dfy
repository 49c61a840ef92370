/// The PUBLISH codec of publish.go: `AppMessage`, the builder `buildPublish`
/// and the parser `readPublish` (section 3.3 of MQTT Version 5.0).
module Publish {
  import opened Wire
  import opened Framing
  import opened Properties

  /// `AppMessage`.  `qos` stands for the `QoS` value; `Json` and `Text` are
  /// the two content types the package names, but any string is accepted.
  datatype AppMessage = AppMessage(
    qos: byte, topic: Bytes, format: bool, contentType: Bytes,
    correlation: Bytes, subID: Bytes, payload: Bytes)

  /// The message `readPublish` starts from: the topic, every other field at
  /// its zero value.
  function EmptyMessage(topic: Bytes): AppMessage
  {
    AppMessage(0, topic, false, [], [], [], [])
  }

  // ---------------------------------------------------------------------------
  // buildPublish
  // ---------------------------------------------------------------------------

  /// The properties `buildPublish` collects: a Payload Format Indicator of 1
  /// when `format` is set, then the Content Type when it is not empty.
  /// Correlation data and the subscription identifier are never written.
  function PublishProps(m: AppMessage): seq<Prop>
    requires |m.contentType| <= MaxString
  {
    (if m.format then [Prop(PayloadFormatIndicator, [1])] else [])
    + (if m.contentType != [] then [Prop(ContentType, Utf(m.contentType))] else [])
  }

  /// The property block of a PUBLISH, byte by byte.
  lemma PublishPropBlock(m: AppMessage)
    requires |m.contentType| <= MaxString
    ensures PropBlock(PublishProps(m))
         == (if m.format then [PayloadFormatIndicator, 1] else [])
          + (if m.contentType != [] then [ContentType] + Utf(m.contentType) else [])
  {
    var ps := PublishProps(m);
    if |ps| == 2 {
      assert ps[..1] == [ps[0]] && ps[..1][..0] == [];
      assert PropBlock(ps[..1]) == [ps[0].key] + ps[0].value;
    } else if |ps| == 1 {
      assert ps[..0] == [];
      assert PropBlock(ps) == [ps[0].key] + ps[0].value;
    }
  }

  /// The length of a PUBLISH's property block: `propLen` in `buildPublish`.
  lemma PublishPropLength(m: AppMessage)
    requires |m.contentType| <= MaxString
    ensures |PropBlock(PublishProps(m))|
         == (if m.format then 2 else 0) + (if m.contentType != [] then 3 + |m.contentType| else 0)
  {
    PublishPropBlock(m);
  }

  /// The property block's length as `buildPublish` computes it.
  function PropLen(m: AppMessage): nat
  {
    (if m.format then 2 else 0) + (if m.contentType != [] then 3 + |m.contentType| else 0)
  }

  /// `remLen`: the topic with its prefix, the property length's own bytes,
  /// the properties and the payload.
  function PublishRemLength(m: AppMessage): nat
  {
    (|m.topic| + 2) + EvalBytes(PropLen(m)) + PropLen(m) + |m.payload|
  }

  /// The strings fit their two-byte prefixes and the remaining length fits a
  /// Variable Byte Integer.
  predicate PublishFits(m: AppMessage)
  {
    |m.topic| <= MaxString && |m.contentType| <= MaxString && PublishRemLength(m) <= MaxVarInt
  }

  /// Everything after the remaining length: the topic, the property length,
  /// the properties and the payload.
  function PublishBody(m: AppMessage): (r: Bytes)
    requires |m.topic| <= MaxString && |m.contentType| <= MaxString
    ensures |r| == PublishRemLength(m)
  {
    PublishPropLength(m);
    var pb := PropBlock(PublishProps(m));
    Utf(m.topic) + (VarIntBytes(|pb|) + (pb + m.payload))
  }

  /// The packet `buildPublish` returns: the PUBLISH command with all flags
  /// clear (QoS 0, no DUP, no RETAIN), the remaining length and the body.  A
  /// topic or content type over 65,535 bytes, or a payload that pushes the
  /// remaining length over 268,435,455, is an error.
  function PublishPacket(m: AppMessage): (r: Result<Bytes>)
    ensures r.Ok? <==> PublishFits(m)
    ensures !r.Ok? ==>
      r == Err(if |m.topic| <= MaxString && |m.contentType| <= MaxString then VarIntTooLarge else StringTooLong)
  {
    if !(|m.topic| <= MaxString && |m.contentType| <= MaxString) then Err(StringTooLong)
    else if PublishRemLength(m) > MaxVarInt then Err(VarIntTooLarge)
    else Ok([PublishCmd] + (VarIntBytes(PublishRemLength(m)) + PublishBody(m)))
  }

  /// `buildPublish`.
  method BuildPublish(m: AppMessage) returns (r: Result<Bytes>)
    ensures r == PublishPacket(m)
  {
    var props: seq<Prop> := [];
    var propLen := 0;
    if m.format {
      // A byte always encodes.
      var prop := NewProperty(PayloadFormatIndicator, ByteValue(1)).value;
      props := props + [prop];
      propLen := propLen + |prop.value| + 1;
    }
    if m.contentType != [] {
      var prop := NewProperty(ContentType, StringValue(m.contentType));
      if !prop.Ok? {
        return Err(prop.error);
      }
      props := props + [prop.value];
      propLen := propLen + |prop.value.value| + 1;
    }
    var topic := WriteUtf(m.topic);
    if !topic.Ok? {
      return Err(topic.error);
    }
    assert props == PublishProps(m);
    PublishPropLength(m);
    // At most 65,540: it always encodes.
    var propLenBuf := EncodeVarInt(propLen).value;
    var propBuf := WriteProps(props);
    var np := |m.payload|;
    var msg := topic.value + (propLenBuf + (propBuf + m.payload));
    var remLen := (|m.topic| + 2) + EvalBytes(propLen) + propLen + np;
    var lenBuf := EncodeVarInt(remLen);
    if !lenBuf.Ok? {
      return Err(lenBuf.error);
    }
    // The header byte is `PublishCMD ^ (0 << 1)`: the command itself.
    r := Ok([PublishCmd] + (lenBuf.value + msg));
  }

  /// The fixed header of a built PUBLISH: the first byte is 0x30 whatever
  /// the message's QoS, and the remaining length is exactly the number of
  /// bytes that follow it.
  lemma {:induction false} PublishPacketFrame(m: AppMessage)
    requires PublishFits(m)
    ensures var r := PublishPacket(m).value;
      && |r| == 1 + EvalBytes(PublishRemLength(m)) + PublishRemLength(m)
      && r[0] == PublishCmd
      && DecodeVarint(r[1..]) == Ok(PublishRemLength(m))
      && r[1 + EvalBytes(PublishRemLength(m))..] == PublishBody(m)
  {
    var body := PublishBody(m);
    var n := PublishRemLength(m);
    var r := PublishPacket(m).value;
    assert r[1..] == VarIntBytes(n) + body;
    VarIntRoundTrip(n, body);
    DropPrefix(VarIntBytes(n), body);
  }

  /// The body of a built PUBLISH: the topic, then the property length, then
  /// the property block and the payload.
  lemma {:induction false} PublishBodyFields(m: AppMessage)
    requires |m.topic| <= MaxString && |m.contentType| <= MaxString
    ensures var body := PublishBody(m);
      var pb := PropBlock(PublishProps(m));
      && ReadUtf(body) == Ok(m.topic)
      && DecodeVarint(body[2 + |m.topic|..]) == Ok(|pb|)
      && body[2 + |m.topic| + EvalBytes(|pb|)..] == pb + m.payload
  {
    PublishPropLength(m);
    var pb := PropBlock(PublishProps(m));
    var tail := VarIntBytes(|pb|) + (pb + m.payload);
    UtfRoundTrip(m.topic, tail);
    DropPrefix(Utf(m.topic), tail);
    VarIntRoundTrip(|pb|, pb + m.payload);
    DropPrefix(VarIntBytes(|pb|), pb + m.payload);
    assert PublishBody(m)[2 + |m.topic|..][EvalBytes(|pb|)..] == PublishBody(m)[2 + |m.topic| + EvalBytes(|pb|)..];
  }

  /// Only the topic, the format flag, the content type and the payload reach
  /// the wire: the QoS, the correlation data and the subscription identifier
  /// do not change the packet.
  lemma PublishIgnoresUnwrittenFields(m: AppMessage, qos: byte, correlation: Bytes, subID: Bytes)
    ensures PublishPacket(m.(qos := qos, correlation := correlation, subID := subID)) == PublishPacket(m)
  {
    var m' := m.(qos := qos, correlation := correlation, subID := subID);
    assert PublishRemLength(m') == PublishRemLength(m);
    if |m.topic| <= MaxString && |m.contentType| <= MaxString {
      assert PublishProps(m') == PublishProps(m);
      assert PublishBody(m') == PublishBody(m);
    }
  }

  // ---------------------------------------------------------------------------
  // readPublish
  // ---------------------------------------------------------------------------

  /// The property loop of `readPublish`, from `cursor` up to `ceil`.  The
  /// cursor is checked against the remaining length `length`.  A Payload
  /// Format Indicator (0x01) sets `format` from the byte after it; a Content
  /// Type (0x03) sets `contentType` but moves the cursor past the identifier
  /// only; every other byte is skipped one at a time.
  function PublishLoop(b: Bytes, length: nat, cursor: nat, ceil: nat, msg: AppMessage): (r: Result<(AppMessage, nat)>)
    ensures r.Ok? ==> ceil <= r.value.1 && (cursor < ceil ==> r.value.1 <= |b|)
    ensures r.Ok? ==> r.value.0 == msg.(format := r.value.0.format, contentType := r.value.0.contentType)
    ensures cursor >= ceil ==> r == Ok((msg, cursor))
    decreases ceil - cursor
  {
    if cursor >= ceil then Ok((msg, cursor))
    else if cursor > length then Err(CursorExceededLength)
    else if cursor >= |b| then Panic
    else if b[cursor] == 0x01 then
      if cursor + 1 >= |b| then Panic
      else PublishLoop(b, length, cursor + 2, ceil, msg.(format := b[cursor + 1] >= 1))
    else if b[cursor] == 0x03 then
      match ReadUtf(b[cursor + 1..])
      case Ok(content) => PublishLoop(b, length, cursor + 1, ceil, msg.(contentType := content))
      case Err(e) => Err(e)
      case Panic => Panic
    else PublishLoop(b, length, cursor + 1, ceil, msg)
  }

  /// `readPublish` on a buffer that starts with the fixed header.  The
  /// property loop starts at the property length itself, not after it; the
  /// payload is read, as a length-prefixed string one byte past where the
  /// loop stopped, only when `format` is set.
  function ReadPublishSpec(b: Bytes): Result<AppMessage>
  {
    if b == [] then Panic
    else
      match DecodeVarint(b[1..])
      case Err(e) => Err(e)
      case Panic => Panic
      case Ok(length) =>
        if |b| < length then Err(InvalidPacketLength)
        else
          var cursor := 1 + EvalBytes(length);
          match ReadUtf(b[cursor..])
          case Err(e) => Err(e)
          case Panic => Panic
          case Ok(topic) =>
            PublishAfterTopic(b, length, cursor + |topic| + 2, topic)
  }

  /// What `readPublish` returns on success: the topic read after the fixed
  /// header, no QoS, correlation data or subscription identifier, and an
  /// empty payload unless the format flag was read as set.  An empty buffer
  /// panics, a malformed remaining length is reported as such, and a buffer
  /// shorter than the remaining length it declares is an invalid length.
  lemma ReadPublishFields(b: Bytes)
    ensures b == [] ==> ReadPublishSpec(b) == Panic
    ensures b != [] && !DecodeVarint(b[1..]).Ok? ==> ReadPublishSpec(b) == Err(MalformedVarInt)
    ensures b != [] && DecodeVarint(b[1..]).Ok? && |b| < DecodeVarint(b[1..]).value ==>
      ReadPublishSpec(b) == Err(InvalidPacketLength)
    ensures ReadPublishSpec(b).Ok? ==>
      && b != [] && DecodeVarint(b[1..]).Ok?
      && var topic := ReadUtf(b[1 + EvalBytes(DecodeVarint(b[1..]).value)..]);
      && topic.Ok? && ReadPublishSpec(b).value.topic == topic.value
    ensures ReadPublishSpec(b).Ok? ==>
      var m := ReadPublishSpec(b).value;
      m.qos == 0 && m.correlation == [] && m.subID == [] && (!m.format ==> m.payload == [])
  {
  }

  /// `readPublish` from the property length at `at` on: the property loop,
  /// then the payload when `format` is set.
  function PublishAfterTopic(b: Bytes, length: nat, at: nat, topic: Bytes): (r: Result<AppMessage>)
    requires at <= |b|
    ensures r.Ok? ==> r.value.topic == topic && r.value.qos == 0 && r.value.correlation == [] && r.value.subID == []
    ensures r.Ok? && !r.value.format ==> r.value.payload == []
  {
    match DecodeVarint(b[at..])
    case Err(e) => Err(e)
    case Panic => Panic
    case Ok(propsLen) =>
      match PublishLoop(b, length, at, at + propsLen, EmptyMessage(topic))
      case Err(e) => Err(e)
      case Panic => Panic
      case Ok((msg, end)) =>
        if !msg.format then Ok(msg)
        else if end + 1 > |b| then Panic
        else
          match ReadUtf(b[end + 1..])
          case Ok(payload) => Ok(msg.(payload := payload))
          case Err(e) => Err(e)
          case Panic => Panic
  }

  /// The loop `for cursor < ceil` of `readPublish`.
  method ScanPublishProperties(b: Bytes, length: nat, start: nat, ceil: nat, msg0: AppMessage)
    returns (r: Result<(AppMessage, nat)>)
    ensures r == PublishLoop(b, length, start, ceil, msg0)
  {
    var cursor := start;
    var msg := msg0;
    while cursor < ceil
      invariant PublishLoop(b, length, cursor, ceil, msg) == PublishLoop(b, length, start, ceil, msg0)
      decreases ceil - cursor
    {
      if cursor > length {
        return Err(CursorExceededLength);
      }
      if cursor >= |b| {
        return Panic;
      }
      if b[cursor] == 0x01 {
        cursor := cursor + 1;
        if cursor >= |b| {
          return Panic;
        }
        msg := msg.(format := b[cursor] >= 1);
        cursor := cursor + 1;
      } else if b[cursor] == 0x03 {
        cursor := cursor + 1;
        var content := ReadUtf(b[cursor..]);
        if !content.Ok? {
          return Err(content.error);
        }
        msg := msg.(contentType := content.value);
      } else {
        cursor := cursor + 1;
      }
    }
    return Ok((msg, cursor));
  }

  /// `readPublish`.
  method ReadPublish(b: Bytes) returns (r: Result<AppMessage>)
    ensures r == ReadPublishSpec(b)
  {
    if |b| < 1 {
      return Panic;
    }
    var cursor := 1;
    var length := DecodeVarint(b[1..]);
    if !length.Ok? {
      return Err(length.error);
    }
    if |b| < length.value {
      return Err(InvalidPacketLength);
    }
    cursor := cursor + EvalBytes(length.value);
    var topic := ReadUtf(b[cursor..]);
    if !topic.Ok? {
      return Err(topic.error);
    }
    cursor := cursor + |topic.value| + 2;
    r := ReadPublishAfterTopic(b, length.value, cursor, topic.value);
  }

  /// `readPublish` from the property length on.
  method ReadPublishAfterTopic(b: Bytes, length: nat, at: nat, topic: Bytes) returns (r: Result<AppMessage>)
    requires at <= |b|
    ensures r == PublishAfterTopic(b, length, at, topic)
  {
    var cursor := at;
    var propsLen := DecodeVarint(b[cursor..]);
    if !propsLen.Ok? {
      return Err(propsLen.error);
    }
    var ceil := cursor + propsLen.value;
    var scan := ScanPublishProperties(b, length, cursor, ceil, EmptyMessage(topic));
    if !scan.Ok? {
      return if scan.Panic? then Panic else Err(scan.error);
    }
    var msg := scan.value.0;
    cursor := scan.value.1;
    if msg.format {
      if cursor + 1 > |b| {
        return Panic;
      }
      var payload := ReadUtf(b[cursor + 1..]);
      if !payload.Ok? {
        return Err(payload.error);
      }
      msg := msg.(payload := payload.value);
    }
    return Ok(msg);
  }

  /// A message without properties reads back with its topic but without its
  /// payload: the payload is read only when the format flag is set.  Bytes
  /// after the packet (the rest of a read buffer) make no difference.
  lemma {:induction false} PublishReadBackDropsPayload(m: AppMessage, extra: Bytes)
    requires PublishFits(m) && !m.format && m.contentType == []
    ensures ReadPublishSpec(PublishPacket(m).value + extra) == Ok(EmptyMessage(m.topic))
  {
    var n := PublishRemLength(m);
    var b := PublishPacket(m).value + extra;
    var c := 1 + EvalBytes(n);
    var tail := VarIntBytes(0) + (m.payload + extra);
    PlainPublishLayout(m, extra);
    VarIntRoundTrip(n, PublishBody(m) + extra);
    UtfRoundTrip(m.topic, tail);
    VarIntRoundTrip(0, m.payload + extra);
    var at := c + |m.topic| + 2;
    assert PublishAfterTopic(b, n, at, m.topic) == Ok(EmptyMessage(m.topic));
    ReadPublishHeader(b, n, m.topic);
  }

  /// Whenever `readPublish` accepts a built PUBLISH, whatever follows it in
  /// the buffer, the topic it returns is the one that was written.
  lemma PublishTopicReadBack(m: AppMessage, extra: Bytes)
    requires PublishFits(m)
    ensures var r := ReadPublishSpec(PublishPacket(m).value + extra);
      r.Ok? ==> r.value.topic == m.topic
  {
    var b := PublishPacket(m).value + extra;
    var n := PublishRemLength(m);
    PublishPropLength(m);
    var pb := PropBlock(PublishProps(m));
    var tail := VarIntBytes(|pb|) + (pb + m.payload + extra);
    SplitAfterHeader(PublishCmd, VarIntBytes(n), Utf(m.topic), VarIntBytes(|pb|), pb + m.payload, extra);
    VarIntRoundTrip(n, PublishBody(m) + extra);
    UtfRoundTrip(m.topic, tail);
    ReadPublishFields(b);
  }

  /// Where the fields of a PUBLISH without properties sit, followed by
  /// `extra`.
  lemma PlainPublishLayout(m: AppMessage, extra: Bytes)
    requires PublishFits(m) && !m.format && m.contentType == []
    ensures var b := PublishPacket(m).value + extra;
      var c := 1 + EvalBytes(PublishRemLength(m));
      var tail := VarIntBytes(0) + (m.payload + extra);
      && |b| >= PublishRemLength(m)
      && b[1..] == VarIntBytes(PublishRemLength(m)) + (PublishBody(m) + extra)
      && b[c..] == Utf(m.topic) + tail
      && b[c + |m.topic| + 2..] == tail
  {
    var n := PublishRemLength(m);
    assert PublishProps(m) == [];
    assert PublishBody(m) == Utf(m.topic) + (VarIntBytes(0) + m.payload);
    SplitAfterHeader(PublishCmd, VarIntBytes(n), Utf(m.topic), VarIntBytes(0), m.payload, extra);
  }

  /// The suffixes of a header byte followed by four fields and `extra`.
  lemma SplitAfterHeader(h: byte, v: Bytes, u: Bytes, z: Bytes, pay: Bytes, extra: Bytes)
    ensures var b := [h] + (v + (u + (z + pay))) + extra;
      && b[1..] == v + ((u + (z + pay)) + extra)
      && b[1 + |v|..] == u + (z + (pay + extra))
      && b[1 + |v| + |u|..] == z + (pay + extra)
  {
    var b := [h] + (v + (u + (z + pay))) + extra;
    assert b == [h] + (v + (u + (z + (pay + extra))));
  }

  /// Once the remaining length and the topic are read, `readPublish`
  /// continues at the property length that follows the topic.
  lemma ReadPublishHeader(b: Bytes, n: nat, topic: Bytes)
    requires b != [] && DecodeVarint(b[1..]) == Ok(n) && n <= |b|
    requires ReadUtf(b[1 + EvalBytes(n)..]) == Ok(topic)
    ensures 1 + EvalBytes(n) + |topic| + 2 <= |b|
    ensures ReadPublishSpec(b) == PublishAfterTopic(b, n, 1 + EvalBytes(n) + |topic| + 2, topic)
  {
  }

  /// A PUBLISH with Payload Format Indicator 1, topic "a" and no payload.
  lemma PublishFormatBuilt()
    ensures PublishPacket(AppMessage(0, [0x61], true, [], [], [], []))
         == Ok([0x30, 6, 0, 1, 0x61, 2, 1, 1])
  {
    var m := AppMessage(0, [0x61], true, [], [], [], []);
    PublishPropBlock(m);
    assert PropBlock(PublishProps(m)) == [1, 1];
    assert VarIntBytes(2) == [2];
    assert VarIntBytes(6) == [6];
    assert Utf([0x61]) == [0, 1, 0x61];
    var expected: Bytes := [0x30, 6, 0, 1, 0x61, 2, 1, 1];
    assert [PublishCmd] + (VarIntBytes(6) + PublishBody(m)) == expected;
  }

  /// The packet of `PublishFormatBuilt` does not read back: the loop starts
  /// at the property length (2), skips it, reads the indicator, and the
  /// payload read one byte past the end of the packet panics.
  lemma PublishFormatReadBackPanics()
    ensures ReadPublishSpec([0x30, 6, 0, 1, 0x61, 2, 1, 1]) == Panic
  {
    var b: Bytes := [0x30, 6, 0, 1, 0x61, 2, 1, 1];
    assert b[1..] == [6, 0, 1, 0x61, 2, 1, 1];
    assert DecodeDigits(b[1..], 4) == Ok(6);
    assert b[2..] == [0, 1, 0x61, 2, 1, 1];
    assert b[2..][2..3] == [0x61];
    assert ReadUtf(b[2..]) == Ok([0x61]);
    ReadPublishHeader(b, 6, [0x61]);
    FormatLoop(b);
  }

  lemma FormatLoop(b: Bytes)
    requires b == [0x30, 6, 0, 1, 0x61, 2, 1, 1]
    ensures PublishAfterTopic(b, 6, 5, [0x61]) == Panic
  {
    assert b[5..] == [2, 1, 1];
    assert DecodeDigits(b[5..], 4) == Ok(2);
    var msg := EmptyMessage([0x61]);
    assert PublishLoop(b, 6, 6, 7, msg) == Ok((msg.(format := true), 8));
    assert PublishLoop(b, 6, 5, 7, msg) == Ok((msg.(format := true), 8));
  }

  /// A message with the one-byte content type "x" and payload "hi".
  lemma PublishContentTypeBuilt()
    ensures PublishPacket(AppMessage(0, [], false, [0x78], [], [], [0x68, 0x69]))
         == Ok([0x30, 9, 0, 0, 4, 3, 0, 1, 0x78, 0x68, 0x69])
  {
    var m := AppMessage(0, [], false, [0x78], [], [], [0x68, 0x69]);
    PublishPropBlock(m);
    assert Utf([0x78]) == [0, 1, 0x78];
    assert PropBlock(PublishProps(m)) == [3, 0, 1, 0x78];
    assert VarIntBytes(4) == [4];
    assert VarIntBytes(9) == [9];
    assert Utf([]) == [0, 0];
    var expected: Bytes := [0x30, 9, 0, 0, 4, 3, 0, 1, 0x78, 0x68, 0x69];
    assert [PublishCmd] + (VarIntBytes(9) + PublishBody(m)) == expected;
  }

  /// The packet of `PublishContentTypeBuilt` does not read back: after the
  /// Content Type identifier the loop walks into the string, reads its
  /// length byte 0x01 as a Payload Format Indicator (taking "x" as its
  /// value), and the payload read that follows fails.
  lemma PublishContentTypeMisread()
    ensures ReadPublishSpec([0x30, 9, 0, 0, 4, 3, 0, 1, 0x78, 0x68, 0x69]) == Err(ShortBuffer)
  {
    var b: Bytes := [0x30, 9, 0, 0, 4, 3, 0, 1, 0x78, 0x68, 0x69];
    assert b[1..] == [9, 0, 0, 4, 3, 0, 1, 0x78, 0x68, 0x69];
    assert DecodeDigits(b[1..], 4) == Ok(9);
    assert b[2..] == [0, 0, 4, 3, 0, 1, 0x78, 0x68, 0x69];
    assert ReadUtf(b[2..]) == Ok([]);
    assert b[4..] == [4, 3, 0, 1, 0x78, 0x68, 0x69];
    assert DecodeDigits(b[4..], 4) == Ok(4);
    var msg := EmptyMessage([]);
    ContentTypeLoop(b, msg);
    assert b[10..] == [0x69];
  }

  lemma ContentTypeLoop(b: Bytes, msg: AppMessage)
    requires b == [0x30, 9, 0, 0, 4, 3, 0, 1, 0x78, 0x68, 0x69]
    ensures PublishLoop(b, 9, 4, 8, msg) == Ok((msg.(contentType := [0x78], format := true), 9))
  {
    assert b[6..] == [0, 1, 0x78, 0x68, 0x69];
    assert b[6..][2..3] == [0x78];
    assert ReadUtf(b[6..]) == Ok([0x78]);
    var withType := msg.(contentType := [0x78]);
    assert PublishLoop(b, 9, 7, 8, withType) == Ok((withType.(format := true), 9));
    assert PublishLoop(b, 9, 6, 8, withType) == Ok((withType.(format := true), 9));
    assert PublishLoop(b, 9, 5, 8, msg) == Ok((withType.(format := true), 9));
  }

  /// The cursor is compared with the remaining length.  On the packet
  /// `30 03 00 00 05` the property length 5 opens a loop whose cursor, at
  /// the length byte (offset 4), is already past the remaining length 3, so
  /// the first turn fails before any byte is read as a property.  Other
  /// overlong property lengths need not reach this error: the loop starts at
  /// the length byte itself and may read it as a property first.
  lemma PublishCursorExceedsLength()
    ensures ReadPublishSpec([0x30, 3, 0, 0, 5]) == Err(CursorExceededLength)
  {
    var b: Bytes := [0x30, 3, 0, 0, 5];
    assert b[1..] == [3, 0, 0, 5];
    assert DecodeDigits(b[1..], 4) == Ok(3);
    assert b[2..] == [0, 0, 5];
    assert ReadUtf(b[2..]) == Ok([]);
    assert b[4..] == [5];
    assert DecodeDigits(b[4..], 4) == Ok(5);
  }
}
