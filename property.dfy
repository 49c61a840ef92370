/// The property decoder of property.go and the property-list loop of
/// packet.go (`readProperties`), which calls it.  Both consume the shared
/// cursor of a `Packet`.  `readProperties` lives here rather than in
/// `Framing` because it calls `readProperty`, and two modules cannot import
/// each other.
module Properties {
  import opened Wire
  import opened Framing

  // Property identifiers (Table 2-4 of MQTT Version 5.0), as property.go names them.
  const PayloadFormatIndicator: byte := 1
  const MessageExpiryInterval: byte := 2
  const ContentType: byte := 3
  const ResponseTopic: byte := 8
  const CorrelationData: byte := 9
  const SubscriptionId: byte := 11
  const SessionExpiryInterval: byte := 17
  const AssignedClientIdentifier: byte := 18
  const ServerKeepAlive: byte := 19
  const AuthenticationMethod: byte := 21
  const AuthenticationData: byte := 22
  const RequestProblemInformation: byte := 23
  const WillDelayInterval: byte := 24
  const RequestResponseInformation: byte := 25
  const ResponseInformation: byte := 26
  const ServerReference: byte := 28
  const ReasonString: byte := 31
  const ReceiveMaximum: byte := 33
  const TopicAliasMaximum: byte := 34
  const TopicAlias: byte := 35
  const MaximumQos: byte := 36
  const RetainAvailable: byte := 37
  const UserProperty: byte := 38
  const MaximumPacketSize: byte := 39
  const WildcardSubAvailable: byte := 40
  const SubscriptionIdAvailable: byte := 41
  const SharedSubAvailable: byte := 42

  // The case groups of the switch in `readProperty`.
  predicate IsFourByteId(id: byte)
  {
    id == SessionExpiryInterval || id == MaximumPacketSize || id == WillDelayInterval
    || id == MessageExpiryInterval
  }

  predicate IsTwoByteId(id: byte)
  {
    id == ReceiveMaximum || id == TopicAliasMaximum || id == TopicAlias
  }

  predicate IsOneByteId(id: byte)
  {
    id == RequestProblemInformation || id == RequestResponseInformation
    || id == PayloadFormatIndicator || id == MaximumQos || id == RetainAvailable
    || id == WildcardSubAvailable || id == SubscriptionIdAvailable || id == SharedSubAvailable
  }

  predicate IsStringId(id: byte)
  {
    id == AuthenticationMethod || id == AuthenticationData || id == ContentType
    || id == ResponseTopic || id == CorrelationData || id == ServerReference || id == ReasonString
  }

  /// The wire data types of section 2.2.2.2.
  datatype Kind = OneByte | TwoByte | FourByte | VarByte | Utf8 | Utf8Pair

  /// Table 2-4 of the standard: the data type of every defined identifier.
  /// (Binary Data, for 9 and 22, has the same length-prefixed form as a string.)
  function StandardKind(id: byte): Option<Kind>
  {
    match id
    case 1 => Some(OneByte)
    case 2 => Some(FourByte)
    case 3 => Some(Utf8)
    case 8 => Some(Utf8)
    case 9 => Some(Utf8)
    case 11 => Some(VarByte)
    case 17 => Some(FourByte)
    case 18 => Some(Utf8)
    case 19 => Some(TwoByte)
    case 21 => Some(Utf8)
    case 22 => Some(Utf8)
    case 23 => Some(OneByte)
    case 24 => Some(FourByte)
    case 25 => Some(OneByte)
    case 26 => Some(Utf8)
    case 28 => Some(Utf8)
    case 31 => Some(Utf8)
    case 33 => Some(TwoByte)
    case 34 => Some(TwoByte)
    case 35 => Some(TwoByte)
    case 36 => Some(OneByte)
    case 37 => Some(OneByte)
    case 38 => Some(Utf8Pair)
    case 39 => Some(FourByte)
    case 40 => Some(OneByte)
    case 41 => Some(OneByte)
    case 42 => Some(OneByte)
    case _ => None
  }

  /// The data type `readProperty` reads for an identifier, by the groups of
  /// its switch; `None` is the "unknown property" default.
  function DecodedKind(id: byte): Option<Kind>
  {
    if IsFourByteId(id) then Some(FourByte)
    else if IsTwoByteId(id) then Some(TwoByte)
    else if IsOneByteId(id) then Some(OneByte)
    else if id == SubscriptionId then Some(VarByte)
    else if id == UserProperty then Some(Utf8Pair)
    else if IsStringId(id) then Some(Utf8)
    else None
  }

  /// The decoder's table is the standard's, except that the three declared
  /// identifiers 18, 19 and 26 fall through to "unknown property".
  lemma DecodedKindIsStandardMinusThree(id: byte)
    ensures DecodedKind(id) == if id in {18, 19, 26} then None else StandardKind(id)
  {
  }

  /// A property value; the variant is fixed by the identifier.
  datatype Value =
    | ByteValue(b: byte)
    | Uint16Value(u: u16)
    | Uint32Value(w: u32)
    | VarIntValue(v: nat)
    | StringValue(s: Bytes)
    | PairValue(name: Bytes, text: Bytes)

  /// `property`: key, value and the `size` that `readProperty` records.
  datatype Property = Property(key: byte, value: Value, size: int)

  function KindOf(v: Value): Kind
  {
    match v
    case ByteValue(_) => OneByte
    case Uint16Value(_) => TwoByte
    case Uint32Value(_) => FourByte
    case VarIntValue(_) => VarByte
    case StringValue(_) => Utf8
    case PairValue(_, _) => Utf8Pair
  }

  predicate Encodable(v: Value)
  {
    match v
    case VarIntValue(n) => n <= MaxVarInt
    case StringValue(s) => |s| <= MaxString
    case PairValue(k, t) => |k| <= MaxString && |t| <= MaxString
    case _ => true
  }

  /// The encoding of a value (sections 1.5.2 to 1.5.5).
  function EncodeValue(v: Value): (r: Bytes)
    requires Encodable(v)
    ensures |r| == PrefixBytes(v) + RecordedSize(v)
  {
    match v
    case ByteValue(b) => [b]
    case Uint16Value(n) => Uint16Bytes(n)
    case Uint32Value(n) => Uint32Bytes(n)
    case VarIntValue(n) => VarIntBytes(n)
    case StringValue(s) => Utf(s)
    case PairValue(k, t) => Utf(k) + Utf(t)
  }

  /// The `size` `readProperty` records: the width for integers, the bytes of
  /// text for strings (without their two-byte prefixes).
  function RecordedSize(v: Value): nat
  {
    match v
    case ByteValue(_) => 1
    case Uint16Value(_) => 2
    case Uint32Value(_) => 4
    case VarIntValue(n) => EvalBytes(n)
    case StringValue(s) => |s|
    case PairValue(k, t) => |k| + |t|
  }

  /// The length prefixes a value carries on the wire beyond its recorded size.
  function PrefixBytes(v: Value): nat
  {
    match v
    case StringValue(_) => 2
    case PairValue(_, _) => 4
    case _ => 0
  }

  /// A property as `readProperty` produces it.
  predicate WellFormed(p: Property)
  {
    DecodedKind(p.key) == Some(KindOf(p.value)) && Encodable(p.value)
    && p.size == RecordedSize(p.value)
  }

  function EncodeProperty(p: Property): (r: Bytes)
    requires Encodable(p.value)
    ensures |r| == 1 + PrefixBytes(p.value) + RecordedSize(p.value)
  {
    [p.key] + EncodeValue(p.value)
  }

  function EncodeAll(ps: seq<Property>): Bytes
    requires forall p <- ps :: WellFormed(p)
  {
    if ps == [] then []
    else
      assert ps[0] in ps && WellFormed(ps[0]);
      assert Encodable(ps[0].value);
      EncodeProperty(ps[0]) + EncodeAll(ps[1..])
  }

  /// How a reader of one kind behaves on `rest`: it never panics, consumes
  /// `r.1` bytes from the front, and on success has consumed the value's
  /// length prefixes and its recorded size.
  predicate ReaderShape(k: Kind, rest: Bytes, r: (Result<Value>, nat))
  {
    && !r.0.Panic? && r.1 <= |rest|
    && (r.0.Ok? ==>
          && KindOf(r.0.value) == k && Encodable(r.0.value)
          && r.1 == PrefixBytes(r.0.value) + RecordedSize(r.0.value))
  }

  /// Four Byte Integer: `readUint32(pkt.buffer.Next(4))`.  The bytes `Next`
  /// took stay consumed when there were fewer than four.
  function ReadFourByte(rest: Bytes): (r: (Result<Value>, nat))
    ensures ReaderShape(FourByte, rest, r)
    ensures r.0.Err? <==> |rest| < 4
    ensures r.0.Err? ==> r == (Err(ShortBuffer), |rest|)
  {
    var k := Min(4, |rest|);
    var v := Wire.ReadUint32(rest[..k]);
    if v.Ok? then (Ok(Uint32Value(v.value)), k) else (Err(ShortBuffer), k)
  }

  /// Two Byte Integer: `readUint16(pkt.buffer.Next(2))`.
  function ReadTwoByte(rest: Bytes): (r: (Result<Value>, nat))
    ensures ReaderShape(TwoByte, rest, r)
    ensures r.0.Err? <==> |rest| < 2
    ensures r.0.Err? ==> r == (Err(ShortBuffer), |rest|)
  {
    var k := Min(2, |rest|);
    var v := Wire.ReadUint16(rest[..k]);
    if v.Ok? then (Ok(Uint16Value(v.value)), k) else (Err(ShortBuffer), k)
  }

  /// Byte: `pkt.readByte()`.
  function ReadOneByte(rest: Bytes): (r: (Result<Value>, nat))
    ensures ReaderShape(OneByte, rest, r)
    ensures r.0.Err? <==> rest == []
    ensures r.0.Err? ==> r == (Err(EndOfBuffer), 0)
  {
    if rest == [] then (Err(EndOfBuffer), 0) else (Ok(ByteValue(rest[0])), 1)
  }

  /// Variable Byte Integer: `decodeVarint` on the unread bytes, then
  /// `Next(evalBytes(value))`.  A non-canonical encoding (`80 00` for zero) is
  /// decoded, yet only its canonical length is consumed.
  function ReadVarByte(rest: Bytes): (r: (Result<Value>, nat))
    ensures ReaderShape(VarByte, rest, r)
    ensures r.0.Err? <==> DecodeVarint(rest).Err?
    ensures r.0.Err? ==> r == (Err(MalformedVarInt), 0)
  {
    var v := DecodeVarint(rest);
    if v.Ok? then (Ok(VarIntValue(v.value)), EvalBytes(v.value)) else (Err(MalformedVarInt), 0)
  }

  /// UTF-8 Encoded String: `pkt.readString()`.
  function ReadString(rest: Bytes): (r: (Result<Value>, nat))
    ensures ReaderShape(Utf8, rest, r)
    ensures r.0.Err? <==> ReadUtf(rest).Err?
    ensures r.0.Err? ==> r == (Err(ShortBuffer), 0)
  {
    var s := ReadUtf(rest);
    if s.Ok? then (Ok(StringValue(s.value)), 2 + |s.value|) else (Err(ShortBuffer), 0)
  }

  /// UTF-8 String Pair: two `readUTFString`s, each followed by its `Next`.
  /// When the second string is short, the first stays consumed.
  function ReadPair(rest: Bytes): (r: (Result<Value>, nat))
    ensures ReaderShape(Utf8Pair, rest, r)
    ensures r.0.Err? ==> r.0 == Err(ShortBuffer)
  {
    var name := ReadUtf(rest);
    if !name.Ok? then (Err(ShortBuffer), 0)
    else
      var n := 2 + |name.value|;
      var text := ReadUtf(rest[n..]);
      if !text.Ok? then (Err(ShortBuffer), n)
      else (Ok(PairValue(name.value, text.value)), n + 2 + |text.value|)
  }

  /// The reader of each kind.
  function ReadValue(k: Kind, rest: Bytes): (r: (Result<Value>, nat))
    ensures ReaderShape(k, rest, r)
  {
    match k
    case FourByte => ReadFourByte(rest)
    case TwoByte => ReadTwoByte(rest)
    case OneByte => ReadOneByte(rest)
    case VarByte => ReadVarByte(rest)
    case Utf8Pair => ReadPair(rest)
    case Utf8 => ReadString(rest)
  }

  /// The property a case of the switch returns: the key, the value read and
  /// the `size` the case records (4, 2, 1, `evalBytes(value)`, or the text
  /// lengths), or the reader's error.
  function Keyed(key: byte, v: Result<Value>): Result<Property>
  {
    match v
    case Ok(x) => Ok(Property(key, x, RecordedSize(x)))
    case Err(e) => Err(e)
    case Panic => Panic
  }

  /// What `readProperty` does to a buffer holding `buf`: the property or error
  /// it returns, and how many bytes it consumed.  The key byte is consumed
  /// first; the switch on it is `DecodedKind`.
  function PropertyStep(buf: Bytes): (r: (Result<Property>, nat))
    ensures !r.0.Panic? && r.1 <= |buf|
    ensures buf == [] ==> r == (Err(EndOfBuffer), 0)
    ensures buf != [] ==> r.1 >= 1
    ensures r.0.Ok? ==> buf != [] && r.0.value.key == buf[0] && WellFormed(r.0.value)
    ensures r.0.Ok? ==> r.1 == 1 + PrefixBytes(r.0.value.value) + r.0.value.size
    ensures buf != [] && DecodedKind(buf[0]).None? ==> r == (Err(UnknownProperty), 1)
  {
    if buf == [] then (Err(EndOfBuffer), 0)
    else
      match DecodedKind(buf[0])
      case None => (Err(UnknownProperty), 1)
      case Some(k) =>
        var (v, n) := ReadValue(k, buf[1..]);
        (Keyed(buf[0], v), 1 + n)
  }

  /// The Four Byte Integer case of `readProperty`'s switch.
  method ReadFourByteValue(pkt: Packet) returns (v: Result<Value>)
    modifies pkt`buffer
    ensures (v, |old(pkt.buffer)| - |pkt.buffer|) == ReadFourByte(old(pkt.buffer))
    ensures pkt.buffer == old(pkt.buffer)[|old(pkt.buffer)| - |pkt.buffer|..]
  {
    var taken := pkt.Next(4);
    var value := Wire.ReadUint32(taken);
    if !value.Ok? {
      return Err(ShortBuffer);
    }
    return Ok(Uint32Value(value.value));
  }

  /// The Two Byte Integer case.
  method ReadTwoByteValue(pkt: Packet) returns (v: Result<Value>)
    modifies pkt`buffer
    ensures (v, |old(pkt.buffer)| - |pkt.buffer|) == ReadTwoByte(old(pkt.buffer))
    ensures pkt.buffer == old(pkt.buffer)[|old(pkt.buffer)| - |pkt.buffer|..]
  {
    var taken := pkt.Next(2);
    var value := Wire.ReadUint16(taken);
    if !value.Ok? {
      return Err(ShortBuffer);
    }
    return Ok(Uint16Value(value.value));
  }

  /// The Byte case.
  method ReadOneByteValue(pkt: Packet) returns (v: Result<Value>)
    modifies pkt`buffer
    ensures (v, |old(pkt.buffer)| - |pkt.buffer|) == ReadOneByte(old(pkt.buffer))
    ensures pkt.buffer == old(pkt.buffer)[|old(pkt.buffer)| - |pkt.buffer|..]
  {
    var value := pkt.ReadByte();
    if !value.Ok? {
      return Err(EndOfBuffer);
    }
    return Ok(ByteValue(value.value));
  }

  /// The Subscription Identifier case.
  method ReadVarByteValue(pkt: Packet) returns (v: Result<Value>)
    modifies pkt`buffer
    ensures (v, |old(pkt.buffer)| - |pkt.buffer|) == ReadVarByte(old(pkt.buffer))
    ensures pkt.buffer == old(pkt.buffer)[|old(pkt.buffer)| - |pkt.buffer|..]
  {
    var value := DecodeVarint(pkt.buffer);
    if !value.Ok? {
      return Err(MalformedVarInt);
    }
    var bsize := EvalBytes(value.value);
    var _ := pkt.Next(bsize);
    return Ok(VarIntValue(value.value));
  }

  /// The User Property case.
  method ReadPairValue(pkt: Packet) returns (v: Result<Value>)
    modifies pkt`buffer
    ensures (v, |old(pkt.buffer)| - |pkt.buffer|) == ReadPair(old(pkt.buffer))
    ensures pkt.buffer == old(pkt.buffer)[|old(pkt.buffer)| - |pkt.buffer|..]
  {
    var name := ReadUtf(pkt.buffer);
    if !name.Ok? {
      return Err(ShortBuffer);
    }
    var _ := pkt.Next(|name.value| + 2);
    var text := ReadUtf(pkt.buffer);
    if !text.Ok? {
      return Err(ShortBuffer);
    }
    var _ := pkt.Next(|text.value| + 2);
    return Ok(PairValue(name.value, text.value));
  }

  /// The UTF-8 Encoded String case.
  method ReadStringValue(pkt: Packet) returns (v: Result<Value>)
    modifies pkt`buffer
    ensures (v, |old(pkt.buffer)| - |pkt.buffer|) == ReadString(old(pkt.buffer))
    ensures pkt.buffer == old(pkt.buffer)[|old(pkt.buffer)| - |pkt.buffer|..]
  {
    var value := pkt.ReadString();
    if !value.Ok? {
      return Err(ShortBuffer);
    }
    return Ok(StringValue(value.value));
  }

  /// `readProperty`: reads the key byte, then dispatches on it; each case
  /// records the size its group of identifiers has.
  method ReadProperty(pkt: Packet) returns (r: Result<Property>)
    modifies pkt`buffer
    ensures r == PropertyStep(old(pkt.buffer)).0
    ensures pkt.buffer == old(pkt.buffer)[PropertyStep(old(pkt.buffer)).1..]
  {
    var pkey := pkt.ReadByte();
    if !pkey.Ok? {
      return Err(EndOfBuffer);
    }
    var key := pkey.value;
    var value: Result<Value>;
    if IsFourByteId(key) {
      value := ReadFourByteValue(pkt);
    } else if IsTwoByteId(key) {
      value := ReadTwoByteValue(pkt);
    } else if IsOneByteId(key) {
      value := ReadOneByteValue(pkt);
    } else if key == SubscriptionId {
      value := ReadVarByteValue(pkt);
    } else if key == UserProperty {
      value := ReadPairValue(pkt);
    } else if IsStringId(key) {
      value := ReadStringValue(pkt);
    } else {
      return Err(UnknownProperty);
    }
    return Keyed(key, value);
  }

  // ---------------------------------------------------------------------------
  // Round trips of the readers
  // ---------------------------------------------------------------------------

  lemma FourByteRoundTrip(n: u32, rest: Bytes)
    ensures ReadFourByte(Uint32Bytes(n) + rest) == (Ok(Uint32Value(n)), 4)
  {
    var b := Uint32Bytes(n) + rest;
    assert b[..4] == Uint32Bytes(n) + [];
    Uint32RoundTrip(n, []);
  }

  lemma TwoByteRoundTrip(n: u16, rest: Bytes)
    ensures ReadTwoByte(Uint16Bytes(n) + rest) == (Ok(Uint16Value(n)), 2)
  {
    var b := Uint16Bytes(n) + rest;
    assert b[..2] == Uint16Bytes(n) + [];
    Uint16RoundTrip(n, []);
  }

  lemma OneByteRoundTrip(x: byte, rest: Bytes)
    ensures ReadOneByte([x] + rest) == (Ok(ByteValue(x)), 1)
  {
    assert ([x] + rest)[0] == x;
  }

  lemma VarByteRoundTrip(n: nat, rest: Bytes)
    requires n <= MaxVarInt
    ensures ReadVarByte(VarIntBytes(n) + rest) == (Ok(VarIntValue(n)), EvalBytes(n))
  {
    VarIntRoundTrip(n, rest);
  }

  lemma StringRoundTrip(s: Bytes, rest: Bytes)
    requires |s| <= MaxString
    ensures ReadString(Utf(s) + rest) == (Ok(StringValue(s)), 2 + |s|)
  {
    UtfRoundTrip(s, rest);
  }

  lemma PairRoundTrip(k: Bytes, t: Bytes, rest: Bytes)
    requires |k| <= MaxString && |t| <= MaxString
    ensures ReadPair(Utf(k) + Utf(t) + rest) == (Ok(PairValue(k, t)), 4 + |k| + |t|)
  {
    var b := Utf(k) + Utf(t) + rest;
    assert b == Utf(k) + (Utf(t) + rest);
    UtfRoundTrip(k, Utf(t) + rest);
    assert b[2 + |k|..] == Utf(t) + rest;
    UtfRoundTrip(t, rest);
  }

  /// Each reader reads back the encoding of a value of its kind and consumes
  /// exactly that encoding.
  lemma ReadValueRoundTrip(v: Value, rest: Bytes)
    requires Encodable(v)
    ensures ReadValue(KindOf(v), EncodeValue(v) + rest) == (Ok(v), |EncodeValue(v)|)
  {
    match v
    case Uint32Value(n) => FourByteRoundTrip(n, rest);
    case Uint16Value(n) => TwoByteRoundTrip(n, rest);
    case ByteValue(x) => OneByteRoundTrip(x, rest);
    case VarIntValue(n) => VarByteRoundTrip(n, rest);
    case StringValue(s) => StringRoundTrip(s, rest);
    case PairValue(k, t) => PairRoundTrip(k, t, rest);
  }

  /// Encoding a well-formed property and decoding it gives it back and
  /// consumes exactly its encoding.
  lemma PropertyRoundTrip(p: Property, rest: Bytes)
    requires WellFormed(p)
    ensures PropertyStep(EncodeProperty(p) + rest) == (Ok(p), |EncodeProperty(p)|)
  {
    var buf := EncodeProperty(p) + rest;
    assert buf[0] == p.key && buf[1..] == EncodeValue(p.value) + rest;
    ReadValueRoundTrip(p.value, rest);
  }

  /// The other direction for the fixed-layout kinds: what a reader consumed
  /// is the encoding of the value it returned.  (A Variable Byte Integer
  /// need not be: see `NonCanonicalSubscriptionId`.)
  lemma ReadValueInverse(k: Kind, rest: Bytes)
    requires k != VarByte && ReadValue(k, rest).0.Ok?
    ensures rest[..ReadValue(k, rest).1] == EncodeValue(ReadValue(k, rest).0.value)
  {
    match k
    case FourByte =>
      ReadUint32Inverse(rest[..4]);
      assert rest[..4][..4] == rest[..4];
    case TwoByte =>
      ReadUint16Inverse(rest[..2]);
      assert rest[..2][..2] == rest[..2];
    case OneByte =>
    case Utf8 =>
      ReadUtfInverse(rest);
    case Utf8Pair =>
      var name := ReadUtf(rest).value;
      var n := 2 + |name|;
      ReadUtfInverse(rest);
      ReadUtfInverse(rest[n..]);
      var text := ReadUtf(rest[n..]).value;
      assert rest[..n + 2 + |text|] == rest[..n] + rest[n..][..2 + |text|];
  }

  /// Decoding then re-encoding a fixed-layout property gives back exactly
  /// the bytes `readProperty` consumed.
  lemma PropertyStepInverse(buf: Bytes)
    requires PropertyStep(buf).0.Ok? && !PropertyStep(buf).0.value.value.VarIntValue?
    ensures buf[..PropertyStep(buf).1] == EncodeProperty(PropertyStep(buf).0.value)
  {
    var k := DecodedKind(buf[0]).value;
    ReadValueInverse(k, buf[1..]);
    assert buf[..PropertyStep(buf).1] == [buf[0]] + buf[1..][..PropertyStep(buf).1 - 1];
  }

  /// A Subscription Identifier written in two bytes as `80 00` decodes to 0
  /// but consumes only one byte, leaving the `00` to be read as the next key.
  lemma NonCanonicalSubscriptionId()
    ensures PropertyStep([SubscriptionId, 0x80, 0x00]) == (Ok(Property(SubscriptionId, VarIntValue(0), 1)), 2)
  {
    var b: Bytes := [0x80, 0x00];
    assert b[1..] == [0x00];
    assert DecodeDigits(b[1..], 3) == Ok(0);
    assert DecodeVarint(b) == Ok(0);
    assert [SubscriptionId, 0x80, 0x00][1..] == b;
  }

  /// Any identifier outside the switch is "unknown property" after the key
  /// byte was consumed.
  lemma UnknownIdentifierFails(id: byte, rest: Bytes)
    requires DecodedKind(id).None?
    ensures PropertyStep([id] + rest) == (Err(UnknownProperty), 1)
  {
  }

  /// In particular a well-formed Assigned Client Identifier (18), Server Keep
  /// Alive (19) or Response Information (26) cannot be decoded.
  lemma DeclaredIdentifierRejected(p: Property, rest: Bytes)
    requires p.key in {AssignedClientIdentifier, ServerKeepAlive, ResponseInformation}
    requires StandardKind(p.key) == Some(KindOf(p.value)) && Encodable(p.value)
    ensures PropertyStep(EncodeProperty(p) + rest) == (Err(UnknownProperty), 1)
  {
    DecodedKindIsStandardMinusThree(p.key);
    UnknownIdentifierFails(p.key, EncodeValue(p.value) + rest);
    assert EncodeProperty(p) + rest == [p.key] + (EncodeValue(p.value) + rest);
  }

  // ---------------------------------------------------------------------------
  // readProperties (packet.go)
  // ---------------------------------------------------------------------------

  /// The loop of `readProperties`: it reads properties while more than
  /// `propsLen` bytes remain, appending them to `acc`.  Any error ends it
  /// with no list.  The second component is what is left unread.
  function DrainFrom(buf: Bytes, propsLen: nat, acc: seq<Property>): (Result<seq<Property>>, Bytes)
    decreases |buf|
  {
    if |buf| - propsLen <= 0 then (Ok(acc), buf)
    else
      var (p, n) := PropertyStep(buf);
      if p.Ok? then DrainFrom(buf[n..], propsLen, acc + [p.value]) else (Err(p.error), buf[n..])
  }

  /// `readProperties` on a buffer holding `buf`: the length varint, the check
  /// against what is left after it, then the loop.
  function ReadPropertiesSpec(buf: Bytes): (Result<seq<Property>>, Bytes)
  {
    var d := DecodeVarint(buf);
    if !d.Ok? then (Err(MalformedVarInt), buf)
    else
      var rest := buf[EvalBytes(d.value)..];
      if d.value > |rest| then (Err(InvalidLength), rest)
      else DrainFrom(rest, d.value, [])
  }

  /// `readProperties`.  `max` is the capacity of the list it allocates: a
  /// negative capacity panics before anything is read, and any other has no
  /// effect on the result.
  method ReadProperties(pkt: Packet, max: int) returns (r: Result<seq<Property>>)
    modifies pkt`buffer
    ensures max < 0 ==> r == Panic && pkt.buffer == old(pkt.buffer)
    ensures max >= 0 ==> (r, pkt.buffer) == ReadPropertiesSpec(old(pkt.buffer))
  {
    if max < 0 {
      return Panic;
    }
    var properties: seq<Property> := [];
    var propsLen := pkt.ReadVarint();
    if !propsLen.Ok? {
      return Err(MalformedVarInt);
    }
    if propsLen.value > |pkt.buffer| {
      return Err(InvalidLength);
    }
    while |pkt.buffer| - propsLen.value > 0
      invariant DrainFrom(pkt.buffer, propsLen.value, properties)
             == ReadPropertiesSpec(old(pkt.buffer))
      decreases |pkt.buffer|
    {
      var prop := ReadProperty(pkt);
      if !prop.Ok? {
        return Err(prop.error);
      }
      properties := properties + [prop.value];
    }
    return Ok(properties);
  }

  /// One turn of the loop, once `readProperty` has succeeded.
  lemma DrainStep(buf: Bytes, propsLen: nat, acc: seq<Property>, p: Property, n: nat)
    requires |buf| > propsLen && PropertyStep(buf) == (Ok(p), n)
    ensures DrainFrom(buf, propsLen, acc) == DrainFrom(buf[n..], propsLen, acc + [p])
  {
  }

  /// On success the loop has left at most `propsLen` bytes unread, and what
  /// it left is what followed the properties it read.
  lemma {:induction false} DrainLeavesAtMostDeclared(buf: Bytes, propsLen: nat, acc: seq<Property>)
    ensures var (r, left) := DrainFrom(buf, propsLen, acc);
      r.Ok? ==> |left| <= propsLen && |left| <= |buf| && left == buf[|buf| - |left|..]
    decreases |buf|
  {
    if |buf| - propsLen > 0 {
      var (p, n) := PropertyStep(buf);
      if p.Ok? {
        DrainStep(buf, propsLen, acc, p.value, n);
        DrainLeavesAtMostDeclared(buf[n..], propsLen, acc + [p.value]);
      }
    }
  }

  /// The loop only appends: the list it started with is a prefix of the result.
  lemma {:induction false} DrainExtends(buf: Bytes, propsLen: nat, acc: seq<Property>)
    ensures var (r, left) := DrainFrom(buf, propsLen, acc);
      r.Ok? ==> acc <= r.value
    decreases |buf|
  {
    if |buf| - propsLen > 0 {
      var (p, n) := PropertyStep(buf);
      if p.Ok? {
        DrainStep(buf, propsLen, acc, p.value, n);
        DrainExtends(buf[n..], propsLen, acc + [p.value]);
        assert acc == (acc + [p.value])[..|acc|];
      }
    }
  }

  /// Every property the loop appends is one the decoder's table knows, with
  /// the value type and size that table gives it.
  lemma {:induction false} DrainWellFormed(buf: Bytes, propsLen: nat, acc: seq<Property>)
    requires forall p <- acc :: WellFormed(p)
    ensures var (r, left) := DrainFrom(buf, propsLen, acc);
      r.Ok? ==> forall p <- r.value :: WellFormed(p)
    decreases |buf|
  {
    if |buf| - propsLen > 0 {
      var (p, n) := PropertyStep(buf);
      if p.Ok? {
        DrainStep(buf, propsLen, acc, p.value, n);
        DrainWellFormed(buf[n..], propsLen, acc + [p.value]);
      }
    }
  }

  lemma DropPrefix(a: Bytes, b: Bytes)
    ensures (a + b)[|a|..] == b
  {
  }

  lemma EncodeAllCons(ps: seq<Property>, tail: Bytes)
    requires ps != [] && forall p <- ps :: WellFormed(p)
    ensures WellFormed(ps[0]) && (forall p <- ps[1..] :: WellFormed(p))
    ensures EncodeAll(ps) + tail == EncodeProperty(ps[0]) + (EncodeAll(ps[1..]) + tail)
  {
    assert ps[0] in ps;
  }

  lemma AppendHead(acc: seq<Property>, ps: seq<Property>)
    requires ps != []
    ensures acc + [ps[0]] + ps[1..] == acc + ps
  {
  }

  /// A well-formed property in front of the bytes the loop would read next is
  /// decoded and appended.
  lemma DrainPrepend(p: Property, rest: Bytes, propsLen: nat, acc: seq<Property>)
    requires WellFormed(p) && |rest| >= propsLen
    ensures DrainFrom(EncodeProperty(p) + rest, propsLen, acc) == DrainFrom(rest, propsLen, acc + [p])
  {
    PropertyRoundTrip(p, rest);
    DropPrefix(EncodeProperty(p), rest);
    DrainStep(EncodeProperty(p) + rest, propsLen, acc, p, |EncodeProperty(p)|);
  }

  /// The inductive step of `DrainRoundTrip`.
  lemma DrainRoundTripStep(ps: seq<Property>, tail: Bytes, acc: seq<Property>)
    requires ps != [] && forall p <- ps :: WellFormed(p)
    requires forall p <- ps[1..] :: WellFormed(p)
    requires DrainFrom(EncodeAll(ps[1..]) + tail, |tail|, acc + [ps[0]]) == (Ok(acc + [ps[0]] + ps[1..]), tail)
    ensures DrainFrom(EncodeAll(ps) + tail, |tail|, acc) == (Ok(acc + ps), tail)
  {
    AppendHead(acc, ps);
    EncodeAllCons(ps, tail);
    DrainPrepend(ps[0], EncodeAll(ps[1..]) + tail, |tail|, acc);
  }

  /// The loop decodes a run of properties exactly when the bytes after them
  /// number `propsLen`: it consumes until `propsLen` bytes remain.
  lemma {:induction false} DrainRoundTrip(ps: seq<Property>, tail: Bytes, acc: seq<Property>)
    requires forall p <- ps :: WellFormed(p)
    ensures DrainFrom(EncodeAll(ps) + tail, |tail|, acc) == (Ok(acc + ps), tail)
    decreases |ps|
  {
    if ps == [] {
      assert EncodeAll(ps) + tail == tail;
      assert acc + ps == acc;
    } else {
      assert forall p <- ps[1..] :: p in ps;
      DrainRoundTrip(ps[1..], tail, acc + [ps[0]]);
      DrainRoundTripStep(ps, tail, acc);
    }
  }

  /// After a well-formed length prefix `n`, `readProperties` is the loop
  /// with `propsLen == n`, or the length error when fewer than `n` bytes follow.
  lemma ReadPropertiesAfterLength(n: nat, rest: Bytes)
    requires n <= MaxVarInt
    ensures ReadPropertiesSpec(VarIntBytes(n) + rest)
         == if n > |rest| then (Err(InvalidLength), rest) else DrainFrom(rest, n, [])
  {
    VarIntRoundTrip(n, rest);
    assert (VarIntBytes(n) + rest)[EvalBytes(n)..] == rest;
  }

  /// Consequently `readProperties` returns the properties of a block when as
  /// many bytes follow the block as it declares, and leaves those bytes
  /// unread.
  lemma ReadPropertiesDecodesUntilDeclaredLengthRemains(ps: seq<Property>, tail: Bytes)
    requires forall p <- ps :: WellFormed(p)
    requires |tail| <= MaxVarInt
    ensures ReadPropertiesSpec(VarIntBytes(|tail|) + (EncodeAll(ps) + tail)) == (Ok(ps), tail)
  {
    ReadPropertiesAfterLength(|tail|, EncodeAll(ps) + tail);
    DrainRoundTrip(ps, tail, []);
    assert [] + ps == ps;
  }

  /// The loop stops once at most `propsLen` bytes remain, so it may read
  /// past the end of the declared block: with a declared length of 2, the
  /// property `01 05` is decoded although only the byte 7 follows it.
  lemma ReadPropertiesOvershootsBlock()
    ensures ReadPropertiesSpec([2, 1, 5, 7]) == (Ok([Property(1, ByteValue(5), 1)]), [7])
  {
    var buf: Bytes := [2, 1, 5, 7];
    assert DecodeDigits(buf, 4) == Ok(2);
    assert buf[1..] == [1, 5, 7];
    assert PropertyStep([1, 5, 7]) == (Ok(Property(1, ByteValue(5), 1)), 2);
    assert [1, 5, 7][2..] == [7];
    var p := Property(1, ByteValue(5), 1);
    assert [] + [p] == [p];
    assert DrainFrom([1, 5, 7], 2, []) == DrainFrom([7], 2, [p]) == (Ok([p]), [7]);
    assert DecodeVarint(buf) == Ok(2);
    assert ReadPropertiesSpec(buf) == DrainFrom([1, 5, 7], 2, []);
  }

  /// A property block that ends the buffer is never decoded: the loop
  /// condition is already false and the block is left unread.
  lemma ReadPropertiesSkipsFinalBlock(block: Bytes)
    requires |block| <= MaxVarInt
    ensures ReadPropertiesSpec(VarIntBytes(|block|) + block) == (Ok([]), block)
  {
    ReadPropertiesAfterLength(|block|, block);
  }

  /// A declared length larger than the bytes left after the varint fails.
  lemma ReadPropertiesRejectsOverlongBlock(n: nat, block: Bytes)
    requires |block| < n <= MaxVarInt
    ensures ReadPropertiesSpec(VarIntBytes(n) + block) == (Err(InvalidLength), block)
  {
    ReadPropertiesAfterLength(n, block);
  }

  /// Whatever `readProperties` returns successfully consists of properties
  /// the decoder's table knows, and leaves at most the declared length unread.
  lemma ReadPropertiesOutcome(buf: Bytes)
    ensures var (r, left) := ReadPropertiesSpec(buf);
      r.Ok? ==>
        && (forall p <- r.value :: WellFormed(p))
        && |left| <= |buf| && left == buf[|buf| - |left|..]
        && DecodeVarint(buf).Ok? && |left| <= DecodeVarint(buf).value
  {
    var d := DecodeVarint(buf);
    if d.Ok? {
      var rest := buf[EvalBytes(d.value)..];
      if d.value <= |rest| {
        DrainWellFormed(rest, d.value, []);
        DrainLeavesAtMostDeclared(rest, d.value, []);
      }
    }
  }

  // ---------------------------------------------------------------------------
  // NewProperty: the encoder the packet builders use
  // ---------------------------------------------------------------------------

  /// `Prop`: an identifier with its already encoded value.
  datatype Prop = Prop(key: byte, value: Bytes)

  /// `NewProperty`: encodes the value by its type; fails on a string or
  /// integer the wire format cannot carry.
  function NewProperty(key: byte, v: Value): (r: Result<Prop>)
    ensures r.Ok? <==> Encodable(v)
    ensures !r.Ok? ==> r == Err(if v.VarIntValue? then VarIntTooLarge else StringTooLong)
    ensures r.Ok? ==> r.value.key == key && |r.value.value| == PrefixBytes(v) + RecordedSize(v)
  {
    if Encodable(v) then Ok(Prop(key, EncodeValue(v)))
    else Err(if v.VarIntValue? then VarIntTooLarge else StringTooLong)
  }

  /// The bytes the packet builders write for a list of `Prop`s: each key
  /// followed by its encoded value, in order.
  function PropBlock(ps: seq<Prop>): (r: Bytes)
  {
    if ps == [] then [] else PropBlock(ps[..|ps| - 1]) + [ps[|ps| - 1].key] + ps[|ps| - 1].value
  }

  /// The loop the packet builders share: each property's key byte, then its
  /// encoded value, appended to the buffer.
  method WriteProps(props: seq<Prop>) returns (buf: Bytes)
    ensures buf == PropBlock(props)
  {
    buf := [];
    for i := 0 to |props|
      invariant buf == PropBlock(props[..i])
    {
      assert props[..i + 1][..i] == props[..i];
      buf := buf + [props[i].key];
      buf := buf + props[i].value;
    }
    assert props[..|props|] == props;
  }

  /// What `NewProperty` writes, `readProperty` reads back, whenever the
  /// identifier's switch group matches the value's type.
  lemma NewPropertyDecodes(key: byte, v: Value, rest: Bytes)
    requires NewProperty(key, v).Ok? && DecodedKind(key) == Some(KindOf(v))
    ensures PropertyStep([key] + NewProperty(key, v).value.value + rest)
         == (Ok(Property(key, v, RecordedSize(v))), 1 + |NewProperty(key, v).value.value|)
  {
    PropertyRoundTrip(Property(key, v, RecordedSize(v)), rest);
  }
}
