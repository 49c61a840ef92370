/// The CONNECT builder, the CONNACK parser and the reason-code table of
/// connect.go (sections 3.1 and 3.2 of MQTT Version 5.0).
module Connect {
  import opened Wire
  import opened Framing
  import opened Properties

  // ---------------------------------------------------------------------------
  // Reason codes (section 3.2.2.2)
  // ---------------------------------------------------------------------------

  /// The reason codes the client names (section 3.2.2.2).
  const NamedCodes: set<byte> := {
    0x81, 0x82, 0x83, 0x84, 0x85, 0x86, 0x87, 0x88, 0x89, 0x8a,
    0x8c, 0x90, 0x95, 0x97, 0x99, 0x9a, 0x9b, 0x9c, 0x9d, 0x9f
  }

  /// `parseReasonCode`: the switch over the reason codes.
  function ParseReasonCode(code: byte): string
  {
    match code
    case 0x81 => "Malformed Packet"
    case 0x82 => "Protocol Error"
    case 0x83 => "Implementation Error"
    case 0x84 => "Unsupported Protocol Version"
    case 0x85 => "Invalid Client ID"
    case 0x86 => "Bad Creadentials"
    case 0x87 => "Not Authorized"
    case 0x88 => "Server Unavailable"
    case 0x89 => "Server Busy"
    case 0x8a => "Banned"
    case 0x8c => "Bad Authentication Method"
    case 0x90 => "Invalid Topic"
    case 0x95 => "Packet Too Large"
    case 0x97 => "Quota Exceeded"
    case 0x99 => "Payload Format Invalid"
    case 0x9a => "Retain Not Supported"
    case 0x9b => "QoS Not Supported"
    case 0x9c => "User Another Server"
    case 0x9d => "Server Moved"
    case 0x9f => "Connection Rate Exceeded"
    case _ => "Unspecified Error"
  }

  /// The switch gives every code it does not name, Success (0x00) included,
  /// "Unspecified Error" and no named code that text; two different named
  /// codes never share a text, so the description identifies the code.
  lemma ReasonCodeTable(code: byte, other: byte)
    ensures code !in NamedCodes <==> ParseReasonCode(code) == "Unspecified Error"
    ensures code in NamedCodes && other != code ==> ParseReasonCode(other) != ParseReasonCode(code)
  {
  }

  // ---------------------------------------------------------------------------
  // CONNECT (section 3.1)
  // ---------------------------------------------------------------------------

  /// `credential`: the authentication method and the optional user name and
  /// password.
  datatype Credential = Credential(authMethod: Bytes, usr: Option<Bytes>, pwd: Option<Bytes>)

  /// Protocol Name "MQTT" as a UTF-8 string, then Protocol Version 5.
  const ProtocolHeader: Bytes := [0x00, 0x04, 0x4D, 0x51, 0x54, 0x54, 0x05]

  /// `QoSFlag`: the Will QoS bits of the Connect Flags.
  const QoSFlag: bv8 := 0x18
  const UserNameFlag: bv8 := 0x80
  const PasswordFlag: bv8 := 0x40

  function UserName(creds: Option<Credential>): Option<Bytes>
  {
    if creds.Some? then creds.value.usr else None
  }

  function Password(creds: Option<Credential>): Option<Bytes>
  {
    if creds.Some? then creds.value.pwd else None
  }

  /// Every string `buildConnect` writes fits a UTF-8 string's length prefix.
  predicate ConnectFits(cid: Bytes, creds: Option<Credential>)
  {
    && |cid| <= MaxString
    && (creds.Some? ==> |creds.value.authMethod| <= MaxString)
    && (UserName(creds).Some? ==> |UserName(creds).value| <= MaxString)
    && (Password(creds).Some? ==> |Password(creds).value| <= MaxString)
  }

  /// A UTF-8 string when present, nothing otherwise.
  function OptionalUtf(s: Option<Bytes>): (r: Bytes)
    requires s.Some? ==> |s.value| <= MaxString
    ensures |r| == if s.Some? then 2 + |s.value| else 0
  {
    if s.Some? then Utf(s.value) else []
  }

  /// The properties `buildConnect` collects: Session Expiry Interval when it
  /// is non-zero, then Authentication Method when there are credentials.
  function ConnectProps(creds: Option<Credential>, sessionExpiry: u32): seq<Prop>
    requires creds.Some? ==> |creds.value.authMethod| <= MaxString
  {
    (if sessionExpiry > 0 then [Prop(SessionExpiryInterval, Uint32Bytes(sessionExpiry))] else [])
    + (if creds.Some? then [Prop(AuthenticationMethod, Utf(creds.value.authMethod))] else [])
  }

  /// The length of a CONNECT's property block.
  lemma ConnectPropLength(creds: Option<Credential>, sessionExpiry: u32)
    requires creds.Some? ==> |creds.value.authMethod| <= MaxString
    ensures |PropBlock(ConnectProps(creds, sessionExpiry))|
         == (if sessionExpiry > 0 then 5 else 0) + (if creds.Some? then 3 + |creds.value.authMethod| else 0)
  {
    ConnectPropBlock(creds, sessionExpiry);
  }

  /// The property block of a CONNECT, byte by byte.
  lemma ConnectPropBlock(creds: Option<Credential>, sessionExpiry: u32)
    requires creds.Some? ==> |creds.value.authMethod| <= MaxString
    ensures PropBlock(ConnectProps(creds, sessionExpiry))
         == (if sessionExpiry > 0 then [SessionExpiryInterval] + Uint32Bytes(sessionExpiry) else [])
          + (if creds.Some? then [AuthenticationMethod] + Utf(creds.value.authMethod) else [])
  {
    var ps := ConnectProps(creds, sessionExpiry);
    if |ps| == 2 {
      assert ps[..1] == [ps[0]] && ps[..1][..0] == [];
      assert PropBlock(ps[..1]) == [ps[0].key] + ps[0].value;
    } else if |ps| == 1 {
      assert ps[..0] == [];
      assert PropBlock(ps) == [ps[0].key] + ps[0].value;
    }
  }

  /// The Connect Flags byte: the Will QoS bits of `qos` when it is non-zero,
  /// toggled by the User Name and Password bits.
  function ConnectFlag(creds: Option<Credential>, qos: byte): bv8
  {
    var q: bv8 := if qos > 0 then (qos as bv8) & QoSFlag else 0;
    var u := if UserName(creds).Some? then q ^ UserNameFlag else q;
    if Password(creds).Some? then u ^ PasswordFlag else u
  }

  /// Bit 7 is set exactly when there is a user name, bit 6 exactly when there
  /// is a password; with neither and QoS 0 the byte is zero.
  lemma ConnectFlagBits(creds: Option<Credential>, qos: byte)
    ensures ConnectFlag(creds, qos) & 0x80 != 0 <==> UserName(creds).Some?
    ensures ConnectFlag(creds, qos) & 0x40 != 0 <==> Password(creds).Some?
    ensures ConnectFlag(creds, qos) & 0x01 == 0
    ensures creds.None? && qos == 0 ==> ConnectFlag(creds, qos) == 0
  {
    var q: bv8 := if qos > 0 then (qos as bv8) & QoSFlag else 0;
    assert q & 0xC1 == 0;
  }

  /// The remaining length as `buildConnect` accumulates it in `n`: seven for
  /// the protocol name and version, the user name and password once when
  /// written and once more at the end, one for the flags, two for keep-alive,
  /// the property bytes once in the loop and once more after it, then the
  /// client identifier.
  function CountedLength(props: nat, id: nat, usr: nat, pwd: nat): nat
  {
    10 + 2 * props + id + 2 * (usr + pwd)
  }

  /// The remaining length `buildConnect` writes for a request that fits.
  function ConnectCount(cid: Bytes, creds: Option<Credential>, sessionExpiry: u32): nat
    requires ConnectFits(cid, creds)
  {
    CountedLength(|PropBlock(ConnectProps(creds, sessionExpiry))|, 2 + |cid|,
                  |OptionalUtf(UserName(creds))|, |OptionalUtf(Password(creds))|)
  }

  /// The number of bytes that actually follow the remaining length: the
  /// variable header with its property length and properties, then the
  /// payload (section 3.1.1).
  function SentLength(cid: Bytes, creds: Option<Credential>, sessionExpiry: u32): nat
    requires ConnectFits(cid, creds)
  {
    var p := |PropBlock(ConnectProps(creds, sessionExpiry))|;
    10 + EvalBytes(p) + p + 2 + |cid| + |OptionalUtf(UserName(creds))| + |OptionalUtf(Password(creds))|
  }

  /// `buildConnect`'s output, or the error of the first string too long to
  /// write.
  function ConnectPacket(cid: Bytes, keepAlive: u16, creds: Option<Credential>, qos: byte, sessionExpiry: u32)
    : (r: Result<Bytes>)
    ensures r.Ok? <==> ConnectFits(cid, creds)
    ensures !r.Ok? ==> r == Err(StringTooLong)
  {
    if !ConnectFits(cid, creds) then Err(StringTooLong)
    else
      ConnectPropLength(creds, sessionExpiry);
      var n := ConnectCount(cid, creds, sessionExpiry);
      Ok([ConnectCmd] + (VarIntBytes(n) + ConnectBody(cid, keepAlive, creds, qos, sessionExpiry)))
  }

  /// What follows the remaining length in a CONNECT: protocol name and
  /// version, flags and keep-alive, then the property length and properties,
  /// the client identifier, the user name and the password.
  function ConnectBody(cid: Bytes, keepAlive: u16, creds: Option<Credential>, qos: byte, sessionExpiry: u32): Bytes
    requires ConnectFits(cid, creds)
  {
    var pb := PropBlock(ConnectProps(creds, sessionExpiry));
    ConnectPropLength(creds, sessionExpiry);
    ProtocolHeader + [ConnectFlag(creds, qos) as byte] + Uint16Bytes(keepAlive)
      + (VarIntBytes(|pb|) + (pb + ConnectPayloadBytes(cid, creds)))
  }

  /// The payload of a CONNECT: client identifier, then user name and
  /// password when present (section 3.1.3).
  function ConnectPayloadBytes(cid: Bytes, creds: Option<Credential>): Bytes
    requires ConnectFits(cid, creds)
  {
    Utf(cid) + (OptionalUtf(UserName(creds)) + OptionalUtf(Password(creds)))
  }

  /// What `buildConnect` gathers before its variable header is complete: the
  /// properties, the Connect Flags and the encoded user name and password.
  datatype ConnectFields = ConnectFields(props: seq<Prop>, flag: bv8, usr: Bytes, pwd: Bytes)

  /// The first part of `buildConnect`: the QoS bits, the Session Expiry and
  /// Authentication Method properties, and the credential strings, each of
  /// which may be too long to write.
  method CollectConnectFields(creds: Option<Credential>, qos: byte, sessionExpiry: u32)
    returns (r: Result<ConnectFields>)
    ensures r.Ok? <==> ConnectFits([], creds)
    ensures !r.Ok? ==> r == Err(StringTooLong)
    ensures r.Ok? ==> r.value == ConnectFields(ConnectProps(creds, sessionExpiry), ConnectFlag(creds, qos),
                                               OptionalUtf(UserName(creds)), OptionalUtf(Password(creds)))
  {
    var usrBuff: Bytes := [];
    var pwdBuff: Bytes := [];
    var props: seq<Prop> := [];
    var flag: bv8 := 0;
    if qos > 0 {
      flag := flag ^ ((qos as bv8) & QoSFlag);
    }
    if sessionExpiry > 0 {
      // A Four Byte Integer always encodes, so this `NewProperty` cannot fail.
      var se := NewProperty(SessionExpiryInterval, Uint32Value(sessionExpiry)).value;
      props := props + [se];
    }
    if creds.Some? {
      var authProp := NewProperty(AuthenticationMethod, StringValue(creds.value.authMethod));
      if !authProp.Ok? {
        return Err(authProp.error);
      }
      props := props + [authProp.value];
      if creds.value.usr.Some? {
        flag := flag ^ UserNameFlag;
        var u := WriteUtf(creds.value.usr.value);
        if !u.Ok? {
          return Err(u.error);
        }
        usrBuff := u.value;
      }
      if creds.value.pwd.Some? {
        flag := flag ^ PasswordFlag;
        var w := WriteUtf(creds.value.pwd.value);
        if !w.Ok? {
          return Err(w.error);
        }
        pwdBuff := w.value;
      }
    }
    return Ok(ConnectFields(props, flag, usrBuff, pwdBuff));
  }

  /// `buildConnect`: fills the variable-header, property, identifier and
  /// credential buffers, counting the remaining length in `n` as it goes,
  /// then concatenates them behind the command byte.
  method BuildConnect(cid: Bytes, keepAlive: u16, creds: Option<Credential>, qos: byte, sessionExpiry: u32)
    returns (r: Result<Bytes>)
    ensures r == ConnectPacket(cid, keepAlive, creds, qos, sessionExpiry)
  {
    var msg: Bytes := [ConnectCmd];
    var vhBuff: Bytes := ProtocolHeader;
    var n := |ProtocolHeader|;
    var fields := CollectConnectFields(creds, qos, sessionExpiry);
    if !fields.Ok? {
      return Err(fields.error);
    }
    var ConnectFields(props, flag, usrBuff, pwdBuff) := fields.value;
    n := n + |usrBuff| + |pwdBuff|;
    vhBuff := vhBuff + [flag as byte];
    n := n + 1;
    vhBuff := vhBuff + Uint16Bytes(keepAlive);
    n := n + 2;

    var propBuff := WriteProps(props);
    n := n + |propBuff|;
    ConnectPropLength(creds, sessionExpiry);
    // At most 5 + 3 + 65,535 property bytes: the length always encodes.
    var propLenBuff := EncodeVarInt(|propBuff|).value;
    n := n + |propBuff|;

    var idBuff := WriteUtf(cid);
    if !idBuff.Ok? {
      return Err(idBuff.error);
    }
    n := n + |idBuff.value|;
    if |usrBuff| > 0 {
      n := n + |usrBuff|;
    }
    if |pwdBuff| > 0 {
      n := n + |pwdBuff|;
    }
    // Every string is at most 65,535 bytes, so `n` always encodes.
    var lenBuff := EncodeVarInt(n).value;
    assert n == CountedLength(|propBuff|, |idBuff.value|, |usrBuff|, |pwdBuff|);
    assert ConnectFits(cid, creds);
    assert n == ConnectCount(cid, creds, sessionExpiry) && lenBuff == VarIntBytes(n);
    assert vhBuff + (propLenBuff + (propBuff + (idBuff.value + (usrBuff + pwdBuff))))
        == ConnectBody(cid, keepAlive, creds, qos, sessionExpiry);
    var whole := lenBuff + (vhBuff + (propLenBuff + (propBuff + (idBuff.value + (usrBuff + pwdBuff)))));
    msg := msg + whole;
    return Ok(msg);
  }

  /// The properties of a CONNECT as the client's own decoder sees them.
  function ConnectProperties(creds: Option<Credential>, sessionExpiry: u32): seq<Property>
    requires creds.Some? ==> |creds.value.authMethod| <= MaxString
  {
    (if sessionExpiry > 0 then [Property(SessionExpiryInterval, Uint32Value(sessionExpiry), 4)] else [])
    + (if creds.Some? then
         [Property(AuthenticationMethod, StringValue(creds.value.authMethod), |creds.value.authMethod|)]
       else [])
  }

  /// The property block is the encoding of Session Expiry Interval (when
  /// non-zero) followed by Authentication Method (when there are
  /// credentials), each a property the client's own decoder knows.
  lemma ConnectPropertiesEncode(creds: Option<Credential>, sessionExpiry: u32)
    requires creds.Some? ==> |creds.value.authMethod| <= MaxString
    ensures forall p <- ConnectProperties(creds, sessionExpiry) :: WellFormed(p)
    ensures PropBlock(ConnectProps(creds, sessionExpiry)) == EncodeAll(ConnectProperties(creds, sessionExpiry))
  {
    ConnectPropBlock(creds, sessionExpiry);
    var ps := ConnectProperties(creds, sessionExpiry);
    var se := Property(SessionExpiryInterval, Uint32Value(sessionExpiry), 4);
    if creds.Some? {
      var am := Property(AuthenticationMethod, StringValue(creds.value.authMethod), |creds.value.authMethod|);
      assert EncodeProperty(am) == [AuthenticationMethod] + Utf(creds.value.authMethod);
      if sessionExpiry > 0 {
        assert ps == [se, am];
        EncodeAllOfTwo(se, am);
      } else {
        assert ps == [am];
        EncodeAllOfOne(am);
      }
    } else if sessionExpiry > 0 {
      assert ps == [se];
      EncodeAllOfOne(se);
    }
  }

  /// The encoding of a single well-formed property.
  lemma EncodeAllOfOne(a: Property)
    requires WellFormed(a)
    ensures EncodeAll([a]) == EncodeProperty(a)
  {
    assert [a][1..] == [];
  }

  /// The encoding of two well-formed properties.
  lemma EncodeAllOfTwo(a: Property, b: Property)
    requires WellFormed(a) && WellFormed(b)
    ensures EncodeAll([a, b]) == EncodeProperty(a) + EncodeProperty(b)
  {
    assert [a, b][1..] == [b];
    EncodeAllOfOne(b);
  }

  /// The property loop reads exactly those properties back.
  lemma ConnectPropertiesDecode(creds: Option<Credential>, sessionExpiry: u32, tail: Bytes)
    requires creds.Some? ==> |creds.value.authMethod| <= MaxString
    ensures DrainFrom(PropBlock(ConnectProps(creds, sessionExpiry)) + tail, |tail|, [])
         == (Ok(ConnectProperties(creds, sessionExpiry)), tail)
  {
    ConnectPropertiesEncode(creds, sessionExpiry);
    var ps := ConnectProperties(creds, sessionExpiry);
    DrainRoundTrip(ps, tail, []);
    assert [] + ps == ps;
  }

  /// A CONNECT is its command byte, then the remaining length as
  /// `buildConnect` counts it, then the body; the body is `SentLength` bytes.
  lemma ConnectPacketFrame(cid: Bytes, keepAlive: u16, creds: Option<Credential>, qos: byte, sessionExpiry: u32)
    requires ConnectFits(cid, creds)
    ensures var r := ConnectPacket(cid, keepAlive, creds, qos, sessionExpiry).value;
      var h := 1 + EvalBytes(ConnectCount(cid, creds, sessionExpiry));
      && |r| == h + SentLength(cid, creds, sessionExpiry)
      && r[0] == ConnectCmd
      && DecodeVarint(r[1..]) == Ok(ConnectCount(cid, creds, sessionExpiry))
      && r[h..] == ConnectBody(cid, keepAlive, creds, qos, sessionExpiry)
  {
    ConnectPropLength(creds, sessionExpiry);
    var n := ConnectCount(cid, creds, sessionExpiry);
    var body := ConnectBody(cid, keepAlive, creds, qos, sessionExpiry);
    var r := [ConnectCmd] + (VarIntBytes(n) + body);
    DropPrefix([ConnectCmd], VarIntBytes(n) + body);
    VarIntRoundTrip(n, body);
    DropPrefix(VarIntBytes(n), body);
    assert r[1 + EvalBytes(n)..] == r[1..][EvalBytes(n)..];
  }

  /// Reading back a variable header laid out as `buildConnect` lays it out:
  /// protocol name and version, flags, keep-alive, property length and
  /// properties, then whatever follows.
  lemma VariableHeaderFields(flag: byte, keepAlive: u16, pb: Bytes, payload: Bytes)
    requires |pb| <= MaxVarInt
    ensures var b := ProtocolHeader + [flag] + Uint16Bytes(keepAlive) + (VarIntBytes(|pb|) + (pb + payload));
      var e := EvalBytes(|pb|);
      && |b| == 10 + e + |pb| + |payload|
      && b[..7] == ProtocolHeader
      && b[7] == flag
      && ReadUint16(b[8..]) == Ok(keepAlive)
      && DecodeVarint(b[10..]) == Ok(|pb|)
      && b[10 + e..10 + e + |pb|] == pb
      && b[10 + e + |pb|..] == payload
  {
    var header := ProtocolHeader + [flag] + Uint16Bytes(keepAlive);
    var t1 := pb + payload;
    var t0 := VarIntBytes(|pb|) + t1;
    var b := header + t0;
    assert b[..7] == ProtocolHeader;
    assert b[8..][..2] == Uint16Bytes(keepAlive);
    ReadUint16Prefix(b[8..]);
    Uint16RoundTrip(keepAlive, []);
    assert Uint16Bytes(keepAlive) + [] == Uint16Bytes(keepAlive);
    DropPrefix(header, t0);
    VarIntRoundTrip(|pb|, t1);
    DropPrefix(VarIntBytes(|pb|), t1);
    var e := EvalBytes(|pb|);
    assert b[10 + e..] == t1;
    DropPrefix(pb, payload);
    assert b[10 + e..10 + e + |pb|] == b[10 + e..][..|pb|];
  }

  /// The variable header of a CONNECT read back: protocol name and version,
  /// the flags, the keep-alive, the property length and the property block,
  /// followed by the payload.
  lemma ConnectVariableHeader(cid: Bytes, keepAlive: u16, creds: Option<Credential>, qos: byte, sessionExpiry: u32)
    requires ConnectFits(cid, creds)
    ensures var b := ConnectBody(cid, keepAlive, creds, qos, sessionExpiry);
      var pb := PropBlock(ConnectProps(creds, sessionExpiry));
      var e := EvalBytes(|pb|);
      && |b| == 10 + e + |pb| + |ConnectPayloadBytes(cid, creds)|
      && b[..7] == ProtocolHeader
      && b[7] == ConnectFlag(creds, qos) as byte
      && ReadUint16(b[8..]) == Ok(keepAlive)
      && DecodeVarint(b[10..]) == Ok(|pb|)
      && b[10 + e..10 + e + |pb|] == pb
      && b[10 + e + |pb|..] == ConnectPayloadBytes(cid, creds)
  {
    ConnectPropLength(creds, sessionExpiry);
    VariableHeaderFields(ConnectFlag(creds, qos) as byte, keepAlive,
                         PropBlock(ConnectProps(creds, sessionExpiry)), ConnectPayloadBytes(cid, creds));
  }

  /// The payload of a CONNECT read back: the client identifier, then the
  /// user name and the password when present, which end the packet.
  lemma ConnectPayload(cid: Bytes, creds: Option<Credential>)
    requires ConnectFits(cid, creds)
    ensures var p := ConnectPayloadBytes(cid, creds);
      var u := 2 + |cid|;
      var w := u + |OptionalUtf(UserName(creds))|;
      && ReadUtf(p) == Ok(cid)
      && (UserName(creds).Some? ==> ReadUtf(p[u..]) == Ok(UserName(creds).value))
      && (Password(creds).Some? ==> ReadUtf(p[w..]) == Ok(Password(creds).value))
      && w + |OptionalUtf(Password(creds))| == |p|
  {
    var uu := OptionalUtf(UserName(creds));
    var ww := OptionalUtf(Password(creds));
    UtfRoundTrip(cid, uu + ww);
    if UserName(creds).Some? {
      SecondString(Utf(cid), UserName(creds).value, ww);
    }
    if Password(creds).Some? {
      LastString(Utf(cid), uu, Password(creds).value);
    }
  }

  /// A string written after `a` reads back from where `a` ends.
  lemma SecondString(a: Bytes, u: Bytes, rest: Bytes)
    requires |u| <= MaxString
    ensures ReadUtf((a + (Utf(u) + rest))[|a|..]) == Ok(u)
  {
    DropPrefix(a, Utf(u) + rest);
    UtfRoundTrip(u, rest);
  }

  /// A string written last, after `a` and `b`, reads back from where `b` ends.
  lemma LastString(a: Bytes, b: Bytes, w: Bytes)
    requires |w| <= MaxString
    ensures ReadUtf((a + (b + Utf(w)))[|a| + |b|..]) == Ok(w)
  {
    assert (a + (b + Utf(w)))[|a| + |b|..] == Utf(w) + [];
    UtfRoundTrip(w, []);
  }

  /// The remaining length `buildConnect` writes exceeds the bytes that follow
  /// it by the property bytes, the user name and the password (counted twice)
  /// less the property-length varint (never counted); it is never right.
  lemma ConnectLengthMiscount(cid: Bytes, creds: Option<Credential>, sessionExpiry: u32)
    requires ConnectFits(cid, creds)
    ensures var p := |PropBlock(ConnectProps(creds, sessionExpiry))|;
      ConnectCount(cid, creds, sessionExpiry) - SentLength(cid, creds, sessionExpiry)
        == p + |OptionalUtf(UserName(creds))| + |OptionalUtf(Password(creds))| - EvalBytes(p)
    ensures ConnectCount(cid, creds, sessionExpiry) != SentLength(cid, creds, sessionExpiry)
    ensures creds.None? && sessionExpiry == 0 ==>
      ConnectCount(cid, creds, sessionExpiry) + 1 == SentLength(cid, creds, sessionExpiry)
  {
    ConnectPropLength(creds, sessionExpiry);
  }

  /// The smallest CONNECT: client "dev1", keep-alive 60, no credentials, QoS 0
  /// and no session expiry.  It declares 16 remaining bytes and sends 17.
  lemma ConnectDev1()
    ensures ConnectPacket([0x64, 0x65, 0x76, 0x31], 60, None, 0, 0)
         == Ok([0x10, 16, 0x00, 0x04, 0x4D, 0x51, 0x54, 0x54, 0x05, 0x00, 0x00, 60,
                0x00, 0x00, 0x04, 0x64, 0x65, 0x76, 0x31])
  {
    var cid: Bytes := [0x64, 0x65, 0x76, 0x31];
    ConnectDev1Body();
    assert VarIntBytes(16) == [16];
    ConnectDev1Assemble(ConnectBody(cid, 60, None, 0, 0));
  }

  lemma ConnectDev1Assemble(body: Bytes)
    requires body == [0x00, 0x04, 0x4D, 0x51, 0x54, 0x54, 0x05, 0x00, 0x00, 60, 0x00, 0x00, 0x04, 0x64, 0x65, 0x76, 0x31]
    ensures [ConnectCmd] + ([16] + body)
         == [0x10, 16, 0x00, 0x04, 0x4D, 0x51, 0x54, 0x54, 0x05, 0x00, 0x00, 60,
             0x00, 0x00, 0x04, 0x64, 0x65, 0x76, 0x31]
  {
  }

  /// The remaining length and the body of `ConnectDev1`'s packet.
  lemma ConnectDev1Body()
    ensures ConnectFits([0x64, 0x65, 0x76, 0x31], None)
    ensures ConnectCount([0x64, 0x65, 0x76, 0x31], None, 0) == 16
    ensures ConnectBody([0x64, 0x65, 0x76, 0x31], 60, None, 0, 0)
         == [0x00, 0x04, 0x4D, 0x51, 0x54, 0x54, 0x05, 0x00, 0x00, 60, 0x00, 0x00, 0x04, 0x64, 0x65, 0x76, 0x31]
  {
    var cid: Bytes := [0x64, 0x65, 0x76, 0x31];
    ConnectPropBlock(None, 0);
    assert PropBlock(ConnectProps(None, 0)) == [];
    assert VarIntBytes(0) == [0];
    assert Uint16Bytes(60) == [0, 60];
    assert Uint16Bytes(4) == [0, 4];
    assert ConnectPayloadBytes(cid, None) == [0, 4] + cid;
    assert ConnectFlag(None, 0) == 0;
  }

  // ---------------------------------------------------------------------------
  // CONNACK (section 3.2)
  // ---------------------------------------------------------------------------

  /// `connackResponse`.
  datatype ConnackResponse = ConnackResponse(
    code: byte, description: string, reason: Bytes, assignedID: Bytes,
    serverExpiry: u16, serverKeepAlive: u16)

  /// The property identifiers `readConnack`'s switch names: Session Expiry
  /// Interval, Receive Maximum, Maximum QoS, Maximum Packet Size, Assigned
  /// Client Identifier, Reason String, Server Keep Alive, Authentication
  /// Method.
  predicate IsConnackId(id: byte)
  {
    id == 0x11 || id == 0x21 || id == 0x24 || id == 0x27 || id == 0x12 || id == 0x1f || id == 0x13 || id == 0x15
  }

  /// The identifiers whose value `readConnack` keeps.
  predicate IsKeptConnackId(id: byte)
  {
    id == 0x11 || id == 0x12 || id == 0x1f || id == 0x13
  }

  /// One turn of `readConnack`'s property loop at `cursor`: the new cursor
  /// and response.  Indexing past the buffer panics; a value cut short by the
  /// end of the buffer is an error.
  function ConnackStep(b: Bytes, cursor: nat, cr: ConnackResponse): (r: Result<(nat, ConnackResponse)>)
    ensures r.Ok? ==> cursor < r.value.0 <= |b|
    ensures r.Ok? ==> r.value.1.code == cr.code && r.value.1.description == cr.description
    ensures r.Ok? && !IsKeptConnackId(b[cursor]) ==> r.value.1 == cr
    ensures cursor < |b| && !IsConnackId(b[cursor]) ==> r == Ok((cursor + 1, cr))
  {
    if cursor >= |b| then Panic
    else
      var id := b[cursor];
      var at := cursor + 1;
      if id == 0x11 then
        var v := ReadUint16(b[at..]);
        if v.Ok? then Ok((at + 2, cr.(serverExpiry := v.value))) else Err(v.error)
      else if id == 0x21 then
        var v := ReadUint16(b[at..]);
        if v.Ok? then Ok((at + 2, cr)) else Err(v.error)
      else if id == 0x24 then
        if at < |b| then Ok((at + 1, cr)) else Panic
      else if id == 0x27 then
        var v := ReadUint32(b[at..]);
        if v.Ok? then Ok((at + 4, cr)) else Err(v.error)
      else if id == 0x12 then
        var v := ReadUtf(b[at..]);
        if v.Ok? then Ok((at + 2 + |v.value|, cr.(assignedID := v.value))) else Err(v.error)
      else if id == 0x1f then
        var v := ReadUtf(b[at..]);
        if v.Ok? then Ok((at + 2 + |v.value|, cr.(reason := v.value))) else Err(v.error)
      else if id == 0x13 then
        var v := ReadUint16(b[at..]);
        if v.Ok? then Ok((at + 2, cr.(serverKeepAlive := v.value))) else Err(v.error)
      else if id == 0x15 then
        var v := ReadUtf(b[at..]);
        if v.Ok? then Ok((at + 2 + |v.value|, cr)) else Err(v.error)
      else Ok((at, cr))
  }

  /// The loop `for cursor < ceil`: the response and the cursor it stops at.
  /// It stops because every turn advances the cursor, and it stops at or
  /// past `ceil`; it never changes the reason code or its description.
  function ConnackLoop(b: Bytes, cursor: nat, ceil: nat, cr: ConnackResponse): (r: Result<(ConnackResponse, nat)>)
    ensures r.Ok? ==> ceil <= r.value.1 && (cursor < ceil ==> r.value.1 <= |b|)
    ensures r.Ok? ==> r.value.0.code == cr.code && r.value.0.description == cr.description
    decreases ceil - cursor
  {
    if cursor >= ceil then Ok((cr, cursor))
    else
      match ConnackStep(b, cursor, cr)
      case Ok((next, cr')) => ConnackLoop(b, next, ceil, cr')
      case Err(e) => Err(e)
      case Panic => Panic
  }

  /// `readConnack` on a buffer `b` that starts with the fixed header.  The
  /// session-present byte is skipped; the reason code is the byte after it.
  function ReadConnackSpec(b: Bytes): (r: Result<ConnackResponse>)
    ensures b == [] ==> r == Panic
    ensures b != [] && DecodeVarint(b[1..]).Ok? && |b| < DecodeVarint(b[1..]).value ==> r == Err(InvalidPacketLength)
    ensures r.Ok? ==>
      && b != [] && DecodeVarint(b[1..]).Ok?
      && var c := 2 + EvalBytes(DecodeVarint(b[1..]).value);
      && c < |b| && r.value.code == b[c] && r.value.description == ParseReasonCode(b[c])
  {
    if b == [] then Panic
    else
      match DecodeVarint(b[1..])
      case Err(e) => Err(e)
      case Panic => Panic
      case Ok(length) =>
        if |b| < length then Err(InvalidPacketLength)
        else ConnackAfterLength(b, 1 + EvalBytes(length))
  }

  /// The rest of `readConnack`, with the cursor at the session-present byte:
  /// the reason code is the byte after it, then comes the property section.
  function ConnackAfterLength(b: Bytes, cursor: nat): (r: Result<ConnackResponse>)
    ensures cursor + 1 >= |b| ==> r == Panic
    ensures r.Ok? ==> r.value.code == b[cursor + 1] && r.value.description == ParseReasonCode(b[cursor + 1])
  {
    if cursor + 1 >= |b| then Panic
    else
      var code := b[cursor + 1];
      ConnackProperties(b[cursor + 2..], ConnackResponse(code, ParseReasonCode(code), [], [], 0, 0))
  }

  /// What the property section makes of the loop's outcome.
  function LoopOutcome(l: Result<(ConnackResponse, nat)>): Result<ConnackResponse>
  {
    match l
    case Ok((resp, _)) => Ok(resp)
    case Err(e) => Err(e)
    case Panic => Panic
  }

  /// The property section of a CONNACK, `props` being the bytes from its
  /// length on: the length, then the loop up to the end that length declares.
  function ConnackProperties(props: Bytes, cr: ConnackResponse): (r: Result<ConnackResponse>)
    ensures r.Ok? ==> r.value.code == cr.code && r.value.description == cr.description
  {
    match DecodeVarint(props)
    case Err(e) => Err(e)
    case Panic => Panic
    case Ok(propsLen) =>
      var start := EvalBytes(propsLen);
      LoopOutcome(ConnackLoop(props, start, start + propsLen, cr))
  }

  /// One turn of `readConnack`'s `switch b[cursor]`.
  method ReadConnackProperty(b: Bytes, cursor: nat, cr: ConnackResponse) returns (r: Result<(nat, ConnackResponse)>)
    ensures r == ConnackStep(b, cursor, cr)
  {
    if cursor >= |b| {
      return Panic;
    }
    var id := b[cursor];
    var at := cursor + 1;
    if id == 0x11 || id == 0x21 || id == 0x13 {
      var v := ReadUint16(b[at..]);
      if !v.Ok? {
        return Err(v.error);
      }
      var next := cr;
      if id == 0x11 {
        next := cr.(serverExpiry := v.value);
      } else if id == 0x13 {
        next := cr.(serverKeepAlive := v.value);
      }
      return Ok((at + 2, next));
    } else if id == 0x24 {
      if at >= |b| {
        return Panic;
      }
      return Ok((at + 1, cr));
    } else if id == 0x27 {
      var v := ReadUint32(b[at..]);
      if !v.Ok? {
        return Err(v.error);
      }
      return Ok((at + 4, cr));
    } else if id == 0x12 || id == 0x1f || id == 0x15 {
      var v := ReadUtf(b[at..]);
      if !v.Ok? {
        return Err(v.error);
      }
      var next := cr;
      if id == 0x12 {
        next := cr.(assignedID := v.value);
      } else if id == 0x1f {
        next := cr.(reason := v.value);
      }
      return Ok((at + 2 + |v.value|, next));
    }
    return Ok((at, cr));
  }

  /// `readConnack`: walks the buffer with a cursor, filling the response.
  method ReadConnack(b: Bytes) returns (r: Result<ConnackResponse>)
    ensures r == ReadConnackSpec(b)
  {
    var cursor := 1;
    if |b| < 1 {
      return Panic;
    }
    var length := DecodeVarint(b[1..]);
    if !length.Ok? {
      return Err(length.error);
    }
    if |b| < length.value {
      return Err(InvalidPacketLength);
    }
    cursor := cursor + EvalBytes(length.value);
    // Session flag
    if cursor >= |b| {
      return Panic;
    }
    cursor := cursor + 1;
    // Reason Code
    if cursor >= |b| {
      return Panic;
    }
    var code := b[cursor];
    var cr := ConnackResponse(code, ParseReasonCode(code), [], [], 0, 0);
    cursor := cursor + 1;
    r := ReadConnackProperties(b, cursor, cr);
  }

  /// The property section of `readConnack`, from the cursor at its length.
  method ReadConnackProperties(b: Bytes, at: nat, cr0: ConnackResponse) returns (r: Result<ConnackResponse>)
    requires at <= |b|
    ensures r == ConnackProperties(b[at..], cr0)
  {
    var cursor := at;
    var cr := cr0;
    var propsLen := DecodeVarint(b[cursor..]);
    if !propsLen.Ok? {
      return Err(propsLen.error);
    }
    cursor := at + EvalBytes(propsLen.value);
    var ceil := cursor + propsLen.value;
    ghost var start := cursor;
    ConnackPropertiesInPlace(b, at, cr0, propsLen.value);
    while cursor < ceil
      invariant ConnackLoop(b, cursor, ceil, cr) == ConnackLoop(b, start, ceil, cr0)
      decreases ceil - cursor
    {
      var step := ReadConnackProperty(b, cursor, cr);
      match step
      case Err(e) => return Err(e);
      case Panic => return Panic;
      case Ok((next, cr')) =>
        cursor, cr := next, cr';
    }
    return Ok(cr);
  }

  /// A refusal is not an error: a CONNACK carrying Not Authorized (0x87)
  /// parses successfully with that code and its text.
  lemma ConnackRefusalParses()
    ensures ReadConnackSpec([0x20, 3, 0x00, 0x87, 0x00])
         == Ok(ConnackResponse(0x87, "Not Authorized", [], [], 0, 0))
  {
    var b: Bytes := [0x20, 3, 0x00, 0x87, 0x00];
    assert b[1..] == [3, 0x00, 0x87, 0x00];
    assert DecodeDigits(b[1..], 4) == Ok(3);
    assert b[4..] == [0x00];
    assert DecodeDigits(b[4..], 4) == Ok(0);
  }

  /// Two responses that agree on every field except the reason code and its
  /// description.
  predicate SameButCode(a: ConnackResponse, b: ConnackResponse)
  {
    a.reason == b.reason && a.assignedID == b.assignedID
    && a.serverExpiry == b.serverExpiry && a.serverKeepAlive == b.serverKeepAlive
  }

  /// Two outcomes of one loop turn: both succeed at the same cursor with
  /// responses that agree up to the code, or both fail alike.
  predicate StepsAgree(r1: Result<(nat, ConnackResponse)>, r2: Result<(nat, ConnackResponse)>)
  {
    && r1.Ok? == r2.Ok?
    && (r1.Ok? ==> r1.value.0 == r2.value.0 && SameButCode(r1.value.1, r2.value.1))
    && (r1.Err? ==> r1 == r2) && (r1.Panic? <==> r2.Panic?)
  }

  /// Two outcomes of the loop, in the same sense.
  predicate LoopsAgree(r1: Result<(ConnackResponse, nat)>, r2: Result<(ConnackResponse, nat)>)
  {
    && r1.Ok? == r2.Ok?
    && (r1.Ok? ==> r1.value.1 == r2.value.1 && SameButCode(r1.value.0, r2.value.0))
    && (r1.Err? ==> r1 == r2) && (r1.Panic? <==> r2.Panic?)
  }

  /// Two parsed CONNACKs: both succeed with responses that agree up to the
  /// code, or both fail alike.
  predicate ResponsesAgree(r1: Result<ConnackResponse>, r2: Result<ConnackResponse>)
  {
    && r1.Ok? == r2.Ok?
    && (r1.Ok? ==> SameButCode(r1.value, r2.value))
    && (r1.Err? ==> r1 == r2) && (r1.Panic? <==> r2.Panic?)
  }

  /// `ConnackStep` at `at + cursor` of `b` is `ConnackStep` at `cursor` of
  /// `b[at..]`, with the new cursor moved back by `at`.
  lemma ConnackStepShift(b: Bytes, at: nat, cursor: nat, cr: ConnackResponse)
    requires at <= |b|
    ensures var r := ConnackStep(b[at..], cursor, cr);
      ConnackStep(b, at + cursor, cr) == if r.Ok? then Ok((at + r.value.0, r.value.1)) else r
  {
    if at + cursor < |b| {
      assert b[at + cursor] == b[at..][cursor];
      assert b[at + cursor + 1..] == b[at..][cursor + 1..];
    }
  }

  /// The same for the whole loop, by induction on the distance to `ceil`.
  lemma {:induction false} ConnackLoopShift(b: Bytes, at: nat, cursor: nat, ceil: nat, cr: ConnackResponse)
    requires at <= |b|
    ensures LoopOutcome(ConnackLoop(b, at + cursor, at + ceil, cr)) == LoopOutcome(ConnackLoop(b[at..], cursor, ceil, cr))
    decreases ceil - cursor
  {
    if cursor < ceil {
      ConnackStepShift(b, at, cursor, cr);
      var s := ConnackStep(b[at..], cursor, cr);
      if s.Ok? {
        ConnackLoopShift(b, at, s.value.0, ceil, s.value.1);
      }
    }
  }

  /// The property section read in place, with the cursor at `at` in the
  /// whole buffer, as `readConnack` does.
  lemma ConnackPropertiesInPlace(b: Bytes, at: nat, cr: ConnackResponse, n: nat)
    requires at <= |b| && DecodeVarint(b[at..]) == Ok(n)
    ensures ConnackProperties(b[at..], cr) == LoopOutcome(ConnackLoop(b, at + EvalBytes(n), at + EvalBytes(n) + n, cr))
  {
    ConnackLoopShift(b, at, EvalBytes(n), EvalBytes(n) + n, cr);
  }

  /// One turn of the property loop never looks at the reason code it carries.
  lemma ConnackStepIgnoresCode(b: Bytes, cursor: nat, cr1: ConnackResponse, cr2: ConnackResponse)
    requires SameButCode(cr1, cr2)
    ensures StepsAgree(ConnackStep(b, cursor, cr1), ConnackStep(b, cursor, cr2))
  {
  }

  /// Nor does the loop, by induction on the distance to `ceil`.
  lemma {:induction false} ConnackLoopIgnoresCode(b: Bytes, cursor: nat, ceil: nat,
                                                  cr1: ConnackResponse, cr2: ConnackResponse)
    requires SameButCode(cr1, cr2)
    ensures LoopsAgree(ConnackLoop(b, cursor, ceil, cr1), ConnackLoop(b, cursor, ceil, cr2))
    decreases ceil - cursor
  {
    if cursor < ceil {
      ConnackStepIgnoresCode(b, cursor, cr1, cr2);
      var s1 := ConnackStep(b, cursor, cr1);
      var s2 := ConnackStep(b, cursor, cr2);
      if s1.Ok? {
        ConnackLoopIgnoresCode(b, s1.value.0, ceil, s1.value.1, s2.value.1);
      }
    }
  }

  /// Nor does the property section.
  lemma ConnackPropertiesIgnoresCode(props: Bytes, cr1: ConnackResponse, cr2: ConnackResponse)
    requires SameButCode(cr1, cr2)
    ensures ResponsesAgree(ConnackProperties(props, cr1), ConnackProperties(props, cr2))
  {
    var p := DecodeVarint(props);
    if p.Ok? {
      ConnackLoopIgnoresCode(props, EvalBytes(p.value), EvalBytes(p.value) + p.value, cr1, cr2);
    }
  }

  /// Past the remaining length, two buffers that agree after the reason code
  /// parse alike, up to that code.
  lemma ConnackAfterLengthIgnoresCode(b1: Bytes, b2: Bytes, cursor: nat)
    requires |b1| == |b2| && cursor + 2 <= |b1| && b1[cursor + 2..] == b2[cursor + 2..]
    ensures ResponsesAgree(ConnackAfterLength(b1, cursor), ConnackAfterLength(b2, cursor))
  {
    var cr1 := ConnackResponse(b1[cursor + 1], ParseReasonCode(b1[cursor + 1]), [], [], 0, 0);
    var cr2 := ConnackResponse(b2[cursor + 1], ParseReasonCode(b2[cursor + 1]), [], [], 0, 0);
    ConnackPropertiesIgnoresCode(b1[cursor + 2..], cr1, cr2);
  }

  /// Two CONNACK buffers with the same remaining length `n` that agree after
  /// the reason code at `2 + EvalBytes(n)` parse alike, up to that code.
  lemma ReadConnackIgnoresCode(b1: Bytes, b2: Bytes, n: nat)
    requires b1 != [] && |b1| == |b2| && DecodeVarint(b1[1..]) == Ok(n) && DecodeVarint(b2[1..]) == Ok(n)
    requires 2 + EvalBytes(n) < |b1| && b1[3 + EvalBytes(n)..] == b2[3 + EvalBytes(n)..]
    ensures ResponsesAgree(ReadConnackSpec(b1), ReadConnackSpec(b2))
  {
    if n <= |b1| {
      ConnackAfterLengthIgnoresCode(b1, b2, 1 + EvalBytes(n));
    }
  }

  /// The layout of a CONNACK with a canonical remaining length `n`: the
  /// length decodes, and the reason code `x` sits at `2 + EvalBytes(n)`.
  lemma ConnackLayout(n: nat, sp: byte, x: byte, rest: Bytes)
    requires n <= MaxVarInt
    ensures var b := [0x20] + VarIntBytes(n) + [sp, x] + rest;
      && |b| == 3 + EvalBytes(n) + |rest| && DecodeVarint(b[1..]) == Ok(n)
      && b[2 + EvalBytes(n)] == x && b[3 + EvalBytes(n)..] == rest
  {
    var b := [0x20] + VarIntBytes(n) + [sp, x] + rest;
    assert b[1..] == VarIntBytes(n) + ([sp, x] + rest);
    VarIntRoundTrip(n, [sp, x] + rest);
  }

  /// A refusal is not an error: behind a canonical remaining length and the
  /// session-present byte, whether a CONNACK parses does not depend on its
  /// reason code `x`; on success the response carries `x` and its text, with
  /// every other field as it would be for any other code `y`, and a failure
  /// is the same failure for every code.
  lemma ConnackOutcomeIgnoresCode(n: nat, sp: byte, x: byte, y: byte, rest: Bytes)
    requires n <= MaxVarInt
    ensures var rx := ReadConnackSpec([0x20] + VarIntBytes(n) + [sp, x] + rest);
      var ry := ReadConnackSpec([0x20] + VarIntBytes(n) + [sp, y] + rest);
      && rx.Ok? == ry.Ok?
      && (rx.Ok? ==> rx.value.code == x && rx.value.description == ParseReasonCode(x))
      && (rx.Ok? ==> SameButCode(rx.value, ry.value))
      && (rx.Err? ==> rx == ry) && (rx.Panic? <==> ry.Panic?)
  {
    ConnackLayout(n, sp, x, rest);
    ConnackLayout(n, sp, y, rest);
    ReadConnackIgnoresCode([0x20] + VarIntBytes(n) + [sp, x] + rest, [0x20] + VarIntBytes(n) + [sp, y] + rest, n);
  }

  /// Session Expiry Interval is a Four Byte Integer (section 3.2.2.3.2), but
  /// the loop reads two bytes: it keeps the high half of the interval and
  /// resumes at the low half as if it were the next identifier.
  lemma ConnackSessionExpiryHighHalf(b: Bytes, cursor: nat, cr: ConnackResponse, e: u32)
    requires cursor + 5 <= |b| && b[cursor] == SessionExpiryInterval
    requires b[cursor + 1..cursor + 5] == Uint32Bytes(e)
    ensures ConnackStep(b, cursor, cr) == Ok((cursor + 3, cr.(serverExpiry := e / 0x1_0000)))
  {
    assert b[cursor + 1..][..2] == Uint16Bytes(e / 0x1_0000) by {
      assert b[cursor + 1..][..2] == b[cursor + 1..cursor + 5][..2];
    }
    ReadUint16Prefix(b[cursor + 1..]);
    Uint16RoundTrip(e / 0x1_0000, []);
    assert Uint16Bytes(e / 0x1_0000) + [] == Uint16Bytes(e / 0x1_0000);
  }

  /// A server announcing a session expiry of 5 seconds, encoded as the
  /// standard prescribes, is read as 0: the `00 05` tail is skipped as two
  /// unknown identifiers.
  lemma ConnackSessionExpiryExample()
    ensures ReadConnackSpec([0x20, 8, 0x00, 0x00, 5, 0x11, 0x00, 0x00, 0x00, 0x05])
         == Ok(ConnackResponse(0x00, "Unspecified Error", [], [], 0, 0))
  {
    var b: Bytes := [0x20, 8, 0x00, 0x00, 5, 0x11, 0x00, 0x00, 0x00, 0x05];
    assert b[1..] == [8, 0x00, 0x00, 5, 0x11, 0x00, 0x00, 0x00, 0x05];
    assert DecodeDigits(b[1..], 4) == Ok(8);
    ReadConnackHeader(b, 8);
    assert ParseReasonCode(0x00) == "Unspecified Error";
    assert b[4..] == [5, 0x11, 0x00, 0x00, 0x00, 0x05];
    ConnackExpiryExampleProperties(b[4..], ConnackResponse(0x00, "Unspecified Error", [], [], 0, 0));
  }

  /// Past the remaining length and the session-present byte, `readConnack`
  /// reads the reason code and goes on to the property section.
  lemma ReadConnackHeader(b: Bytes, n: nat)
    requires b != [] && DecodeVarint(b[1..]) == Ok(n) && n <= |b| && 2 + EvalBytes(n) < |b|
    ensures var c := 2 + EvalBytes(n);
      ReadConnackSpec(b) == ConnackProperties(b[c + 1..], ConnackResponse(b[c], ParseReasonCode(b[c]), [], [], 0, 0))
  {
  }

  /// The property section of `ConnackSessionExpiryExample`'s packet.
  lemma ConnackExpiryExampleProperties(props: Bytes, cr: ConnackResponse)
    requires props == [5, 0x11, 0x00, 0x00, 0x00, 0x05] && cr.serverExpiry == 0
    ensures ConnackProperties(props, cr) == Ok(cr)
  {
    assert DecodeDigits(props, 4) == Ok(5);
    assert props[2..] == [0x00, 0x00, 0x00, 0x05];
    assert ReadUint16(props[2..]) == Ok(0);
    assert cr.(serverExpiry := 0) == cr;
    assert ConnackStep(props, 1, cr) == Ok((4, cr));
    assert ConnackStep(props, 4, cr) == Ok((5, cr));
    assert ConnackStep(props, 5, cr) == Ok((6, cr));
    assert ConnackLoop(props, 6, 6, cr) == Ok((cr, 6));
    assert ConnackLoop(props, 5, 6, cr) == Ok((cr, 6));
    assert ConnackLoop(props, 4, 6, cr) == Ok((cr, 6));
  }

  /// Assigned Client Identifier (0x12) and Reason String (0x1f) set their
  /// field to the string that follows and step past it.
  lemma ConnackStringFields(b: Bytes, cursor: nat, cr: ConnackResponse, s: Bytes, rest: Bytes)
    requires |s| <= MaxString && cursor < |b| && b[cursor + 1..] == Utf(s) + rest
    ensures b[cursor] == 0x12 ==> ConnackStep(b, cursor, cr) == Ok((cursor + 3 + |s|, cr.(assignedID := s)))
    ensures b[cursor] == 0x1f ==> ConnackStep(b, cursor, cr) == Ok((cursor + 3 + |s|, cr.(reason := s)))
    ensures b[cursor] == 0x15 ==> ConnackStep(b, cursor, cr) == Ok((cursor + 3 + |s|, cr))
  {
    UtfRoundTrip(s, rest);
  }

  /// Server Keep Alive (0x13) sets its field to the Two Byte Integer that
  /// follows; Receive Maximum (0x21) is read and dropped.
  lemma ConnackTwoByteFields(b: Bytes, cursor: nat, cr: ConnackResponse, v: u16, rest: Bytes)
    requires cursor < |b| && b[cursor + 1..] == Uint16Bytes(v) + rest
    ensures b[cursor] == 0x13 ==> ConnackStep(b, cursor, cr) == Ok((cursor + 3, cr.(serverKeepAlive := v)))
    ensures b[cursor] == 0x21 ==> ConnackStep(b, cursor, cr) == Ok((cursor + 3, cr))
  {
    Uint16RoundTrip(v, rest);
  }

  /// Maximum QoS (0x24) consumes its one byte and Maximum Packet Size (0x27)
  /// its four, both dropped; a byte missing at the end panics for 0x24 and a
  /// short Four Byte Integer is an error for 0x27.
  lemma ConnackSkippedFields(b: Bytes, cursor: nat, cr: ConnackResponse)
    requires cursor < |b|
    ensures b[cursor] == 0x24 && cursor + 1 < |b| ==> ConnackStep(b, cursor, cr) == Ok((cursor + 2, cr))
    ensures b[cursor] == 0x24 && cursor + 1 == |b| ==> ConnackStep(b, cursor, cr) == Panic
    ensures b[cursor] == 0x27 && cursor + 5 <= |b| ==> ConnackStep(b, cursor, cr) == Ok((cursor + 5, cr))
    ensures b[cursor] == 0x27 && cursor + 5 > |b| ==> ConnackStep(b, cursor, cr) == Err(ShortBuffer)
  {
  }
}
