/// The packet framer of packet.go: validation of the fixed-header command
/// (Table 2-1 of MQTT Version 5.0), the split of the first byte into command
/// and flags nibbles, the slicing of the frame by the remaining length, and the
/// cursor reads that consume the packet's buffer in place.
module Framing {
  import opened Wire

  const ConnectCmd: byte := 0x10
  const ConnackCmd: byte := 0x20
  const PublishCmd: byte := 0x30
  const PubackCmd: byte := 0x40
  const PubrecCmd: byte := 0x50
  const PubrelCmd: byte := 0x60
  const PubcompCmd: byte := 0x70
  const SubscribeCmd: byte := 0x80
  const SubackCmd: byte := 0x90
  const UnsubscribeCmd: byte := 0xA0
  const UnsubackCmd: byte := 0xB0
  const PingreqCmd: byte := 0xC0
  const PingrespCmd: byte := 0xD0
  const DisconnectCmd: byte := 0xE0
  const AuthCmd: byte := 0xF0

  /// The fifteen control-packet types, each in the high nibble.
  const Commands: set<byte> := {
    ConnectCmd, ConnackCmd, PublishCmd, PubackCmd, PubrecCmd, PubrelCmd, PubcompCmd,
    SubscribeCmd, SubackCmd, UnsubscribeCmd, UnsubackCmd, PingreqCmd, PingrespCmd,
    DisconnectCmd, AuthCmd
  }

  /// `validateType`: the byte is returned unchanged when it is one of the
  /// fifteen commands, and rejected otherwise.
  function ValidateType(t: byte): (r: Result<byte>)
    ensures r.Ok? <==> t % 16 == 0 && t != 0
    ensures r.Ok? ==> r.value == t
    ensures !r.Ok? ==> r == Err(InvalidCommand)
  {
    if t in Commands then Ok(t) else Err(InvalidCommand)
  }

  /// The fields of a packet as `newPacket` creates it.
  datatype Frame = Frame(cmd: byte, flags: byte, buffer: Bytes, length: int)

  /// `newPacket`.  The command is the high nibble of the first byte and the
  /// flags the low nibble; the remaining length `L` is decoded from the second
  /// byte on, and the packet keeps `buff[EvalBytes(L)..L]` with `length` set to
  /// `EvalBytes(L)`.  Go panics on an empty buffer and on a slice whose bounds
  /// are out of order or past the buffer.
  function NewPacket(buff: Bytes): (r: Result<Frame>)
    ensures buff == [] ==> r.Panic?
    ensures |buff| > 0 && buff[0] < 16 ==> r == Err(InvalidCommand)
    ensures |buff| > 0 && buff[0] >= 16 && !DecodeVarint(buff[1..]).Ok? ==> r == Err(MalformedVarInt)
    ensures |buff| > 0 && buff[0] >= 16 && DecodeVarint(buff[1..]).Ok? ==>
      var len := DecodeVarint(buff[1..]).value;
      (EvalBytes(len) <= len <= |buff| ==> r.Ok?) && (!(EvalBytes(len) <= len <= |buff|) ==> r.Panic?)
    ensures r.Panic? && buff != [] ==>
      && DecodeVarint(buff[1..]).Ok?
      && var len := DecodeVarint(buff[1..]).value;
      && !(EvalBytes(len) <= len <= |buff|)
    ensures r.Ok? ==>
      && r.value.flags == buff[0] % 16 < 16
      && r.value.cmd + r.value.flags == buff[0]
      && ValidateType(r.value.cmd) == Ok(r.value.cmd)
    ensures r.Ok? ==>
      && DecodeVarint(buff[1..]).Ok?
      && var len := DecodeVarint(buff[1..]).value;
      && r.value.length == EvalBytes(len) <= len <= |buff|
      && r.value.buffer == buff[EvalBytes(len)..len]
  {
    if buff == [] then Panic
    else
      var cmd := buff[0] / 16 * 16;
      var flags := buff[0] % 16;
      match ValidateType(cmd)
      case Err(e) => Err(e)
      case Panic => Panic
      case Ok(pt) =>
        match DecodeVarint(buff[1..])
        case Err(e) => Err(e)
        case Panic => Panic
        case Ok(len) =>
          var remainingLen := EvalBytes(len);
          if remainingLen <= len <= |buff| then
            Ok(Frame(pt, flags, buff[remainingLen..len], remainingLen))
          else Panic
  }

  /// `packet`: a command, its flags and a `bytes.Buffer` whose unread part is
  /// `buffer`; each cursor read consumes from the front of it.
  class Packet {
    var cmd: byte
    var flags: byte
    var buffer: Bytes
    var length: int

    constructor (f: Frame)
      ensures cmd == f.cmd && flags == f.flags && buffer == f.buffer && length == f.length
    {
      cmd, flags, buffer, length := f.cmd, f.flags, f.buffer, f.length;
    }

    /// `readByte` (`bytes.Buffer.ReadByte`): io.EOF on an empty buffer.
    method ReadByte() returns (r: Result<byte>)
      modifies this`buffer
      ensures old(buffer) == [] ==> r == Err(EndOfBuffer) && buffer == []
      ensures old(buffer) != [] ==> r == Ok(old(buffer)[0]) && buffer == old(buffer)[1..]
    {
      if buffer == [] {
        r := Err(EndOfBuffer);
      } else {
        r := Ok(buffer[0]);
        buffer := buffer[1..];
      }
    }

    /// `bytes.Buffer.Next`: the next `n` bytes, or all that are left.
    method Next(n: nat) returns (taken: Bytes)
      modifies this`buffer
      ensures |taken| == Min(n, |old(buffer)|)
      ensures old(buffer) == taken + buffer
    {
      var k := Min(n, |buffer|);
      taken := buffer[..k];
      buffer := buffer[k..];
    }

    /// `readVarint`: advances by the shortest length of the decoded value.
    method ReadVarint() returns (r: Result<nat>)
      modifies this`buffer
      ensures r == DecodeVarint(old(buffer))
      ensures r.Ok? ==> buffer == old(buffer)[EvalBytes(r.value)..]
      ensures !r.Ok? ==> buffer == old(buffer)
    {
      r := DecodeVarint(buffer);
      if r.Ok? {
        var _ := Next(EvalBytes(r.value));
      }
    }

    /// `readString`: advances past the length prefix and the string.
    method ReadString() returns (r: Result<Bytes>)
      modifies this`buffer
      ensures r == ReadUtf(old(buffer))
      ensures r.Ok? ==> old(buffer) == Utf(r.value) + buffer
      ensures !r.Ok? ==> buffer == old(buffer)
    {
      r := ReadUtf(buffer);
      if r.Ok? {
        ReadUtfInverse(buffer);
        ghost var was := buffer;
        var _ := Next(2 + |r.value|);
        assert was == was[..2 + |r.value|] + buffer;
      }
    }

    /// `readUint32`: advances by four bytes.
    method ReadUint32() returns (r: Result<u32>)
      modifies this`buffer
      ensures r == Wire.ReadUint32(old(buffer))
      ensures r.Ok? ==> old(buffer) == Uint32Bytes(r.value) + buffer
      ensures !r.Ok? ==> buffer == old(buffer)
    {
      r := Wire.ReadUint32(buffer);
      if r.Ok? {
        ReadUint32Inverse(buffer);
        var _ := Next(4);
      }
    }

    /// `readUint16`: advances by two bytes.
    method ReadUint16() returns (r: Result<u16>)
      modifies this`buffer
      ensures r == Wire.ReadUint16(old(buffer))
      ensures r.Ok? ==> old(buffer) == Uint16Bytes(r.value) + buffer
      ensures !r.Ok? ==> buffer == old(buffer)
    {
      r := Wire.ReadUint16(buffer);
      if r.Ok? {
        ReadUint16Inverse(buffer);
        var _ := Next(2);
      }
    }
  }

  /// A first byte whose high nibble is zero (0x05, say) is rejected before
  /// the remaining length is looked at, whatever follows it.
  lemma NewPacketRejectsBeforeLength(b0: byte, rest: Bytes)
    requires b0 < 16
    ensures NewPacket([b0] + rest) == Err(InvalidCommand)
  {
  }

  /// With a one-byte remaining length `L`, the packet's buffer holds the
  /// `L - 1` bytes after the command byte (the length byte, then the body
  /// short of its last two bytes; nothing when `L` is 1), where section
  /// 2.1.4 puts the body at `buff[2..2 + L]`.
  lemma {:induction false} NewPacketShiftedBody(b0: byte, body: Bytes, extra: Bytes)
    requires b0 >= 16 && 1 <= |body| < 128
    ensures NewPacket([b0, |body|] + body + extra)
         == Ok(Frame(b0 / 16 * 16, b0 % 16, ([|body|] + body)[..|body| - 1], 1))
  {
    var buff := [b0, |body|] + body + extra;
    assert buff[1..] == VarIntBytes(|body|) + (body + extra);
    VarIntRoundTrip(|body|, body + extra);
    assert buff[1..|body|] == ([|body|] + body)[..|body| - 1];
  }

  /// A packet with remaining length zero (PINGRESP `D0 00`, a bare DISCONNECT
  /// `E0 00`) makes the slice bounds `[1:0]` out of order: a panic.
  lemma NewPacketEmptyBodyPanics(b0: byte, rest: Bytes)
    requires b0 >= 16
    ensures NewPacket([b0, 0] + rest) == Panic
  {
    var buff := [b0, 0] + rest;
    assert buff[1..] == VarIntBytes(0) + rest;
    VarIntRoundTrip(0, rest);
  }
}
