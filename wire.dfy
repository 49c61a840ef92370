/// Byte-level building blocks of the MQTT Version 5.0 wire format that the
/// client's codec calls into: the Variable Byte Integer (section 1.5.5), the
/// big-endian Two and Four Byte Integers (sections 1.5.2 and 1.5.3) and the
/// UTF-8 Encoded String (section 1.5.4).  The repository calls these helpers
/// (`encodeVarInt`, `decodeVarint`, `evalBytes`, `readUint16`, `readUint32`,
/// `writeUint16`, `writeUTFString`, `readUTFString`) without their source being
/// part of this model, so each is defined here by the standard's semantics.
module Wire {

  /// An octet.  Go strings are byte strings, so text on the wire is `Bytes`.
  type byte = b: int | 0 <= b < 0x100
  type u16 = n: int | 0 <= n < 0x1_0000
  type u32 = n: int | 0 <= n < 0x1_0000_0000
  type Bytes = seq<byte>

  datatype Option<+T> = None | Some(value: T)

  /// The errors the codec and the client can report.
  datatype Error =
    | InvalidCommand        // ErrInvalidCommand: fixed-header command not in Table 2-1
    | InvalidLength         // ErrInvalidLength: declared property length exceeds the buffer
    | MalformedVarInt       // decodeVarint: buffer ends, or a 4th byte still continues
    | VarIntTooLarge        // encodeVarInt: value above 268,435,455
    | StringTooLong         // writeUTFString: more than 65,535 bytes
    | ShortBuffer           // readUTFString / readUint16 / readUint32: too few bytes
    | EndOfBuffer           // io.EOF from bytes.Buffer.ReadByte
    | UnknownProperty       // "unknown property"
    | InvalidPacketLength   // "malformed packet : invalid length"
    | CursorExceededLength  // "malformed packet : cursor exceeded length"
    | UnexpectedResponse    // "unexpected packet response code"
    | Transport(code: nat)  // an error reported by the socket
    | HandlerFailed(code: nat) // an error returned by the caller's message handler

  /// The outcome of a Go call: a value, an error, or a runtime panic (an index
  /// or slice bound the Go code does not guard).
  datatype Result<+T> = Ok(value: T) | Err(error: Error) | Panic

  function Min(a: int, b: int): int { if a <= b then a else b }

  // ---------------------------------------------------------------------------
  // Variable Byte Integer (section 1.5.5)
  // ---------------------------------------------------------------------------

  const MaxVarInt := 268_435_455

  /// 128 to the power k, for the four digit positions of a Variable Byte Integer.
  function Pow128(k: nat): (p: nat)
    requires k <= 4
    ensures p >= 1
  {
    if k == 0 then 1 else if k == 1 then 128 else if k == 2 then 16_384
    else if k == 3 then 2_097_152 else 268_435_456
  }

  /// `evalBytes`: the number of bytes of the shortest encoding of `v`.
  function EvalBytes(v: nat): (n: nat)
    ensures 1 <= n <= 4
    ensures v <= MaxVarInt ==> v < Pow128(n) && (n > 1 ==> Pow128(n - 1) <= v)
  {
    if v < 128 then 1 else if v < 16_384 then 2 else if v < 2_097_152 then 3 else 4
  }

  /// The canonical encoding: seven bits per byte, least significant group
  /// first, continuation bit on every byte but the last.
  function VarIntBytes(n: nat): (r: Bytes)
    requires n <= MaxVarInt
    ensures |r| == EvalBytes(n)
    decreases n
  {
    if n < 128 then [n] else [n % 128 + 128] + VarIntBytes(n / 128)
  }

  /// `encodeVarInt`: fails on values the format cannot carry.
  function EncodeVarInt(n: nat): (r: Result<Bytes>)
    ensures r.Ok? <==> n <= MaxVarInt
    ensures r.Ok? ==> |r.value| == EvalBytes(n)
    ensures !r.Ok? ==> r == Err(VarIntTooLarge)
  {
    if n <= MaxVarInt then Ok(VarIntBytes(n))
    else Err(VarIntTooLarge)
  }

  /// Decoding at most `k` more digits of `b`, least significant first: a
  /// byte below 128 is the last digit; the buffer ending, or a `k`-th digit
  /// that still carries the continuation bit, is malformed.
  function DecodeDigits(b: Bytes, k: nat): (r: Result<nat>)
    requires k <= 4
    ensures r.Ok? || r == Err(MalformedVarInt)
    ensures r.Ok? ==> 1 <= Min(|b|, k) && r.value < Pow128(Min(|b|, k))
    decreases k
  {
    if k == 0 || b == [] then Err(MalformedVarInt)
    else if b[0] < 128 then Ok(b[0])
    else
      var tail := DecodeDigits(b[1..], k - 1);
      if tail.Ok? then
        assert Pow128(Min(|b|, k)) == 128 * Pow128(Min(|b| - 1, k - 1));
        Ok(b[0] as int - 128 + 128 * tail.value)
      else tail
  }

  /// A value below `Pow128(m)` has an encoding of at most `m` bytes.
  lemma EvalBytesBound(v: nat, m: nat)
    requires 1 <= m <= 4 && v < Pow128(m)
    ensures EvalBytes(v) <= m
  {
  }

  /// `decodeVarint`: reads at most four bytes; fails when the buffer ends
  /// first or the fourth byte still carries the continuation bit.  The
  /// number of bytes it read is not returned; callers recompute it as
  /// `EvalBytes(value)`, which never exceeds what is in the buffer.
  function DecodeVarint(b: Bytes): (r: Result<nat>)
    ensures r.Ok? || r == Err(MalformedVarInt)
    ensures r.Ok? ==> r.value <= MaxVarInt && EvalBytes(r.value) <= |b|
  {
    var r := DecodeDigits(b, 4);
    if r.Ok? then EvalBytesBound(r.value, Min(|b|, 4)); r else r
  }

  lemma {:induction false} DecodeDigitsVarIntBytes(n: nat, k: nat, rest: Bytes)
    requires n <= MaxVarInt && EvalBytes(n) <= k <= 4
    ensures DecodeDigits(VarIntBytes(n) + rest, k) == Ok(n)
    decreases n
  {
    var b := VarIntBytes(n) + rest;
    if n >= 128 {
      assert b[0] == n % 128 + 128;
      assert b[1..] == VarIntBytes(n / 128) + rest;
      DecodeDigitsVarIntBytes(n / 128, k - 1, rest);
    }
  }

  /// Round trip of section 1.5.5: decoding the canonical encoding gives the
  /// value back, whatever follows it.
  lemma VarIntRoundTrip(n: nat, rest: Bytes)
    requires n <= MaxVarInt
    ensures DecodeVarint(VarIntBytes(n) + rest) == Ok(n)
  {
    DecodeDigitsVarIntBytes(n, 4, rest);
  }

  /// A fifth byte is never read: four continuation bytes are malformed.
  lemma {:induction false} VarIntRejectsFifthByte(b: Bytes)
    requires |b| >= 4 && b[0] >= 128 && b[1] >= 128 && b[2] >= 128 && b[3] >= 128
    ensures DecodeVarint(b) == Err(MalformedVarInt)
  {
    assert DecodeDigits(b[4..], 0) == Err(MalformedVarInt);
    assert b[3..][1..] == b[4..] && b[2..][1..] == b[3..] && b[1..][1..] == b[2..];
    assert DecodeDigits(b[3..], 1) == Err(MalformedVarInt);
    assert DecodeDigits(b[2..], 2) == Err(MalformedVarInt);
    assert DecodeDigits(b[1..], 3) == Err(MalformedVarInt);
  }

  // ---------------------------------------------------------------------------
  // Two and Four Byte Integers (sections 1.5.2 and 1.5.3), big-endian
  // ---------------------------------------------------------------------------

  function Uint16Bytes(n: u16): (r: Bytes)
    ensures |r| == 2
  {
    [n / 256, n % 256]
  }

  /// Four bytes, most significant first: the high and low halves in turn.
  function Uint32Bytes(n: u32): (r: Bytes)
    ensures |r| == 4
  {
    Uint16Bytes(n / 0x1_0000) + Uint16Bytes(n % 0x1_0000)
  }

  /// `readUint16`: the first two bytes, most significant first.
  function ReadUint16(b: Bytes): (r: Result<u16>)
    ensures r.Ok? <==> |b| >= 2
    ensures !r.Ok? ==> r == Err(ShortBuffer)
  {
    if |b| < 2 then Err(ShortBuffer) else Ok(b[0] as int * 256 + b[1] as int)
  }

  /// Re-encoding what `readUint16` read gives the two bytes back.
  lemma ReadUint16Inverse(b: Bytes)
    requires |b| >= 2
    ensures Uint16Bytes(ReadUint16(b).value) == b[..2]
  {
  }

  /// `ReadUint16` looks at the first two bytes only.
  lemma ReadUint16Prefix(b: Bytes)
    requires |b| >= 2
    ensures ReadUint16(b) == ReadUint16(b[..2])
  {
  }

  lemma SplitHalves(hi: u16, lo: u16)
    ensures (hi * 0x1_0000 + lo) / 0x1_0000 == hi && (hi * 0x1_0000 + lo) % 0x1_0000 == lo
  {
  }

  /// `readUint32`: the first four bytes, most significant first.
  function ReadUint32(b: Bytes): (r: Result<u32>)
    ensures r.Ok? <==> |b| >= 4
    ensures !r.Ok? ==> r == Err(ShortBuffer)
  {
    if |b| < 4 then Err(ShortBuffer)
    else Ok(ReadUint16(b).value * 0x1_0000 + ReadUint16(b[2..]).value)
  }

  /// Re-encoding what `readUint32` read gives the four bytes back.
  lemma ReadUint32Inverse(b: Bytes)
    requires |b| >= 4
    ensures Uint32Bytes(ReadUint32(b).value) == b[..4]
  {
    var hi := ReadUint16(b).value;
    var lo := ReadUint16(b[2..]).value;
    SplitHalves(hi, lo);
    ReadUint16Inverse(b);
    ReadUint16Inverse(b[2..]);
    assert b[..4] == b[..2] + b[2..][..2];
  }

  lemma Uint16RoundTrip(n: u16, rest: Bytes)
    ensures ReadUint16(Uint16Bytes(n) + rest) == Ok(n)
  {
  }

  lemma Uint32RoundTrip(n: u32, rest: Bytes)
    ensures ReadUint32(Uint32Bytes(n) + rest) == Ok(n)
  {
    var b := Uint32Bytes(n) + rest;
    Uint16RoundTrip(n / 0x1_0000, b[2..]);
    assert b == Uint16Bytes(n / 0x1_0000) + b[2..];
    Uint16RoundTrip(n % 0x1_0000, rest);
    assert b[2..] == Uint16Bytes(n % 0x1_0000) + rest;
  }

  // ---------------------------------------------------------------------------
  // UTF-8 Encoded String (section 1.5.4): two-byte length, then the bytes
  // ---------------------------------------------------------------------------

  const MaxString := 65_535

  function Utf(s: Bytes): (r: Bytes)
    requires |s| <= MaxString
    ensures |r| == 2 + |s|
  {
    Uint16Bytes(|s|) + s
  }

  /// `writeUTFString`.
  function WriteUtf(s: Bytes): (r: Result<Bytes>)
    ensures r.Ok? <==> |s| <= MaxString
    ensures !r.Ok? ==> r == Err(StringTooLong)
    ensures r.Ok? ==> |r.value| == 2 + |s|
  {
    if |s| <= MaxString then Ok(Utf(s))
    else Err(StringTooLong)
  }

  /// `readUTFString`: the declared number of bytes after the length prefix.
  function ReadUtf(b: Bytes): (r: Result<Bytes>)
    ensures r.Ok? || r == Err(ShortBuffer)
    ensures r.Ok? <==> |b| >= 2 && |b| >= 2 + b[0] as int * 256 + b[1] as int
    ensures r.Ok? ==> |r.value| <= MaxString && 2 + |r.value| <= |b|
  {
    if |b| < 2 then Err(ShortBuffer)
    else
      var n := b[0] as int * 256 + b[1] as int;
      if |b| < 2 + n then Err(ShortBuffer) else Ok(b[2..2 + n])
  }

  /// What `readUTFString` read is the string whose encoding starts the buffer.
  lemma ReadUtfInverse(b: Bytes)
    requires ReadUtf(b).Ok?
    ensures b[..2 + |ReadUtf(b).value|] == Utf(ReadUtf(b).value)
  {
    var s := ReadUtf(b).value;
    ReadUint16Inverse(b);
    assert b[..2 + |s|] == b[..2] + b[2..2 + |s|];
  }

  lemma UtfRoundTrip(s: Bytes, rest: Bytes)
    requires |s| <= MaxString
    ensures ReadUtf(Utf(s) + rest) == Ok(s)
  {
    var b := Utf(s) + rest;
    assert b[2..2 + |s|] == s;
  }
}
