/// The client of sdk.go: `NewClient` and its options, `readMessage`, one turn
/// of the read loop that `connect` starts, and the check `connect` makes of
/// the server's reply to CONNECT.  Reads and writes on the connection are
/// outcomes passed in; emitted end states and written packets are recorded
/// in order.
module Sdk {
  import opened Wire
  import opened Framing
  import opened Connect
  import opened Publish

  /// `PasswordMethod`, the authentication method `WithBasicCredentials`
  /// installs.  Its definition is not part of this model: any value.
  const PasswordMethod: Bytes

  /// A `messageHandler`, given the payload: `None` for a nil error, `Some(c)`
  /// for an error identified by `c`.
  type Handler = Bytes -> Option<nat>

  /// The handler `NewClient` installs: it accepts every payload.
  const NoOp: Handler := payload => None

  /// The `Option` closures.
  datatype ClientOption =
    | WithID(id: Bytes)
    | WithBasicCredentials(user: Bytes, pwd: Bytes)
    | WithMaxMessage(max: int)
    | WithCallBack(fn: Handler)

  /// The fields the options write.
  datatype Settings = Settings(clientID: Bytes, creds: Option<Credential>, receivedMax: int, handler: Handler)

  /// What `NewClient` sets before applying options: no identifier, no
  /// credentials, at most 10 messages, the no-op handler.
  const Defaults: Settings := Settings([], None, 10, NoOp)

  /// One option, as its closure changes the client.
  function ApplyOption(s: Settings, o: ClientOption): Settings
  {
    match o
    case WithID(id) => s.(clientID := id)
    case WithBasicCredentials(user, pwd) => s.(creds := Some(Credential(PasswordMethod, Some(user), Some(pwd))))
    case WithMaxMessage(max) => s.(receivedMax := max)
    case WithCallBack(fn) => s.(handler := fn)
  }

  /// `for _, fn := range options { fn(&pc) }`: the options from first to last.
  function Configure(s: Settings, opts: seq<ClientOption>): Settings
    decreases |opts|
  {
    if opts == [] then s else Configure(ApplyOption(s, opts[0]), opts[1..])
  }

  /// Applying one more option after a list is applying it to the list's result.
  lemma {:induction false} ConfigureSnoc(s: Settings, opts: seq<ClientOption>, o: ClientOption)
    ensures Configure(s, opts + [o]) == ApplyOption(Configure(s, opts), o)
    decreases |opts|
  {
    if opts == [] {
      assert [] + [o] == [o];
    } else {
      assert (opts + [o])[1..] == opts[1..] + [o];
      ConfigureSnoc(ApplyOption(s, opts[0]), opts[1..], o);
    }
  }

  /// The identifier of the last `WithID` in `opts`, or `d` when there is none.
  function LastID(opts: seq<ClientOption>, d: Bytes): Bytes
  {
    if opts == [] then d
    else if opts[|opts| - 1].WithID? then opts[|opts| - 1].id
    else LastID(opts[..|opts| - 1], d)
  }

  /// The bound of the last `WithMaxMessage` in `opts`, or `d`.
  function LastMax(opts: seq<ClientOption>, d: int): int
  {
    if opts == [] then d
    else if opts[|opts| - 1].WithMaxMessage? then opts[|opts| - 1].max
    else LastMax(opts[..|opts| - 1], d)
  }

  /// The credentials of the last `WithBasicCredentials` in `opts`, or `d`.
  function LastCreds(opts: seq<ClientOption>, d: Option<Credential>): Option<Credential>
  {
    if opts == [] then d
    else if opts[|opts| - 1].WithBasicCredentials? then
      Some(Credential(PasswordMethod, Some(opts[|opts| - 1].user), Some(opts[|opts| - 1].pwd)))
    else LastCreds(opts[..|opts| - 1], d)
  }

  /// The last writer wins: each field holds what the last option of its kind
  /// wrote, and keeps its default when no option writes it.  Basic
  /// credentials always carry both a user name and a password.
  lemma {:induction false} LastWriterWins(s: Settings, opts: seq<ClientOption>)
    ensures Configure(s, opts).clientID == LastID(opts, s.clientID)
    ensures Configure(s, opts).receivedMax == LastMax(opts, s.receivedMax)
    ensures Configure(s, opts).creds == LastCreds(opts, s.creds)
    decreases |opts|
  {
    if opts != [] {
      var init := opts[..|opts| - 1];
      assert opts == init + [opts[|opts| - 1]];
      ConfigureSnoc(s, init, opts[|opts| - 1]);
      LastWriterWins(s, init);
    }
  }

  /// An `endState` value: `None` is a clean end.
  datatype EndState = EndState(err: Option<Error>)

  /// The PINGREQ the read loop writes when a read times out.
  const Ping: Bytes := [PingreqCmd, 0x00]

  /// The size of the buffer each read fills.
  const ReadBufferSize := 1024

  /// `buff := make([]byte, 1024)` after a read that returned `data`: the
  /// first 1024 bytes that arrived, then zeros.
  function ReadBuffer(data: Bytes): (buff: Bytes)
    ensures |buff| == ReadBufferSize
    ensures forall i | 0 <= i < ReadBufferSize :: buff[i] == if i < |data| then data[i] else 0
  {
    if |data| >= ReadBufferSize then data[..ReadBufferSize]
    else data + seq(ReadBufferSize - |data|, i => 0)
  }

  /// The handler's part of `readMessage` for a decoded payload: a handler
  /// error is returned; otherwise the counter goes up, and on reaching
  /// `receivedMax` it is reset to 0 and a clean end is emitted.  The result
  /// holds the new counter, and the flag says whether an end was emitted.
  function Deliver(payload: Bytes, received: int, receivedMax: int, handler: Handler): (Result<int>, bool)
  {
    match handler(payload)
    case Some(code) => (Err(HandlerFailed(code)), false)
    case None =>
      if received + 1 >= receivedMax then (Ok(0), true) else (Ok(received + 1), false)
  }

  /// `readMessage`: dispatch on the whole first byte.  DISCONNECT (0xE0)
  /// emits a clean end and returns nil; a PUBLISH with every flag clear
  /// (0x30) is decoded and its payload handed to the handler; anything else
  /// is ignored.
  function ReadMessageSpec(pkt: Bytes, received: int, receivedMax: int, handler: Handler): (Result<int>, bool)
  {
    if pkt == [] then (Panic, false)
    else if pkt[0] == DisconnectCmd then (Ok(received), true)
    else if pkt[0] == PublishCmd then
      match ReadPublishSpec(pkt)
      case Ok(msg) => Deliver(msg.payload, received, receivedMax, handler)
      case Err(e) => (Err(e), false)
      case Panic => (Panic, false)
    else (Ok(received), false)
  }

  /// A DISCONNECT emits a clean end but returns nil, so the loop goes on;
  /// any first byte other than 0xE0 and 0x30 (a PUBLISH with QoS 1, 0x32; a
  /// SUBACK, 0x90) changes nothing.
  lemma ReadMessageDispatch(pkt: Bytes, received: int, receivedMax: int, handler: Handler)
    requires pkt != []
    ensures pkt[0] == DisconnectCmd ==> ReadMessageSpec(pkt, received, receivedMax, handler) == (Ok(received), true)
    ensures pkt[0] != DisconnectCmd && pkt[0] != PublishCmd ==>
      ReadMessageSpec(pkt, received, receivedMax, handler) == (Ok(received), false)
  {
  }

  /// With a bound of at least 1 the counter stays in `[0, receivedMax)`; an
  /// end is emitted with a nil result exactly for a DISCONNECT or for the
  /// PUBLISH that brings the counter to the bound; an error emits nothing.
  lemma ReadMessageCounter(pkt: Bytes, received: int, receivedMax: int, handler: Handler)
    requires 1 <= receivedMax && 0 <= received < receivedMax
    ensures var (r, end) := ReadMessageSpec(pkt, received, receivedMax, handler);
      && (r.Ok? ==> 0 <= r.value < receivedMax)
      && (end ==> r.Ok?)
      && (end && pkt[0] != DisconnectCmd ==> r.value == 0 && received == receivedMax - 1)
  {
  }

  /// `readMessage` over the packets of successive reads, stopping at the
  /// first error as the read loop does: the final result and the number of
  /// clean ends emitted.
  function ReadMessages(pkts: seq<Bytes>, received: int, receivedMax: int, handler: Handler): (Result<int>, nat)
    decreases |pkts|
  {
    if pkts == [] then (Ok(received), 0)
    else
      var (r, end) := ReadMessageSpec(pkts[0], received, receivedMax, handler);
      var here := if end then 1 else 0;
      match r
      case Ok(k) =>
        var (r', ends) := ReadMessages(pkts[1..], k, receivedMax, handler);
        (r', here + ends)
      case Err(e) => (Err(e), here)
      case Panic => (Panic, here)
  }

  /// A PUBLISH that decodes and whose payload the handler accepts.
  predicate Handled(pkt: Bytes, handler: Handler)
  {
    pkt != [] && pkt[0] == PublishCmd && ReadPublishSpec(pkt).Ok?
    && handler(ReadPublishSpec(pkt).value.payload).None?
  }

  /// A handled PUBLISH counts one message.
  lemma HandledStep(pkt: Bytes, received: int, receivedMax: int, handler: Handler)
    requires Handled(pkt, handler)
    ensures ReadMessageSpec(pkt, received, receivedMax, handler)
         == if received + 1 >= receivedMax then (Ok(0), true) else (Ok(received + 1), false)
  {
  }

  /// Every `receivedMax`-th handled PUBLISH emits a clean end: after `n`
  /// of them, starting from a counter `r0`, there have been `ends` ends and
  /// the counter is `r` with `ends * receivedMax + r == r0 + n`.
  lemma {:induction false} ReceivedCount(pkts: seq<Bytes>, r0: int, receivedMax: int, handler: Handler)
    requires 1 <= receivedMax && 0 <= r0 < receivedMax
    requires forall i | 0 <= i < |pkts| :: Handled(pkts[i], handler)
    ensures var (r, ends) := ReadMessages(pkts, r0, receivedMax, handler);
      && r.Ok? && 0 <= r.value < receivedMax
      && ends * receivedMax + r.value == r0 + |pkts|
    decreases |pkts|
  {
    if pkts != [] {
      assert Handled(pkts[0], handler);
      HandledStep(pkts[0], r0, receivedMax, handler);
      var (r, end) := ReadMessageSpec(pkts[0], r0, receivedMax, handler);
      assert forall i | 0 <= i < |pkts[1..]| :: Handled(pkts[1..][i], handler) by {
        forall i | 0 <= i < |pkts[1..]|
          ensures Handled(pkts[1..][i], handler)
        {
          assert pkts[1..][i] == pkts[i + 1];
        }
      }
      ReceivedCount(pkts[1..], r.value, receivedMax, handler);
      var (r', ends') := ReadMessages(pkts[1..], r.value, receivedMax, handler);
      if end {
        assert (ends' + 1) * receivedMax == ends' * receivedMax + receivedMax;
      }
    }
  }

  /// A PUBLISH built without properties, read into the loop's buffer: the
  /// handler is called with an empty payload whatever the message carried.
  lemma HandlerGetsEmptyPayload(m: AppMessage, received: int, receivedMax: int, handler: Handler)
    requires PublishFits(m) && !m.format && m.contentType == []
    requires |PublishPacket(m).value| <= ReadBufferSize
    ensures ReadMessageSpec(ReadBuffer(PublishPacket(m).value), received, receivedMax, handler)
         == Deliver([], received, receivedMax, handler)
  {
    var pkt := PublishPacket(m).value;
    var pad := seq(ReadBufferSize - |pkt|, i => 0);
    PublishPacketFrame(m);
    PublishReadBackDropsPayload(m, pad);
    assert ReadBuffer(pkt) == pkt + pad;
  }

  /// The outcome of one `conn.Read` in the read loop.
  datatype ReadEvent =
    | Data(data: Bytes)                    // the bytes read, no error
    | Timeout                              // a net.Error whose Timeout() is true
    | NetError(code: nat, wrapsEOF: bool)  // any other net.Error
    | BareError(code: nat)                 // an error that is not a net.Error, such as the io.EOF TCPConn.Read returns

  /// Where the loop is after a turn.
  datatype LoopState = Running(received: int) | Stopped | Crashed

  /// One turn: the next state, the end states sent and the packets written.
  datatype StepResult = StepResult(next: LoopState, ends: seq<EndState>, writes: seq<Bytes>)

  /// One turn of the loop in `connect`.  A closed connection ends cleanly.
  /// Data goes to `readMessage`, whose error ends the loop.  A read error is
  /// first asserted to be a `net.Error`, which panics when it is not: an
  /// io.EOF returned as is crashes the goroutine.  A timeout writes a
  /// PINGREQ and resets the deadline (`pingErr` and `deadlineErr` are the
  /// outcomes of those calls); an EOF wrapped in a net.Error ends cleanly;
  /// any other error ends with that error.
  function Step(connOpen: bool, ev: ReadEvent, received: int, receivedMax: int, handler: Handler,
                pingErr: Option<nat>, deadlineErr: Option<nat>): StepResult
  {
    if !connOpen then StepResult(Stopped, [EndState(None)], [])
    else
      match ev
      case Data(data) =>
        var (r, end) := ReadMessageSpec(ReadBuffer(data), received, receivedMax, handler);
        var clean := if end then [EndState(None)] else [];
        (match r
         case Ok(k) => StepResult(Running(k), clean, [])
         case Err(e) => StepResult(Stopped, clean + [EndState(Some(e))], [])
         case Panic => StepResult(Crashed, clean, []))
      case Timeout =>
        if pingErr.Some? then StepResult(Stopped, [EndState(Some(Transport(pingErr.value)))], [])
        else if deadlineErr.Some? then StepResult(Stopped, [EndState(Some(Transport(deadlineErr.value)))], [Ping])
        else StepResult(Running(received), [], [Ping])
      case NetError(code, wrapsEOF) =>
        StepResult(Stopped, [EndState(if wrapsEOF then None else Some(Transport(code)))], [])
      case BareError(_) => StepResult(Crashed, [], [])
  }

  /// A timeout that the ping and the deadline survive writes exactly
  /// `C0 00` and keeps the counter; a bare error, io.EOF included, crashes
  /// instead of ending cleanly.
  lemma StepOnReadErrors(received: int, receivedMax: int, handler: Handler, code: nat)
    ensures Step(true, Timeout, received, receivedMax, handler, None, None)
         == StepResult(Running(received), [], [[0xC0, 0x00]])
    ensures Step(true, BareError(code), received, receivedMax, handler, None, None).next == Crashed
    ensures Step(true, NetError(code, true), received, receivedMax, handler, None, None)
         == StepResult(Stopped, [EndState(None)], [])
  {
  }

  /// A DISCONNECT read emits a clean end but the loop keeps running with
  /// the same counter.
  lemma DisconnectKeepsReading(data: Bytes, received: int, receivedMax: int, handler: Handler,
                               pingErr: Option<nat>, deadlineErr: Option<nat>)
    requires data != [] && data[0] == DisconnectCmd
    ensures Step(true, Data(data), received, receivedMax, handler, pingErr, deadlineErr)
         == StepResult(Running(received), [EndState(None)], [])
  {
    assert ReadBuffer(data)[0] == DisconnectCmd;
  }

  /// The loop's counter stays in `[0, receivedMax)` turn after turn.
  lemma StepKeepsCounter(connOpen: bool, ev: ReadEvent, received: int, receivedMax: int, handler: Handler,
                         pingErr: Option<nat>, deadlineErr: Option<nat>)
    requires 1 <= receivedMax && 0 <= received < receivedMax
    ensures var s := Step(connOpen, ev, received, receivedMax, handler, pingErr, deadlineErr);
      s.next.Running? ==> 0 <= s.next.received < receivedMax
  {
    if connOpen && ev.Data? {
      ReadMessageCounter(ReadBuffer(ev.data), received, receivedMax, handler);
    }
  }

  /// `connect`'s check of the reply to CONNECT, read into a 1024-byte
  /// buffer: only its first byte is looked at.
  function HandshakeCheck(reply: Bytes): (r: Option<Error>)
    ensures r.None? <==> reply != [] && reply[0] == ConnackCmd
    ensures r.Some? ==> r == Some(UnexpectedResponse)
  {
    if ReadBuffer(reply)[0] != ConnackCmd then Some(UnexpectedResponse) else None
  }

  /// `connect` never parses the CONNACK: a server refusing the connection
  /// with Not Authorized (0x87) passes the check.
  lemma RefusalPassesHandshake()
    ensures HandshakeCheck([0x20, 3, 0x00, 0x87, 0x00]).None?
    ensures ReadConnackSpec([0x20, 3, 0x00, 0x87, 0x00]).Ok?
    ensures ReadConnackSpec([0x20, 3, 0x00, 0x87, 0x00]).value.code == 0x87
  {
    ConnackRefusalParses();
  }

  /// `PorterClient`.  The connection itself is not modelled: `sent` records
  /// what was written to it and `ends` what was sent on `endState`.
  class PorterClient {
    var serverHost: Bytes
    var connOpen: bool
    var clientID: Bytes
    var keepAlive: u16
    var qos: int
    var creds: Option<Credential>
    var receivedMax: int
    var messageHandler: Handler
    var ends: seq<EndState>
    var sent: seq<Bytes>

    /// The fields the options write.
    function Config(): Settings
      reads this
    {
      Settings(clientID, creds, receivedMax, messageHandler)
    }

    /// `NewClient`: the host, keep-alive and QoS as given, the defaults,
    /// then every option in order.
    constructor (serverHost: Bytes, keepAlive: u16, qos: int, options: seq<ClientOption>)
      ensures this.serverHost == serverHost && this.keepAlive == keepAlive && this.qos == qos
      ensures Config() == Configure(Defaults, options)
      ensures !connOpen && ends == [] && sent == []
    {
      this.serverHost := serverHost;
      this.keepAlive := keepAlive;
      this.qos := qos;
      connOpen := false;
      clientID := [];
      creds := None;
      receivedMax := 10;
      messageHandler := NoOp;
      ends := [];
      sent := [];
      new;
      for i := 0 to |options|
        invariant this.serverHost == serverHost && this.keepAlive == keepAlive && this.qos == qos
        invariant !connOpen && ends == [] && sent == []
        invariant Config() == Configure(Defaults, options[..i])
      {
        assert options[..i + 1] == options[..i] + [options[i]];
        ConfigureSnoc(Defaults, options[..i], options[i]);
        Apply(options[i]);
      }
      assert options[..|options|] == options;
    }

    /// One option closure run on the client.
    method Apply(o: ClientOption)
      modifies this`clientID, this`creds, this`receivedMax, this`messageHandler
      ensures Config() == ApplyOption(old(Config()), o)
    {
      match o
      case WithID(id) =>
        clientID := id;
      case WithBasicCredentials(user, pwd) =>
        creds := Some(Credential(PasswordMethod, Some(user), Some(pwd)));
      case WithMaxMessage(max) =>
        receivedMax := max;
      case WithCallBack(fn) =>
        messageHandler := fn;
    }

    /// `readMessage`, with `*received` passed in and its new value returned.
    method ReadMessage(pkt: Bytes, received: int) returns (r: Result<int>)
      modifies this`ends
      ensures r == ReadMessageSpec(pkt, received, receivedMax, messageHandler).0
      ensures ends == old(ends) + if ReadMessageSpec(pkt, received, receivedMax, messageHandler).1
                                 then [EndState(None)] else []
    {
      if |pkt| == 0 {
        return Panic;
      }
      if pkt[0] == DisconnectCmd {
        ends := ends + [EndState(None)];
        return Ok(received);
      } else if pkt[0] == PublishCmd {
        var msg := ReadPublish(pkt);
        if !msg.Ok? {
          return if msg.Panic? then Panic else Err(msg.error);
        }
        var handled := messageHandler(msg.value.payload);
        if handled.Some? {
          return Err(HandlerFailed(handled.value));
        }
        var count := received + 1;
        if count >= receivedMax {
          count := 0;
          ends := ends + [EndState(None)];
          return Ok(count);
        }
        return Ok(count);
      }
      return Ok(received);
    }

    /// One turn of the read loop, given what the read returned and what the
    /// ping write and the deadline reset would return.
    method ReadLoopStep(ev: ReadEvent, received: int, pingErr: Option<nat>, deadlineErr: Option<nat>)
      returns (next: LoopState)
      modifies this`ends, this`sent
      ensures var s := Step(connOpen, ev, received, receivedMax, messageHandler, pingErr, deadlineErr);
        next == s.next && ends == old(ends) + s.ends && sent == old(sent) + s.writes
    {
      if !connOpen {
        ends := ends + [EndState(None)];
        return Stopped;
      }
      match ev
      case Data(data) =>
        var buff := ReadBuffer(data);
        var r := ReadMessage(buff, received);
        if r.Ok? {
          return Running(r.value);
        } else if r.Panic? {
          return Crashed;
        }
        ends := ends + [EndState(Some(r.error))];
        return Stopped;
      case Timeout =>
        if pingErr.Some? {
          ends := ends + [EndState(Some(Transport(pingErr.value)))];
          return Stopped;
        }
        sent := sent + [Ping];
        if deadlineErr.Some? {
          ends := ends + [EndState(Some(Transport(deadlineErr.value)))];
          return Stopped;
        }
        return Running(received);
      case NetError(code, wrapsEOF) =>
        if wrapsEOF {
          ends := ends + [EndState(None)];
        } else {
          ends := ends + [EndState(Some(Transport(code)))];
        }
        return Stopped;
      case BareError(_) =>
        // `err.(net.Error)` panics.
        return Crashed;
    }
  }
}
