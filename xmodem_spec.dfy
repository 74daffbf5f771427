/** Reference semantics of the XMODEM engine in lib/xmodem/src/lib.rs.

    A session is a value of type `State`: the packet number it expects or will
    send next, whether the initial NAK has been consumed, the bytes the peer has
    still to send, everything written to the peer so far, and the sequence
    numbers reported to the progress callback. Every operation of the engine is
    a function from a `State` to a `Step`: the operation's `io::Result` together
    with the state afterwards. The imperative classes in module `Xmodem` are
    proved to behave exactly like these functions, and module
    `XmodemProperties` proves what the protocol promises about them. */
module XmodemSpec {
  import opened Common

  const SOH: byte := 0x01
  const EOT: byte := 0x04
  const ACK: byte := 0x06
  const NAK: byte := 0x15
  const CAN: byte := 0x18

  /** Payload bytes carried by one packet. */
  const PACKET_LEN: nat := 128
  /** Attempts per packet (sender) or per packet slot (receiver). */
  const MAX_ATTEMPTS: nat := 10

  /** The `io::ErrorKind`s the engine produces. */
  datatype ErrorKind = InvalidData | Interrupted | ConnectionAborted | BrokenPipe | UnexpectedEof

  type IoResult<T> = Result<T, ErrorKind>

  /** `p.wrapping_add(1)` on a `u8`. */
  function NextPacket(p: byte): (q: byte)
    ensures q == if p == 255 then 0 else p + 1
  {
    (p + 1) % 256
  }

  // ---------------------------------------------------------------------
  // Checksum

  /** The plain integer sum of a byte sequence. */
  function Sum(s: seq<byte>): int
  {
    if s == [] then 0 else s[0] + Sum(s[1..])
  }

  /** `fold(acc, |a, b| a.wrapping_add(*b))` over `s`. */
  function ChecksumFrom(acc: byte, s: seq<byte>): (c: byte)
    ensures c == (acc + Sum(s)) % 256
    decreases |s|
  {
    if s == [] then acc
    else
      ModAddLeft(acc + s[0], Sum(s[1..]));
      ChecksumFrom((acc + s[0]) % 256, s[1..])
  }

  /** Reducing a partial sum modulo 256 early does not change the result. */
  lemma ModAddLeft(x: int, t: int)
    ensures (x % 256 + t) % 256 == (x + t) % 256
  {
  }

  /** `get_checksum`: the 8-bit additive checksum of a buffer. */
  function Checksum(buf: seq<byte>): (c: byte)
    ensures c == Sum(buf) % 256
  {
    ChecksumFrom(0, buf)
  }

  /** The bytes `write_packet` puts on the wire for a data packet. */
  function Frame(p: byte, payload: seq<byte>): seq<byte>
  {
    [SOH, p, 255 - p] + payload + [Checksum(payload)]
  }

  /** `packet[n..]` zero-filled after `read_max` stored `chunk` in front. */
  function Pad(chunk: seq<byte>): (p: seq<byte>)
    requires |chunk| <= PACKET_LEN
    ensures |p| == PACKET_LEN && p[..|chunk|] == chunk
    ensures forall i :: |chunk| <= i < PACKET_LEN ==> p[i] == 0
  {
    chunk + Zeros(PACKET_LEN - |chunk|)
  }

  // ---------------------------------------------------------------------
  // Session state and the channel primitives

  datatype State = State(
    packet: byte,            // `Xmodem::packet`
    started: bool,           // `Xmodem::started`
    incoming: seq<byte>,     // bytes the peer has still to send
    outgoing: seq<byte>,     // every byte written to the peer so far
    progress: seq<byte>)     // `Progress::Packet(n)` reports, oldest first

  datatype Step<T> = Step(result: IoResult<T>, after: State)

  /** `Xmodem::new` / `new_with_progress` over a channel whose peer will send
      `peer` and on which `log` has already been written. */
  function Initial(peer: seq<byte>, log: seq<byte>): State
  {
    State(1, false, peer, log, [])
  }

  /** Carries an error on to an operation with another success type (`?`). */
  function Fail<T, U>(r: Step<U>): Step<T>
    requires r.result.Err?
  {
    Step(Err(r.result.error), r.after)
  }

  /** `write_byte` / `write_all`: writes never fail in this model. */
  function Send(s: State, bytes: seq<byte>): State
  {
    s.(outgoing := s.outgoing + bytes)
  }

  /** `read_exact` into an `n`-byte buffer. */
  function StepReadExact(s: State, n: nat): Step<seq<byte>>
  {
    if |s.incoming| < n then Step(Err(UnexpectedEof), s)
    else Step(Ok(s.incoming[..n]), s.(incoming := s.incoming[n..]))
  }

  /** `read_byte(abort_on_can)`. */
  function StepReadByte(s: State, abortOnCan: bool): Step<byte>
  {
    if s.incoming == [] then Step(Err(UnexpectedEof), s)
    else
      var b := s.incoming[0];
      var t := s.(incoming := s.incoming[1..]);
      if abortOnCan && b == CAN then Step(Err(ConnectionAborted), t) else Step(Ok(b), t)
  }

  /** `expect_byte_or_cancel(byte, _)`. */
  function StepExpectByteOrCancel(s: State, byte: byte): Step<byte>
  {
    var r := StepReadByte(s, false);
    if r.result.Err? then r
    else if r.result.value != byte then
      Step(Err(if r.result.value == CAN then ConnectionAborted else InvalidData), Send(r.after, [CAN]))
    else r
  }

  /** `expect_byte(byte, _)`. */
  function StepExpectByte(s: State, byte: byte): Step<byte>
  {
    var r := StepReadByte(s, byte != CAN);
    if r.result.Err? then r
    else if r.result.value != byte then Step(Err(InvalidData), Send(r.after, [CAN]))
    else r
  }

  /** The sender's end of transmission: EOT, expect NAK, EOT, expect ACK. */
  function StepCloseSender(s: State): Step<()>
  {
    var nak := StepExpectByte(Send(s, [EOT]), NAK);
    if nak.result.Err? then Fail(nak)
    else
      var ack := StepExpectByte(Send(nak.after, [EOT]), ACK);
      if ack.result.Err? then Fail(ack) else Step(Ok(()), ack.after)
  }

  // ---------------------------------------------------------------------
  // Single packets

  /** What `read_packet` returns, and what it left in the caller's buffer. */
  datatype PacketRead = PacketRead(step: Step<nat>, buf: seq<byte>)

  /** `read_packet(buf)`. The data phase reads `buf.len()` bytes, as the code
      does (a caller passing exactly 128 bytes reads one packet payload). */
  function StepReadPacket(s: State, buf: seq<byte>): (r: PacketRead)
    ensures |r.buf| == |buf|
    ensures r.step.result.Ok? ==> r.step.result.value == 0 || r.step.result.value == PACKET_LEN
    ensures |r.step.after.incoming| <= |s.incoming|
    ensures r.step.result.Ok? && r.step.result.value != 0 ==> |r.step.after.incoming| < |s.incoming|
    ensures r.step.result == Err(Interrupted) ==> |r.step.after.incoming| < |s.incoming|
  {
    if |buf| < PACKET_LEN then PacketRead(Step(Err(UnexpectedEof), s), buf)
    else
      var first := StepReadByte(s, true);
      if first.result.Err? then PacketRead(Fail(first), buf)
      else if first.result.value == EOT then PacketRead(StepReceiveEot(first.after), buf)
      else if first.result.value != SOH then PacketRead(StepBadHeader(first.after), buf)
      else StepReadPacketBody(first.after, buf)
  }

  /** `read_packet` after a first byte of EOT: NAK, expect EOT, ACK. */
  function StepReceiveEot(s: State): Step<nat>
  {
    var eot := StepExpectByte(Send(s, [NAK]), EOT);
    if eot.result.Err? then Fail(eot) else Step(Ok(0), Send(eot.after, [ACK]))
  }

  /** `read_packet` after a first byte that is neither SOH nor EOT. */
  function StepBadHeader(s: State): Step<nat>
  {
    var second := StepReadByte(s, false);
    if second.result.Err? then Fail(second)
    else
      var kind := if second.result.value == CAN then ConnectionAborted else InvalidData;
      Step(Err(kind), Send(second.after, [CAN]))
  }

  /** `read_packet` after SOH: packet number, complement, payload, checksum.
      A CAN in place of the number or the complement aborts the session,
      except where CAN is the byte expected there, as `expect_byte` does:
      the code reads both with `read_byte(true)`, which also refuses packet
      24 (0x18 is CAN) and packet 231 (complement 0x18); see
      `StepReadPacketBodyAsWritten`. */
  function StepReadPacketBody(s: State, buf: seq<byte>): (r: PacketRead)
    ensures |r.buf| == |buf|
    ensures |r.step.after.incoming| < |s.incoming| || r.step.result == Err(UnexpectedEof)
    ensures r.step.result.Ok? ==> r.step.result.value == PACKET_LEN
  {
    var num := StepReadByte(s, s.packet != CAN);
    if num.result.Err? then PacketRead(Fail(num), buf)
    else
      var comp := StepReadByte(num.after, 255 - s.packet != CAN);
      if comp.result.Err? then PacketRead(Fail(comp), buf)
      else if num.result.value != s.packet || comp.result.value != 255 - s.packet then
        PacketRead(Step(Err(InvalidData), Send(comp.after, [CAN])), buf)
      else StepReadPayload(comp.after, buf)
  }

  /** `read_packet` after SOH exactly as lib.rs lines 232-237 read the
      header: a number or complement of CAN aborts the session. */
  function StepReadPacketBodyAsWritten(s: State, buf: seq<byte>): (r: PacketRead)
    ensures |r.buf| == |buf|
    ensures r.step.result.Ok? ==> s.packet != CAN && 255 - s.packet != CAN
  {
    var num := StepReadByte(s, true);
    if num.result.Err? then PacketRead(Fail(num), buf)
    else
      var comp := StepReadByte(num.after, true);
      if comp.result.Err? then PacketRead(Fail(comp), buf)
      else if num.result.value != s.packet || comp.result.value != 255 - s.packet then
        PacketRead(Step(Err(InvalidData), Send(comp.after, [CAN])), buf)
      else StepReadPayload(comp.after, buf)
  }

  /** `read_packet` once the header is accepted: payload into `buf`, then checksum. */
  function StepReadPayload(s: State, buf: seq<byte>): (r: PacketRead)
    ensures |r.buf| == |buf|
    ensures |r.step.after.incoming| < |s.incoming| || r.step.result == Err(UnexpectedEof)
    ensures r.step.result.Ok? ==> r.step.result.value == PACKET_LEN
  {
    var data := StepReadExact(s, |buf|);
    if data.result.Err? then PacketRead(Fail(data), buf)
    else PacketRead(StepCheckPayload(data.after, data.result.value), data.result.value)
  }

  /** `read_packet` once the payload is in: compare the checksum byte. */
  function StepCheckPayload(s: State, payload: seq<byte>): Step<nat>
  {
    var sum := StepReadByte(s, false);
    if sum.result.Err? then Fail(sum)
    else if Checksum(payload) != sum.result.value then Step(Err(Interrupted), Send(sum.after, [NAK]))
    else
      var acked := Send(sum.after, [ACK]);
      var next := NextPacket(s.packet);
      Step(Ok(PACKET_LEN), acked.(packet := next, progress := acked.progress + [next]))
  }

  /** `write_packet(buf)`. */
  function StepWritePacket(s: State, buf: seq<byte>): Step<nat>
  {
    if buf == [] then StepWriteEot(s) else StepWriteData(s, buf)
  }

  /** `write_packet(&[])`: consume the initial NAK if needed, then close. */
  function StepWriteEot(s: State): Step<nat>
  {
    var handshake := if s.started then Step(Ok(NAK), s) else StepExpectByte(s, NAK);
    if handshake.result.Err? then Fail(handshake)
    else
      var close := StepCloseSender(handshake.after.(started := true));
      if close.result.Err? then Fail(close) else Step(Ok(0), close.after)
  }

  /** `write_packet(buf)` with a non-empty `buf`: a frame, then the response. */
  function StepWriteData(s: State, buf: seq<byte>): Step<nat>
  {
    var response := StepReadByte(Send(s, Frame(s.packet, buf)), true);
    if response.result.Err? then Fail(response)
    else if response.result.value == NAK then Step(Err(Interrupted), response.after)
    else if response.result.value != ACK then Step(Err(InvalidData), response.after)
    else
      var next := NextPacket(s.packet);
      Step(Ok(|buf|), response.after.(packet := next, progress := response.after.progress + [next]))
  }

  // ---------------------------------------------------------------------
  // Whole transfers

  /** The sender's `for _ in 0..10` loop around `write_packet`, from the
      given attempt on. (The state in the `decreases` clause changes nothing
      about termination; it keeps a literal attempt number from making the
      verifier unroll all ten attempts.) */
  function RetrySend(s: State, packet: seq<byte>, attempt: nat): (r: Step<nat>)
    ensures r.result != Err(Interrupted)
    decreases MAX_ATTEMPTS - attempt, s
  {
    if attempt >= MAX_ATTEMPTS then Step(Err(BrokenPipe), s)
    else
      var w := StepWritePacket(s, packet);
      if w.result == Err(Interrupted) then RetrySend(w.after, packet, attempt + 1) else w
  }

  /** The sender's `'next_packet` loop, with `written` bytes already sent. */
  function TransmitFrom(s: State, data: seq<byte>, written: nat): Step<nat>
    decreases |data|
  {
    var n := if |data| < PACKET_LEN then |data| else PACKET_LEN;
    if n == 0 then
      var close := StepCloseSender(s);
      if close.result.Err? then Fail(close) else Step(Ok(written), close.after)
    else
      var w := RetrySend(s, Pad(data[..n]), 0);
      if w.result.Err? then Fail(w) else TransmitFrom(w.after, data[n..], written + n)
  }

  /** One turn of the sender's loop that delivers a data packet. */
  lemma TransmitFromData(s: State, data: seq<byte>, written: nat, n: nat, w: Step<nat>)
    requires 0 < n == (if |data| < PACKET_LEN then |data| else PACKET_LEN)
    requires w == RetrySend(s, Pad(data[..n]), 0) && w.result.Ok?
    ensures TransmitFrom(s, data, written) == TransmitFrom(w.after, data[n..], written + n)
  {
  }

  /** `transmit_with_progress(data, to, f)`. */
  function RunTransmit(data: seq<byte>, peer: seq<byte>, log: seq<byte>): Step<nat>
  {
    var initial := StepReadByte(Initial(peer, log), true);
    if initial.result.Err? then Fail(initial)
    else if initial.result.value != NAK then Step(Err(InvalidData), initial.after)
    else TransmitFrom(initial.after.(started := true), data, 0)
  }

  /** The receiver's `for _ in 0..10` loop around `read_packet`, from the
      given attempt on. */
  function RetryReceive(s: State, buf: seq<byte>, attempt: nat): (r: PacketRead)
    ensures |r.buf| == |buf|
    ensures r.step.result.Ok? ==> r.step.result.value == 0 || r.step.result.value == PACKET_LEN
    ensures |r.step.after.incoming| <= |s.incoming|
    ensures r.step.result.Ok? && r.step.result.value != 0 ==> |r.step.after.incoming| < |s.incoming|
    ensures r.step.result != Err(Interrupted)
    decreases MAX_ATTEMPTS - attempt, s
  {
    if attempt >= MAX_ATTEMPTS then PacketRead(Step(Err(BrokenPipe), s), buf)
    else
      var p := StepReadPacket(s, buf);
      if p.step.result == Err(Interrupted) then RetryReceive(p.step.after, p.buf, attempt + 1) else p
  }

  /** A whole receive: result, final session state, and the bytes written to the sink. */
  datatype Transfer = Transfer(result: IoResult<nat>, after: State, sink: seq<byte>)

  /** The receiver's `'next_packet` loop, with `received` bytes and `sink` so
      far. `received += n` is written `received + PACKET_LEN`: a successful
      data packet always reports `PACKET_LEN` bytes (`StepReadPacket`'s
      contract), and the constant keeps the verifier's arithmetic small. */
  function ReceiveFrom(s: State, buf: seq<byte>, received: nat, sink: seq<byte>): Transfer
    decreases |s.incoming|
  {
    var p := RetryReceive(s, buf, 0);
    if p.step.result.Err? then Transfer(p.step.result, p.step.after, sink)
    else if p.step.result.value == 0 then Transfer(Ok(received), p.step.after, sink)
    else ReceiveFrom(p.step.after, p.buf, received + PACKET_LEN, sink + p.buf)
  }

  /** `receive_with_progress(from, into, f)`. */
  function RunReceive(peer: seq<byte>, log: seq<byte>): Transfer
  {
    ReceiveFrom(Send(Initial(peer, log), [NAK]), Zeros(PACKET_LEN), 0, [])
  }
}
