/** The XMODEM engine of lib/xmodem/src/lib.rs as imperative code: a session
    object whose fields `packet` and `started` change in place, over a duplex
    channel object. Every method is proved to do exactly what the matching
    function of `XmodemSpec` describes. */
module Xmodem {
  import opened Common
  import opened XmodemSpec

  /** The duplex byte channel `R: io::Read + io::Write`: the bytes the peer
      will send, a read cursor into them, and the log of bytes written. */
  class Channel {
    const peer: seq<byte>
    var cursor: nat
    var written: seq<byte>

    ghost predicate Valid()
      reads this
    {
      cursor <= |peer|
    }

    /** The bytes the peer has still to send. */
    ghost function Pending(): seq<byte>
      reads this
      requires Valid()
    {
      peer[cursor..]
    }

    constructor (peer: seq<byte>)
      ensures Valid() && this.peer == peer && Pending() == peer && written == []
    {
      this.peer := peer;
      cursor := 0;
      written := [];
    }

    /** `read_exact` into an `n`-byte buffer: fails when the peer has fewer
        than `n` bytes left. */
    method ReadExact(n: nat) returns (r: IoResult<seq<byte>>)
      requires Valid()
      modifies this`cursor
      ensures Valid()
      ensures if |old(Pending())| < n then r == Err(UnexpectedEof) && Pending() == old(Pending())
              else r == Ok(old(Pending())[..n]) && Pending() == old(Pending())[n..]
    {
      if |peer| - cursor < n {
        return Err(UnexpectedEof);
      }
      r := Ok(peer[cursor..cursor + n]);
      assert peer[cursor..cursor + n] == peer[cursor..][..n];
      cursor := cursor + n;
    }

    /** `write_all`. */
    method WriteAll(bytes: seq<byte>)
      requires Valid()
      modifies this`written
      ensures Valid() && written == old(written) + bytes
    {
      written := written + bytes;
    }
  }

  /** The data source `R: io::Read` of a transmission. */
  class Source {
    const data: seq<byte>
    var pos: nat

    ghost predicate Valid()
      reads this
    {
      pos <= |data|
    }

    ghost function Rest(): seq<byte>
      reads this
      requires Valid()
    {
      data[pos..]
    }

    constructor (data: seq<byte>)
      ensures Valid() && Rest() == data
    {
      this.data := data;
      pos := 0;
    }

    /** `read_max(buf)`, which is not part of this model: assumed to fill the
        front of `buf` with as many of the remaining bytes as fit. */
    method ReadMax(buf: array<byte>) returns (n: nat)
      requires Valid()
      modifies this`pos, buf
      ensures Valid()
      ensures n == if |old(Rest())| < buf.Length then |old(Rest())| else buf.Length
      ensures buf[..n] == old(Rest())[..n] && buf[n..] == old(buf[n..])
      ensures Rest() == old(Rest())[n..]
    {
      n := if |data| - pos < buf.Length then |data| - pos else buf.Length;
      for i := 0 to n
        modifies buf
        invariant buf[..i] == data[pos..pos + i] && buf[i..] == old(buf[i..])
      {
        buf[i] := data[pos + i];
      }
      pos := pos + n;
    }
  }

  /** The sink `W: io::Write` of a reception. */
  class Sink {
    var data: seq<byte>

    constructor ()
      ensures data == []
    {
      data := [];
    }

    /** `write_all`. */
    method WriteAll(bytes: seq<byte>)
      modifies this
      ensures data == old(data) + bytes
    {
      data := data + bytes;
    }
  }

  /** `struct Xmodem<R>`. The progress callback is modelled by the log of the
      sequence numbers it is handed. */
  class Xmodem {
    var packet: byte
    var started: bool
    var progress: seq<byte>
    const inner: Channel

    ghost predicate Valid()
      reads this, inner
    {
      inner.Valid()
    }

    /** The session as a value of the reference semantics. */
    ghost function Snapshot(): State
      reads this, inner
      requires Valid()
    {
      State(packet, started, inner.Pending(), inner.written, progress)
    }

    /** `Xmodem::new(inner)` and `Xmodem::new_with_progress(inner, f)`. */
    constructor (inner: Channel)
      requires inner.Valid()
      ensures Valid() && this.inner == inner
      ensures Snapshot() == Initial(inner.Pending(), inner.written)
    {
      packet := 1;
      started := false;
      progress := [];
      this.inner := inner;
    }

    method ReadByte(abortOnCan: bool) returns (r: IoResult<byte>)
      requires Valid()
      modifies inner
      ensures Valid()
      ensures Step(r, Snapshot()) == StepReadByte(old(Snapshot()), abortOnCan)
    {
      var bytes := inner.ReadExact(1);
      if bytes.Err? {
        return Err(bytes.error);
      }
      var b := bytes.value[0];
      if abortOnCan && b == CAN {
        return Err(ConnectionAborted);
      }
      return Ok(b);
    }

    method WriteByte(b: byte)
      requires Valid()
      modifies inner
      ensures Valid()
      ensures Snapshot() == Send(old(Snapshot()), [b])
    {
      inner.WriteAll([b]);
    }

    method ExpectByteOrCancel(byte: byte) returns (r: IoResult<byte>)
      requires Valid()
      modifies inner
      ensures Valid()
      ensures Step(r, Snapshot()) == StepExpectByteOrCancel(old(Snapshot()), byte)
    {
      var b := ReadByte(false);
      if b.Err? {
        return b;
      }
      if b.value != byte {
        WriteByte(CAN);
        if b.value == CAN {
          return Err(ConnectionAborted);
        } else {
          return Err(InvalidData);
        }
      }
      return b;
    }

    method ExpectByte(byte: byte) returns (r: IoResult<byte>)
      requires Valid()
      modifies inner
      ensures Valid()
      ensures Step(r, Snapshot()) == StepExpectByte(old(Snapshot()), byte)
    {
      var b;
      if byte == CAN {
        b := ReadByte(false);
      } else {
        b := ReadByte(true);
      }
      if b.Err? {
        return b;
      }
      if b.value != byte {
        WriteByte(CAN);
        return Err(InvalidData);
      }
      return b;
    }

    /** The sender's end of transmission: EOT, expect NAK, EOT, expect ACK
        (lib.rs lines 72-75 and 266-269). */
    method CloseSender() returns (r: IoResult<()>)
      requires Valid()
      modifies inner
      ensures Valid()
      ensures Step(r, Snapshot()) == StepCloseSender(old(Snapshot()))
    {
      WriteByte(EOT);
      var nak := ExpectByte(NAK);
      if nak.Err? {
        return Err(nak.error);
      }
      WriteByte(EOT);
      var ack := ExpectByte(ACK);
      if ack.Err? {
        return Err(ack.error);
      }
      return Ok(());
    }

    /** `read_packet(buf)`. */
    method ReadPacket(buf: array<byte>) returns (r: IoResult<nat>)
      requires Valid()
      modifies this, inner, buf
      ensures Valid()
      ensures PacketRead(Step(r, Snapshot()), buf[..]) == StepReadPacket(old(Snapshot()), old(buf[..]))
    {
      if buf.Length < PACKET_LEN {
        return Err(UnexpectedEof);
      }
      var first := ReadByte(true);
      if first.Err? {
        return Err(first.error);
      }
      if first.value == EOT {
        r := ReceiveEot();
      } else if first.value != SOH {
        r := RejectHeader();
      } else {
        r := ReadPacketBody(buf);
      }
    }

    /** `read_packet` after an EOT header (lib.rs lines 214-220). */
    method ReceiveEot() returns (r: IoResult<nat>)
      requires Valid()
      modifies inner
      ensures Valid()
      ensures Step(r, Snapshot()) == StepReceiveEot(old(Snapshot()))
    {
      WriteByte(NAK);
      var eot := ExpectByte(EOT);
      if eot.Err? {
        return Err(eot.error);
      }
      WriteByte(ACK);
      return Ok(0);
    }

    /** `read_packet` after a header that is neither SOH nor EOT (lib.rs lines 222-230). */
    method RejectHeader() returns (r: IoResult<nat>)
      requires Valid()
      modifies inner
      ensures Valid()
      ensures Step(r, Snapshot()) == StepBadHeader(old(Snapshot()))
    {
      var second := ReadByte(false);
      if second.Err? {
        return Err(second.error);
      }
      WriteByte(CAN);
      if second.value == CAN {
        return Err(ConnectionAborted);
      } else {
        return Err(InvalidData);
      }
    }

    /** `read_packet` after SOH (lib.rs lines 232-250), where a CAN aborts
        unless it is the expected number or complement (`StepReadPacketBody`). */
    method ReadPacketBody(buf: array<byte>) returns (r: IoResult<nat>)
      requires Valid()
      modifies this, inner, buf
      ensures Valid()
      ensures PacketRead(Step(r, Snapshot()), buf[..]) == StepReadPacketBody(old(Snapshot()), old(buf[..]))
    {
      var num := ReadByte(packet != CAN);
      if num.Err? {
        return Err(num.error);
      }
      var comp := ReadByte(255 - packet != CAN);
      if comp.Err? {
        return Err(comp.error);
      }
      if num.value != packet || comp.value != 255 - packet {
        WriteByte(CAN);
        return Err(InvalidData);
      }
      r := ReadPayload(buf);
    }

    /** `read_packet` once the header is accepted (lib.rs lines 239-250). */
    method ReadPayload(buf: array<byte>) returns (r: IoResult<nat>)
      requires Valid()
      modifies this, inner, buf
      ensures Valid()
      ensures PacketRead(Step(r, Snapshot()), buf[..]) == StepReadPayload(old(Snapshot()), old(buf[..]))
    {
      ghost var header := Snapshot();
      var data := inner.ReadExact(buf.Length);
      if data.Err? {
        return Err(data.error);
      }
      forall i | 0 <= i < buf.Length {
        buf[i] := data.value[i];
      }
      assert buf[..] == data.value;
      assert StepReadExact(header, buf.Length) == Step(data, Snapshot());
      var checksum := Checksum(buf[..]);
      var transmitted := ReadByte(false);
      if transmitted.Err? {
        return Err(transmitted.error);
      }
      if checksum != transmitted.value {
        WriteByte(NAK);
        return Err(Interrupted);
      }
      WriteByte(ACK);
      packet := NextPacket(packet);
      progress := progress + [packet];
      return Ok(PACKET_LEN);
    }

    /** `write_packet(buf)`. */
    method WritePacket(buf: seq<byte>) returns (r: IoResult<nat>)
      requires Valid()
      modifies this, inner
      ensures Valid()
      ensures Step(r, Snapshot()) == StepWritePacket(old(Snapshot()), buf)
    {
      if buf == [] {
        r := WriteEot();
      } else {
        r := WriteData(buf);
      }
    }

    /** `write_packet(&[])` (lib.rs lines 258-270). */
    method WriteEot() returns (r: IoResult<nat>)
      requires Valid()
      modifies this, inner
      ensures Valid()
      ensures Step(r, Snapshot()) == StepWriteEot(old(Snapshot()))
    {
      if !started {
        var nak := ExpectByte(NAK);
        if nak.Err? {
          return Err(nak.error);
        }
        started := true;
      }
      var close := CloseSender();
      if close.Err? {
        return Err(close.error);
      }
      return Ok(0);
    }

    /** `write_packet(buf)` with a non-empty `buf` (lib.rs lines 273-290). */
    method WriteData(buf: seq<byte>) returns (r: IoResult<nat>)
      requires Valid()
      modifies this, inner
      ensures Valid()
      ensures Step(r, Snapshot()) == StepWriteData(old(Snapshot()), buf)
    {
      SendFrame(buf);
      var response := ReadByte(true);
      if response.Err? {
        return Err(response.error);
      }
      if response.value == NAK {
        return Err(Interrupted);
      }
      if response.value != ACK {
        return Err(InvalidData);
      }
      packet := NextPacket(packet);
      progress := progress + [packet];
      return Ok(|buf|);
    }

    /** The frame `write_packet` sends for a non-empty `buf` (lib.rs lines 273-279). */
    method SendFrame(buf: seq<byte>)
      requires Valid()
      modifies inner
      ensures Valid()
      ensures Snapshot() == Send(old(Snapshot()), Frame(packet, buf))
    {
      ghost var before := inner.written;
      WriteByte(SOH);
      WriteByte(packet);
      WriteByte(255 - packet);
      inner.WriteAll(buf);
      var checksum := Checksum(buf);
      WriteByte(checksum);
      assert inner.written == before + Frame(packet, buf);
    }

    /** The sender's `for _ in 0..10` loop (lib.rs lines 79-91): retries
        `write_packet` on `Interrupted` only, and gives up with `BrokenPipe`. */
    method SendWithRetry(packet: seq<byte>) returns (r: IoResult<nat>)
      requires Valid()
      modifies this, inner
      ensures Valid()
      ensures Step(r, Snapshot()) == RetrySend(old(Snapshot()), packet, 0)
    {
      ghost var start := Snapshot();
      for attempt := 0 to MAX_ATTEMPTS
        invariant Valid()
        invariant RetrySend(Snapshot(), packet, attempt) == RetrySend(start, packet, 0)
      {
        var w := WritePacket(packet);
        if w != Err(Interrupted) {
          return w;
        }
      }
      return Err(BrokenPipe);
    }

    /** The receiver's `for _ in 0..10` loop (lib.rs lines 117-129): retries
        `read_packet` on `Interrupted` only, and gives up with `BrokenPipe`. */
    method ReceiveWithRetry(buf: array<byte>) returns (r: IoResult<nat>)
      requires Valid()
      modifies this, inner, buf
      ensures Valid()
      ensures PacketRead(Step(r, Snapshot()), buf[..]) == RetryReceive(old(Snapshot()), old(buf[..]), 0)
    {
      ghost var start, startBuf := Snapshot(), buf[..];
      for attempt := 0 to MAX_ATTEMPTS
        invariant Valid()
        invariant RetryReceive(Snapshot(), buf[..], attempt) == RetryReceive(start, startBuf, 0)
      {
        var p := ReadPacket(buf);
        if p != Err(Interrupted) {
          return p;
        }
      }
      return Err(BrokenPipe);
    }

    /** The receiver's `'next_packet` loop (lib.rs lines 116-131): reads
        packets until the sender's EOT, and returns the payloads accepted,
        in order, which the caller hands to `into.write_all`. */
    method ReceivePackets(buf: array<byte>) returns (r: IoResult<nat>, delivered: seq<byte>)
      requires Valid() && buf.Length == PACKET_LEN
      modifies this, inner, buf
      ensures Valid()
      ensures var run := ReceiveFrom(old(Snapshot()), old(buf[..]), 0, []);
        r == run.result && Snapshot() == run.after && delivered == run.sink
    {
      ghost var goal := ReceiveFrom(Snapshot(), buf[..], 0, []);
      var received: nat := 0;
      delivered := [];
      while true
        invariant Valid() && buf.Length == PACKET_LEN
        invariant ReceiveFrom(Snapshot(), buf[..], received, delivered) == goal
        decreases |inner.Pending()|
      {
        var p := ReceiveWithRetry(buf);
        if p.Err? {
          return Err(p.error), delivered;
        }
        if p.value == 0 {
          // End of transmission.
          return Ok(received), delivered;
        }
        received := received + p.value;
        delivered := delivered + buf[..];
      }
    }

    /** The sender's `'next_packet` loop (lib.rs lines 63-93): one padded
        packet per `read_max`, then the end-of-transmission handshake. */
    method SendPackets(data: Source, packet: array<byte>) returns (r: IoResult<nat>)
      requires Valid() && data.Valid() && packet.Length == PACKET_LEN
      modifies this, inner, data, packet
      ensures Valid() && data.Valid()
      ensures Step(r, Snapshot()) == TransmitFrom(old(Snapshot()), old(data.Rest()), 0)
    {
      ghost var goal := TransmitFrom(Snapshot(), data.Rest(), 0);
      var written: nat := 0;
      while true
        invariant Valid() && data.Valid() && packet.Length == PACKET_LEN
        invariant TransmitFrom(Snapshot(), data.Rest(), written) == goal
        decreases |data.Rest()|
      {
        var done;
        done, r, written := SendNext(data, packet, written);
        if done {
          return;
        }
      }
    }

    /** One turn of the sender's `'next_packet` loop: either the transfer
        ends (`done`, with result `r`) or one more packet of `n` bytes went
        through and the loop goes on with `written + n`. */
    method SendNext(data: Source, packet: array<byte>, written: nat) returns (done: bool, r: IoResult<nat>, total: nat)
      requires Valid() && data.Valid() && packet.Length == PACKET_LEN
      modifies this, inner, data, packet
      ensures Valid() && data.Valid()
      ensures done ==> Step(r, Snapshot()) == TransmitFrom(old(Snapshot()), old(data.Rest()), written)
      ensures !done ==> TransmitFrom(Snapshot(), data.Rest(), total) == TransmitFrom(old(Snapshot()), old(data.Rest()), written)
      ensures !done ==> |data.Rest()| < |old(data.Rest())|
    {
      ghost var start, rest := Snapshot(), data.Rest();
      var n := FillPacket(data, packet);
      if n == 0 {
        var close := CloseSender();
        if close.Err? {
          return true, Err(close.error), written;
        }
        return true, Ok(written), written;
      }
      var w := SendWithRetry(packet[..]);
      if w.Err? {
        return true, Err(w.error), written;
      }
      TransmitFromData(start, rest, written, n, Step(w, Snapshot()));
      return false, w, written + n;
    }
  }

  /** `transmit_with_progress(data, to, f)` (and `transmit`, which passes a
      no-op callback). Besides the result it returns the sequence numbers the
      callback is handed. */
  method TransmitWithProgress(data: Source, to: Channel) returns (r: IoResult<nat>, progress: seq<byte>)
    requires data.Valid() && to.Valid()
    modifies data, to
    ensures data.Valid() && to.Valid()
    ensures var run := RunTransmit(old(data.Rest()), old(to.Pending()), old(to.written));
      r == run.result && to.Pending() == run.after.incoming && to.written == run.after.outgoing
      && progress == run.after.progress
  {
    var transmitter := new Xmodem(to);
    var initial := transmitter.ReadByte(true);
    if initial.Err? {
      return Err(initial.error), transmitter.progress;
    }
    if initial.value != NAK {
      return Err(InvalidData), transmitter.progress;
    }
    transmitter.started := true;
    var packet := new byte[PACKET_LEN](_ => 0);
    r := transmitter.SendPackets(data, packet);
    progress := transmitter.progress;
  }

  /** `data.read_max(&mut packet)` followed by zero-filling `packet[n..]`
      (lib.rs lines 64-66). */
  method FillPacket(data: Source, packet: array<byte>) returns (n: nat)
    requires data.Valid() && packet.Length == PACKET_LEN
    modifies data, packet
    ensures data.Valid()
    ensures n == if |old(data.Rest())| < PACKET_LEN then |old(data.Rest())| else PACKET_LEN
    ensures packet[..] == Pad(old(data.Rest())[..n]) && data.Rest() == old(data.Rest())[n..]
  {
    ghost var rest := data.Rest();
    n := data.ReadMax(packet);
    for i := n to PACKET_LEN
      modifies packet
      invariant packet[..n] == rest[..n]
      invariant forall j :: n <= j < i ==> packet[j] == 0
    {
      packet[i] := 0;
    }
  }

  /** `receive_with_progress(from, into, f)` (and `receive`, which passes a
      no-op callback). Besides the result it returns the sequence numbers the
      callback is handed. */
  method ReceiveWithProgress(from: Channel, into: Sink) returns (r: IoResult<nat>, progress: seq<byte>)
    requires from.Valid()
    modifies from, into
    ensures from.Valid()
    ensures var run := RunReceive(old(from.Pending()), old(from.written));
      r == run.result && from.Pending() == run.after.incoming && from.written == run.after.outgoing
      && progress == run.after.progress && into.data == old(into.data) + run.sink
  {
    var receiver := new Xmodem(from);
    // Receiver immediately sends a NAK to signal readiness.
    receiver.WriteByte(NAK);
    var packet := new byte[PACKET_LEN](_ => 0);
    assert packet[..] == Zeros(PACKET_LEN);
    var delivered;
    r, delivered := receiver.ReceivePackets(packet);
    into.WriteAll(delivered);
    progress := receiver.progress;
  }
}
