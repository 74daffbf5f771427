/** What the XMODEM engine of lib/xmodem/src/lib.rs promises, proved about
    the reference semantics in `XmodemSpec` (and so, through the contracts
    of module `Xmodem`, about the imperative engine). */
module XmodemProperties {
  import opened Common
  import opened XmodemSpec

  // ---------------------------------------------------------------------
  // Checksum (lib.rs lines 135-137)

  lemma {:induction false} SumAppend(a: seq<byte>, b: seq<byte>)
    ensures Sum(a + b) == Sum(a) + Sum(b)
    decreases |a|
  {
    if a == [] {
      assert a + b == b;
    } else {
      assert (a + b)[1..] == a[1..] + b;
      SumAppend(a[1..], b);
    }
  }

  lemma {:induction false} SumZeros(n: nat)
    ensures Sum(Zeros(n)) == 0
  {
    if n > 0 {
      assert Zeros(n)[1..] == Zeros(n - 1);
      SumZeros(n - 1);
    }
  }

  /** Replacing one byte changes the plain sum by the difference. */
  lemma {:induction false} SumUpdate(s: seq<byte>, i: nat, b: byte)
    requires i < |s|
    ensures Sum(s[i := b]) == Sum(s) - s[i] + b
    decreases |s|
  {
    if i == 0 {
      assert s[i := b][1..] == s[1..];
    } else {
      assert s[i := b][1..] == s[1..][i - 1 := b];
      SumUpdate(s[1..], i - 1, b);
    }
  }

  /** The checksum of a concatenation is the wrapping sum of the checksums. */
  lemma ChecksumAppend(a: seq<byte>, b: seq<byte>)
    ensures Checksum(a + b) == (Checksum(a) + Checksum(b)) % 256
  {
    SumAppend(a, b);
    AddMod(Sum(a), Sum(b));
  }

  lemma AddMod(x: int, y: int)
    ensures (x + y) % 256 == (x % 256 + y % 256) % 256
  {
  }

  /** Zero padding does not change the checksum: the checksum of a padded
      packet is that of the real chunk. */
  lemma ChecksumOfPad(chunk: seq<byte>)
    requires |chunk| <= PACKET_LEN
    ensures Checksum(Pad(chunk)) == Checksum(chunk)
  {
    assert Pad(chunk) == chunk + Zeros(PACKET_LEN - |chunk|);
    SumAppend(chunk, Zeros(PACKET_LEN - |chunk|));
    SumZeros(PACKET_LEN - |chunk|);
  }

  /** Any single corrupted byte is detected by the checksum. */
  lemma ChecksumDetectsByteChange(buf: seq<byte>, i: nat, b: byte)
    requires i < |buf| && b != buf[i]
    ensures Checksum(buf[i := b]) != Checksum(buf)
  {
    SumUpdate(buf, i, b);
    var d := b - buf[i];
    assert -256 < d < 256 && d != 0;
    assert (Sum(buf) + d) % 256 != Sum(buf) % 256;
  }

  // ---------------------------------------------------------------------
  // Single bytes (lib.rs lines 163-201)

  /** `read_byte(true)` turns a CAN into `ConnectionAborted`, and otherwise
      returns the next byte; only that byte is consumed. */
  lemma ReadByteCases(s: State, b: byte, rest: seq<byte>, abortOnCan: bool)
    requires s.incoming == [b] + rest
    ensures var r := StepReadByte(s, abortOnCan);
      r.after == s.(incoming := rest)
      && r.result == if abortOnCan && b == CAN then Err(ConnectionAborted) else Ok(b)
  {
  }

  /** `expect_byte`: a match consumes the byte and writes nothing; a mismatch
      writes CAN and gives `InvalidData`; a CAN aborts unless CAN is expected. */
  lemma ExpectByteCases(s: State, expected: byte, b: byte, rest: seq<byte>)
    requires s.incoming == [b] + rest
    ensures var r := StepExpectByte(s, expected);
      if b == expected then r == Step(Ok(b), s.(incoming := rest))
      else if b == CAN then r == Step(Err(ConnectionAborted), s.(incoming := rest))
      else r == Step(Err(InvalidData), s.(incoming := rest, outgoing := s.outgoing + [CAN]))
  {
  }

  /** `expect_byte_or_cancel`: a mismatch writes CAN, and the error kind says
      whether the peer cancelled. */
  lemma ExpectByteOrCancelCases(s: State, expected: byte, b: byte, rest: seq<byte>)
    requires s.incoming == [b] + rest
    ensures var r := StepExpectByteOrCancel(s, expected);
      if b == expected then r == Step(Ok(b), s.(incoming := rest))
      else r == Step(Err(if b == CAN then ConnectionAborted else InvalidData),
                     s.(incoming := rest, outgoing := s.outgoing + [CAN]))
  {
  }

  /** Every reading primitive fails with `UnexpectedEof`, changing nothing,
      when the peer has nothing more to send. */
  lemma ReadOnEmptyInput(s: State, byte: byte, abortOnCan: bool)
    requires s.incoming == []
    ensures StepReadByte(s, abortOnCan) == Step(Err(UnexpectedEof), s)
    ensures StepExpectByte(s, byte) == Step(Err(UnexpectedEof), s)
    ensures StepExpectByteOrCancel(s, byte) == Step(Err(UnexpectedEof), s)
  {
  }

  // ---------------------------------------------------------------------
  // write_packet (lib.rs lines 257-292)

  /** The wire layout of a data packet: SOH, number, complement, payload,
      and a checksum that covers the payload only. */
  lemma FrameLayout(p: byte, payload: seq<byte>)
    ensures var f := Frame(p, payload);
      |f| == |payload| + 4 && f[0] == SOH && f[1] == p && f[2] == 255 - p
      && f[3..3 + |payload|] == payload && f[|payload| + 3] == Checksum(payload)
  {
  }

  /** `write_packet` with data writes exactly one frame before reading the
      response; the response alone decides the outcome, and only ACK moves
      the packet number on (wrapping from 255 to 0) and reports progress. */
  lemma WritePacketOutcome(s: State, buf: seq<byte>, b: byte, rest: seq<byte>)
    requires buf != [] && s.incoming == [b] + rest
    ensures var r := StepWritePacket(s, buf);
      r.after.outgoing == s.outgoing + Frame(s.packet, buf) && r.after.incoming == rest
      && r.after.started == s.started
      && (b == ACK ==> r.result == Ok(|buf|) && r.after.packet == NextPacket(s.packet)
                       && r.after.progress == s.progress + [NextPacket(s.packet)])
      && (b != ACK ==> r.after.packet == s.packet && r.after.progress == s.progress)
      && (b == NAK ==> r.result == Err(Interrupted))
      && (b == CAN ==> r.result == Err(ConnectionAborted))
      && (b != ACK && b != NAK && b != CAN ==> r.result == Err(InvalidData))
  {
  }

  /** `write_packet` with data and no response fails with `UnexpectedEof`
      after writing the frame. */
  lemma WritePacketNoResponse(s: State, buf: seq<byte>)
    requires buf != [] && s.incoming == []
    ensures StepWritePacket(s, buf) == Step(Err(UnexpectedEof), Send(s, Frame(s.packet, buf)))
  {
  }

  /** `write_packet(&[])` on a started session: EOT, NAK, EOT, ACK and `Ok(0)`. */
  lemma WritePacketEndOfTransmission(s: State, rest: seq<byte>)
    requires s.started && s.incoming == [NAK, ACK] + rest
    ensures StepWritePacket(s, []) == Step(Ok(0), s.(incoming := rest, outgoing := s.outgoing + [EOT, EOT]))
  {
  }

  /** `write_packet(&[])` before the handshake first consumes the initial NAK. */
  lemma WritePacketEndBeforeStart(s: State, rest: seq<byte>)
    requires !s.started && s.incoming == [NAK, NAK, ACK] + rest
    ensures StepWritePacket(s, [])
      == Step(Ok(0), s.(started := true, incoming := rest, outgoing := s.outgoing + [EOT, EOT]))
  {
  }

  // ---------------------------------------------------------------------
  // read_packet (lib.rs lines 207-251)

  /** A buffer shorter than a packet is refused before any byte moves. */
  lemma ReadPacketShortBuffer(s: State, buf: seq<byte>)
    requires |buf| < PACKET_LEN
    ensures StepReadPacket(s, buf) == PacketRead(Step(Err(UnexpectedEof), s), buf)
  {
  }

  /** EOT, EOT: NAK then ACK on the wire, and `Ok(0)`. */
  lemma ReadPacketEot(s: State, buf: seq<byte>, rest: seq<byte>)
    requires |buf| >= PACKET_LEN && s.incoming == [EOT, EOT] + rest
    ensures StepReadPacket(s, buf)
      == PacketRead(Step(Ok(0), s.(incoming := rest, outgoing := s.outgoing + [NAK, ACK])), buf)
  {
  }

  /** EOT followed by anything but EOT or CAN: NAK, then CAN, `InvalidData`. */
  lemma ReadPacketEotMismatch(s: State, buf: seq<byte>, b: byte, rest: seq<byte>)
    requires |buf| >= PACKET_LEN && s.incoming == [EOT, b] + rest && b != EOT && b != CAN
    ensures StepReadPacket(s, buf)
      == PacketRead(Step(Err(InvalidData), s.(incoming := rest, outgoing := s.outgoing + [NAK, CAN])), buf)
  {
  }

  /** A header that is neither SOH nor EOT costs one more byte and a CAN; the
      error says whether that byte was a CAN. */
  lemma ReadPacketBadHeader(s: State, buf: seq<byte>, h: byte, b: byte, rest: seq<byte>)
    requires |buf| >= PACKET_LEN && s.incoming == [h, b] + rest
    requires h != SOH && h != EOT && h != CAN
    ensures StepReadPacket(s, buf)
      == PacketRead(Step(Err(if b == CAN then ConnectionAborted else InvalidData),
                         s.(incoming := rest, outgoing := s.outgoing + [CAN])), buf)
  {
  }

  /** A packet number or complement other than the expected ones, neither
      of them a CAN the receiver does not expect: CAN, `InvalidData`, and the
      packet number stays. */
  lemma ReadPacketBadNumber(s: State, buf: seq<byte>, num: byte, comp: byte, rest: seq<byte>)
    requires |buf| >= PACKET_LEN && s.incoming == [SOH, num, comp] + rest
    requires num != s.packet || comp != 255 - s.packet
    requires num == CAN ==> s.packet == CAN
    requires comp == CAN ==> 255 - s.packet == CAN
    ensures StepReadPacket(s, buf)
      == PacketRead(Step(Err(InvalidData), s.(incoming := rest, outgoing := s.outgoing + [CAN])), buf)
  {
  }

  /** A CAN in place of a packet number or complement that is not CAN
      cancels: `ConnectionAborted` as soon as it is read, and nothing is
      written. */
  lemma ReadPacketCancelInHeader(s: State, buf: seq<byte>, num: byte, comp: byte, rest: seq<byte>)
    requires |buf| >= PACKET_LEN && s.incoming == [SOH, num, comp] + rest
    ensures num == CAN && s.packet != CAN ==>
      StepReadPacket(s, buf) == PacketRead(Step(Err(ConnectionAborted), s.(incoming := [comp] + rest)), buf)
    ensures (num != CAN || s.packet == CAN) && comp == CAN && 255 - s.packet != CAN ==>
      StepReadPacket(s, buf) == PacketRead(Step(Err(ConnectionAborted), s.(incoming := rest)), buf)
  {
    assert s.incoming[1..] == [num, comp] + rest;
    assert s.incoming[1..][1..] == [comp] + rest;
    assert s.incoming[1..][1..][1..] == rest;
  }

  /** The state after the receiver accepted the packet it expected. */
  function Accepted(s: State, rest: seq<byte>): State
  {
    var next := NextPacket(s.packet);
    s.(incoming := rest, outgoing := s.outgoing + [ACK], packet := next, progress := s.progress + [next])
  }

  /** Decoding what `write_packet` encodes: a frame carrying the expected
      packet number is accepted whatever that number is, its payload lands in
      `buf`, ACK is sent, and the number moves on and is reported. */
  lemma ReadPacketAcceptsFrame(s: State, buf: seq<byte>, payload: seq<byte>, rest: seq<byte>)
    requires |buf| == |payload| == PACKET_LEN
    requires s.incoming == Frame(s.packet, payload) + rest
    ensures StepReadPacket(s, buf) == PacketRead(Step(Ok(PACKET_LEN), Accepted(s, rest)), payload)
  {
    assert s.incoming == [SOH] + ([s.packet] + ([255 - s.packet] + (payload + ([Checksum(payload)] + rest))));
  }

  /** A checksum byte that does not match the payload: NAK, `Interrupted`,
      and the packet number stays. */
  lemma ReadPacketChecksumMismatch(s: State, buf: seq<byte>, payload: seq<byte>, c: byte, rest: seq<byte>)
    requires |buf| == |payload| == PACKET_LEN && c != Checksum(payload)
    requires s.incoming == [SOH, s.packet, 255 - s.packet] + payload + [c] + rest
    ensures StepReadPacket(s, buf)
      == PacketRead(Step(Err(Interrupted), s.(incoming := rest, outgoing := s.outgoing + [NAK])), payload)
  {
    assert s.incoming == [SOH] + ([s.packet] + ([255 - s.packet] + (payload + ([c] + rest))));
  }

  /** A frame with one payload byte corrupted in transit is answered with NAK. */
  lemma ReadPacketDetectsCorruption(s: State, buf: seq<byte>, payload: seq<byte>, i: nat, b: byte, rest: seq<byte>)
    requires |buf| == |payload| == PACKET_LEN && i < PACKET_LEN && b != payload[i]
    requires s.incoming == [SOH, s.packet, 255 - s.packet] + payload[i := b] + [Checksum(payload)] + rest
    ensures StepReadPacket(s, buf)
      == PacketRead(Step(Err(Interrupted), s.(incoming := rest, outgoing := s.outgoing + [NAK])), payload[i := b])
  {
    ChecksumDetectsByteChange(payload, i, b);
    ReadPacketChecksumMismatch(s, buf, payload[i := b], Checksum(payload), rest);
  }

  /** As written, `read_packet` aborts the session on the 24th packet of a
      transfer: its number 0x18 is read with `read_byte(true)` and taken for
      CAN, although the corrected reading accepts the same frame. */
  lemma AsWrittenAbortsPacket24(s: State, buf: seq<byte>, payload: seq<byte>, rest: seq<byte>)
    requires |buf| == |payload| == PACKET_LEN && s.packet == CAN
    requires s.incoming == Frame(s.packet, payload)[1..] + rest
    ensures StepReadPacketBodyAsWritten(s, buf).step
      == Step(Err(ConnectionAborted), s.(incoming := s.incoming[1..]))
    ensures StepReadPacketBody(s, buf).step.result == Ok(PACKET_LEN)
  {
    assert s.incoming == [s.packet] + ([255 - s.packet] + (payload + ([Checksum(payload)] + rest)));
  }

  /** As written, `read_packet` also aborts on packet 231, whose complement
      0x18 is taken for CAN; the corrected reading accepts the frame. */
  lemma AsWrittenAbortsPacket231(s: State, buf: seq<byte>, payload: seq<byte>, rest: seq<byte>)
    requires |buf| == |payload| == PACKET_LEN && s.packet == 255 - CAN
    requires s.incoming == Frame(s.packet, payload)[1..] + rest
    ensures StepReadPacketBodyAsWritten(s, buf).step
      == Step(Err(ConnectionAborted), s.(incoming := s.incoming[2..]))
    ensures StepReadPacketBody(s, buf).step.result == Ok(PACKET_LEN)
  {
    assert s.incoming == [s.packet] + ([255 - s.packet] + (payload + ([Checksum(payload)] + rest)));
  }

  // ---------------------------------------------------------------------
  // Retries (lib.rs lines 75-92 and 117-129)

  /** `k` copies of `x`, one after the other. */
  function Repeat(x: seq<byte>, k: nat): seq<byte>
  {
    if k == 0 then [] else x + Repeat(x, k - 1)
  }

  /** One NAK: the sender writes the same frame again and spends one of
      its attempts. */
  lemma RetrySendNak(s: State, p: seq<byte>, attempt: nat, rest: seq<byte>)
    requires p != [] && attempt < MAX_ATTEMPTS && s.incoming == [NAK] + rest
    ensures RetrySend(s, p, attempt)
      == RetrySend(s.(incoming := rest, outgoing := s.outgoing + Frame(s.packet, p)), p, attempt + 1)
  {
    WritePacketOutcome(s, p, NAK, rest);
  }

  /** The sender after `k` NAKs: `k` responses consumed, the frame written
      `k` times. */
  function AfterNaks(s: State, p: seq<byte>, k: nat): State
    requires k <= |s.incoming|
  {
    s.(incoming := s.incoming[k..], outgoing := s.outgoing + Repeat(Frame(s.packet, p), k))
  }

  lemma AfterNaksStep(s: State, p: seq<byte>, j: nat)
    requires j < |s.incoming|
    ensures AfterNaks(s.(incoming := s.incoming[1..], outgoing := s.outgoing + Frame(s.packet, p)), p, j)
         == AfterNaks(s, p, j + 1)
  {
    var f := Frame(s.packet, p);
    assert s.incoming[1..][j..] == s.incoming[j + 1..];
    assert s.outgoing + f + Repeat(f, j) == s.outgoing + Repeat(f, j + 1);
  }

  lemma AfterNaksSame(s: State, p: seq<byte>, a: nat, b: nat)
    requires a == b <= |s.incoming|
    ensures AfterNaks(s, p, a) == AfterNaks(s, p, b)
  {
  }

  lemma NaksRest(x: seq<byte>, n: nat)
    requires n < |x| && forall i :: 0 <= i < n + 1 ==> x[i] == NAK
    ensures x == [NAK] + x[1..] && forall i :: 0 <= i < n ==> x[1..][i] == NAK
  {
  }

  /** The sender after `k` NAKs and then an ACK. */
  function AckedAfterNaks(s: State, p: seq<byte>, k: nat): State
    requires k < |s.incoming|
  {
    var u := AfterNaks(s, p, k);
    var next := NextPacket(s.packet);
    u.(incoming := u.incoming[1..], outgoing := u.outgoing + Frame(s.packet, p),
       packet := next, progress := s.progress + [next])
  }

  lemma AckedAfterNaksStep(s: State, p: seq<byte>, j: nat)
    requires j + 1 < |s.incoming|
    ensures AckedAfterNaks(s.(incoming := s.incoming[1..], outgoing := s.outgoing + Frame(s.packet, p)), p, j)
         == AckedAfterNaks(s, p, j + 1)
  {
    AfterNaksStep(s, p, j);
  }

  lemma AckedAfterNaksSame(s: State, p: seq<byte>, a: nat, b: nat)
    requires a == b < |s.incoming|
    ensures AckedAfterNaks(s, p, a) == AckedAfterNaks(s, p, b)
  {
  }

  /** A NAK for each of the `k` attempts left: the frame is written `k`
      times, then the sender gives up with `BrokenPipe`. */
  lemma {:induction false} NaksExhaustAttempts(s: State, p: seq<byte>, attempt: nat, k: nat)
    requires p != [] && attempt + k == MAX_ATTEMPTS && k <= |s.incoming|
    requires forall i :: 0 <= i < k ==> s.incoming[i] == NAK
    ensures RetrySend(s, p, attempt) == Step(Err(BrokenPipe), AfterNaks(s, p, k))
    decreases k
  {
    if k == 0 {
      assert AfterNaks(s, p, 0) == s by {
        assert s.incoming[0..] == s.incoming;
        assert s.outgoing + [] == s.outgoing;
      }
    } else {
      var rest := s.incoming[1..];
      NaksRest(s.incoming, k - 1);
      RetrySendNak(s, p, attempt, rest);
      var t := s.(incoming := rest, outgoing := s.outgoing + Frame(s.packet, p));
      NaksExhaustAttempts(t, p, attempt + 1, k - 1);
      AfterNaksStep(s, p, k - 1);
      AfterNaksSame(s, p, k - 1 + 1, k);
    }
  }

  /** `k` NAKs and then an ACK, within the attempts left: the frame is
      written `k + 1` times and goes through. */
  lemma {:induction false} NaksThenAck(s: State, p: seq<byte>, attempt: nat, k: nat)
    requires p != [] && attempt + k < MAX_ATTEMPTS && k < |s.incoming|
    requires forall i :: 0 <= i < k ==> s.incoming[i] == NAK
    requires s.incoming[k] == ACK
    ensures RetrySend(s, p, attempt) == Step(Ok(|p|), AckedAfterNaks(s, p, k))
    decreases k
  {
    if k == 0 {
      var rest := s.incoming[1..];
      assert s.incoming == [ACK] + rest;
      RetrySendAck(s, p, attempt, rest);
      assert AfterNaks(s, p, 0) == s by {
        assert s.incoming[0..] == s.incoming;
        assert s.outgoing + [] == s.outgoing;
      }
    } else {
      var rest := s.incoming[1..];
      NaksRest(s.incoming, k - 1);
      RetrySendNak(s, p, attempt, rest);
      var t := s.(incoming := rest, outgoing := s.outgoing + Frame(s.packet, p));
      assert t.incoming[k - 1] == ACK;
      NaksThenAck(t, p, attempt + 1, k - 1);
      AckedAfterNaksStep(s, p, k - 1);
      AckedAfterNaksSame(s, p, k - 1 + 1, k);
    }
  }

  /** Ten NAKs in a row: the sender gives up with `BrokenPipe` after writing
      the frame ten times. */
  lemma SendGivesUpAfterTenNaks(s: State, p: seq<byte>)
    requires p != [] && MAX_ATTEMPTS <= |s.incoming|
    requires forall i :: 0 <= i < MAX_ATTEMPTS ==> s.incoming[i] == NAK
    ensures RetrySend(s, p, 0)
      == Step(Err(BrokenPipe), s.(incoming := s.incoming[MAX_ATTEMPTS..],
                                  outgoing := s.outgoing + Repeat(Frame(s.packet, p), MAX_ATTEMPTS)))
  {
    NaksExhaustAttempts(s, p, 0, MAX_ATTEMPTS);
  }

  /** A send whose first packet is answered with NAK ten times fails with
      `BrokenPipe`; the later chunks are never read. */
  lemma TransmitGivesUpAfterTenNaks(s: State, data: seq<byte>, written: nat)
    requires data != [] && MAX_ATTEMPTS <= |s.incoming|
    requires forall i :: 0 <= i < MAX_ATTEMPTS ==> s.incoming[i] == NAK
    ensures var n := if |data| < PACKET_LEN then |data| else PACKET_LEN;
      TransmitFrom(s, data, written)
      == Step(Err(BrokenPipe), s.(incoming := s.incoming[MAX_ATTEMPTS..],
                                  outgoing := s.outgoing + Repeat(Frame(s.packet, Pad(data[..n])), MAX_ATTEMPTS)))
  {
    var n := if |data| < PACKET_LEN then |data| else PACKET_LEN;
    SendGivesUpAfterTenNaks(s, Pad(data[..n]));
  }

  /** Fewer than ten NAKs followed by an ACK: the packet goes through, after
      being written once per response. */
  lemma SendRetriesUntilAck(s: State, p: seq<byte>, k: nat)
    requires p != [] && k < MAX_ATTEMPTS && k < |s.incoming|
    requires forall i :: 0 <= i < k ==> s.incoming[i] == NAK
    requires s.incoming[k] == ACK
    ensures var next := NextPacket(s.packet);
      RetrySend(s, p, 0)
      == Step(Ok(|p|), s.(incoming := s.incoming[k + 1..],
                          outgoing := s.outgoing + Repeat(Frame(s.packet, p), k) + Frame(s.packet, p),
                          packet := next, progress := s.progress + [next]))
  {
    NaksThenAck(s, p, 0, k);
    assert s.incoming[k..][1..] == s.incoming[k + 1..];
  }

  /** An ACK ends the attempts with success. */
  lemma RetrySendAck(s: State, p: seq<byte>, attempt: nat, rest: seq<byte>)
    requires p != [] && attempt < MAX_ATTEMPTS && s.incoming == [ACK] + rest
    ensures var next := NextPacket(s.packet);
      RetrySend(s, p, attempt)
      == Step(Ok(|p|), s.(incoming := rest, outgoing := s.outgoing + Frame(s.packet, p),
                          packet := next, progress := s.progress + [next]))
  {
    WritePacketOutcome(s, p, ACK, rest);
  }

  /** Any response but NAK ends the attempts at once, with `write_packet`'s
      outcome. */
  lemma RetrySendStopsUnlessNak(s: State, p: seq<byte>, attempt: nat, b: byte, rest: seq<byte>)
    requires p != [] && attempt < MAX_ATTEMPTS && s.incoming == [b] + rest && b != NAK
    ensures RetrySend(s, p, attempt) == StepWritePacket(s, p)
    ensures b == CAN ==> RetrySend(s, p, attempt).result == Err(ConnectionAborted)
  {
    WritePacketOutcome(s, p, b, rest);
  }

  /** `k` copies of a single byte are `k` bytes, all of them that byte. */
  lemma {:induction false} RepeatByte(b: byte, k: nat)
    ensures |Repeat([b], k)| == k
    ensures forall i :: 0 <= i < k ==> Repeat([b], k)[i] == b
  {
    if k > 0 {
      RepeatByte(b, k - 1);
    }
  }

  /** A frame of the expected number whose checksum byte `c` is wrong. */
  function BadFrame(p: byte, payload: seq<byte>, c: byte): seq<byte>
  {
    [SOH, p, 255 - p] + payload + [c]
  }

  /** One frame with a wrong checksum: NAK, and one attempt spent. */
  lemma RetryReceiveBadFrame(s: State, buf: seq<byte>, attempt: nat, payload: seq<byte>, c: byte, rest: seq<byte>)
    requires |buf| == |payload| == PACKET_LEN && c != Checksum(payload) && attempt < MAX_ATTEMPTS
    requires s.incoming == BadFrame(s.packet, payload, c) + rest
    ensures RetryReceive(s, buf, attempt)
      == RetryReceive(s.(incoming := rest, outgoing := s.outgoing + [NAK]), payload, attempt + 1)
  {
    ReadPacketChecksumMismatch(s, buf, payload, c, rest);
  }

  /** A frame that arrives intact after a corrupted one is accepted: one
      NAK, then ACK, and the packet read on the second attempt. */
  lemma ReceiveRecoversAfterBadFrame(s: State, buf: seq<byte>, attempt: nat, bad: seq<byte>, c: byte,
                                     payload: seq<byte>, rest: seq<byte>)
    requires |buf| == |bad| == |payload| == PACKET_LEN && c != Checksum(bad) && attempt + 1 < MAX_ATTEMPTS
    requires s.incoming == BadFrame(s.packet, bad, c) + (Frame(s.packet, payload) + rest)
    ensures RetryReceive(s, buf, attempt)
      == PacketRead(Step(Ok(PACKET_LEN), Accepted(s.(outgoing := s.outgoing + [NAK]), rest)), payload)
  {
    var t := s.(incoming := Frame(s.packet, payload) + rest, outgoing := s.outgoing + [NAK]);
    RetryReceiveBadFrame(s, buf, attempt, bad, c, Frame(s.packet, payload) + rest);
    ReadPacketAcceptsFrame(t, bad, payload, rest);
  }

  /** With every attempt spent, the receiver gives up with `BrokenPipe`
      without reading. */
  lemma ReceiveGivesUp(s: State, buf: seq<byte>)
    ensures RetryReceive(s, buf, MAX_ATTEMPTS) == PacketRead(Step(Err(BrokenPipe), s), buf)
  {
  }

  /** The frames carrying the payloads `bad`, all numbered `p`, with the
      checksum bytes `cs`. */
  function BadFrames(p: byte, bad: seq<seq<byte>>, cs: seq<byte>): seq<byte>
    requires |bad| == |cs|
    decreases |bad|
  {
    if bad == [] then [] else BadFrame(p, bad[0], cs[0]) + BadFrames(p, bad[1..], cs[1..])
  }

  /** Every checksum byte of `cs` is wrong for its payload in `bad`. */
  predicate Corrupt(bad: seq<seq<byte>>, cs: seq<byte>)
  {
    |bad| == |cs| && forall i :: 0 <= i < |bad| ==> |bad[i]| == PACKET_LEN && cs[i] != Checksum(bad[i])
  }

  lemma BadFramesStep(p: byte, bad: seq<seq<byte>>, cs: seq<byte>, rest: seq<byte>)
    requires bad != [] && Corrupt(bad, cs)
    ensures BadFrames(p, bad, cs) + rest == BadFrame(p, bad[0], cs[0]) + (BadFrames(p, bad[1..], cs[1..]) + rest)
    ensures |bad[0]| == PACKET_LEN && cs[0] != Checksum(bad[0]) && Corrupt(bad[1..], cs[1..])
  {
    assert forall i :: 0 <= i < |bad| - 1 ==> bad[1..][i] == bad[i + 1] && cs[1..][i] == cs[i + 1];
  }

  lemma NaksAfterBadFrame(s: State, rest: seq<byte>, tail: seq<byte>, k: nat)
    requires k > 0
    ensures var t := s.(incoming := tail, outgoing := s.outgoing + [NAK]);
      t.(incoming := rest, outgoing := t.outgoing + Repeat([NAK], k - 1))
      == s.(incoming := rest, outgoing := s.outgoing + Repeat([NAK], k))
  {
    assert s.outgoing + [NAK] + Repeat([NAK], k - 1) == s.outgoing + Repeat([NAK], k);
  }

  /** A frame with a wrong checksum for every attempt left: one NAK each,
      then `BrokenPipe`. */
  lemma {:induction false} ReceiveRejectsAll(s: State, buf: seq<byte>, attempt: nat, bad: seq<seq<byte>>,
                                             cs: seq<byte>, rest: seq<byte>)
    requires |buf| == PACKET_LEN && Corrupt(bad, cs) && attempt + |bad| == MAX_ATTEMPTS
    requires s.incoming == BadFrames(s.packet, bad, cs) + rest
    ensures RetryReceive(s, buf, attempt).step
      == Step(Err(BrokenPipe), s.(incoming := rest, outgoing := s.outgoing + Repeat([NAK], |bad|)))
    decreases |bad|
  {
    if bad == [] {
      ReceiveGivesUp(s, buf);
      assert s.(incoming := rest, outgoing := s.outgoing + Repeat([NAK], |bad|)) == s by {
        assert s.incoming == [] + rest;
        assert s.outgoing + [] == s.outgoing;
      }
    } else {
      var tail := BadFrames(s.packet, bad[1..], cs[1..]) + rest;
      BadFramesStep(s.packet, bad, cs, rest);
      RetryReceiveBadFrame(s, buf, attempt, bad[0], cs[0], tail);
      var t := s.(incoming := tail, outgoing := s.outgoing + [NAK]);
      ReceiveRejectsAll(t, bad[0], attempt + 1, bad[1..], cs[1..], rest);
      NaksAfterBadFrame(s, rest, tail, |bad|);
    }
  }

  /** Ten frames in a row with a wrong checksum: the receive fails with
      `BrokenPipe` after answering each with NAK, and the sink gets nothing. */
  lemma ReceiveGivesUpAfterTenBadFrames(s: State, buf: seq<byte>, received: nat, sink: seq<byte>,
                                        bad: seq<seq<byte>>, cs: seq<byte>, rest: seq<byte>)
    requires |buf| == PACKET_LEN && Corrupt(bad, cs) && |bad| == MAX_ATTEMPTS
    requires s.incoming == BadFrames(s.packet, bad, cs) + rest
    ensures ReceiveFrom(s, buf, received, sink)
      == Transfer(Err(BrokenPipe), s.(incoming := rest, outgoing := s.outgoing + Repeat([NAK], MAX_ATTEMPTS)), sink)
    ensures var out := ReceiveFrom(s, buf, received, sink).after.outgoing;
      |out| == |s.outgoing| + MAX_ATTEMPTS && out[..|s.outgoing|] == s.outgoing
      && forall i :: |s.outgoing| <= i < |out| ==> out[i] == NAK
  {
    ReceiveRejectsAll(s, buf, 0, bad, cs, rest);
    RepeatByte(NAK, MAX_ATTEMPTS);
    var out := s.outgoing + Repeat([NAK], MAX_ATTEMPTS);
    assert forall i :: |s.outgoing| <= i < |out| ==> out[i] == Repeat([NAK], MAX_ATTEMPTS)[i - |s.outgoing|];
  }

  /** One read that fails with `Interrupted` costs the receiver one attempt. */
  lemma RetryReceiveStep(s: State, buf: seq<byte>, t: State, b2: seq<byte>, attempt: nat)
    requires attempt < MAX_ATTEMPTS
    requires StepReadPacket(s, buf) == PacketRead(Step(Err(Interrupted), t), b2)
    ensures RetryReceive(s, buf, attempt) == RetryReceive(t, b2, attempt + 1)
  {
  }

  // ---------------------------------------------------------------------
  // Whole transfers (lib.rs lines 46-131)

  /** A successful send reports exactly the data bytes, padding excluded. */
  lemma {:induction false} TransmitFromCount(s: State, data: seq<byte>, written: nat)
    ensures TransmitFrom(s, data, written).result.Ok? ==> TransmitFrom(s, data, written).result.value == written + |data|
    decreases |data|
  {
    var n := if |data| < PACKET_LEN then |data| else PACKET_LEN;
    if n > 0 {
      var w := RetrySend(s, Pad(data[..n]), 0);
      if w.result.Ok? {
        TransmitFromData(s, data, written, n, w);
        TransmitFromCount(w.after, data[n..], written + n);
        assert written + n + |data[n..]| == written + |data|;
      }
    }
  }

  /** `transmit_with_progress` either fails or reports every byte of `data`. */
  lemma RunTransmitCount(data: seq<byte>, peer: seq<byte>, log: seq<byte>)
    ensures RunTransmit(data, peer, log).result.Ok? ==> RunTransmit(data, peer, log).result.value == |data|
  {
    var initial := StepReadByte(Initial(peer, log), true);
    if initial.result.Ok? && initial.result.value == NAK {
      TransmitFromCount(initial.after.(started := true), data, 0);
    }
  }

  /** The handshake: a first byte other than NAK fails the send before any
      byte is written, with `ConnectionAborted` for CAN and `InvalidData`
      otherwise; no byte at all is `UnexpectedEof`. */
  lemma RunTransmitHandshake(data: seq<byte>, peer: seq<byte>, log: seq<byte>)
    ensures peer == [] ==> RunTransmit(data, peer, log) == Step(Err(UnexpectedEof), Initial(peer, log))
    ensures peer != [] && peer[0] == CAN ==>
      RunTransmit(data, peer, log) == Step(Err(ConnectionAborted), Initial(peer[1..], log))
    ensures peer != [] && peer[0] != CAN && peer[0] != NAK ==>
      RunTransmit(data, peer, log) == Step(Err(InvalidData), Initial(peer[1..], log))
    ensures peer != [] && peer[0] == NAK ==>
      RunTransmit(data, peer, log) == TransmitFrom(Initial(peer[1..], log).(started := true), data, 0)
  {
  }

  /** `r`, a receive that started with `received` bytes counted and `sink`
      written, kept `sink` as a prefix, wrote whole packets after it, and
      counted exactly what it wrote. */
  predicate Delivers(r: Transfer, received: nat, sink: seq<byte>)
  {
    |sink| <= |r.sink| && r.sink[..|sink|] == sink && (|r.sink| - |sink|) % PACKET_LEN == 0
    && (r.result.Ok? ==> r.result.value == received + |r.sink| - |sink|)
  }

  lemma DeliversNothing(r: Transfer, received: nat, sink: seq<byte>)
    requires r.sink == sink && (r.result.Ok? ==> r.result.value == received)
    ensures Delivers(r, received, sink)
  {
    assert sink[..|sink|] == sink;
  }

  lemma DeliversPacket(r: Transfer, received: nat, sink: seq<byte>, packet: seq<byte>)
    requires |packet| == PACKET_LEN && Delivers(r, received + PACKET_LEN, sink + packet)
    ensures Delivers(r, received, sink)
  {
    assert r.sink[..|sink|] == (sink + packet)[..|sink|] == sink;
    assert |r.sink| - |sink| == (|r.sink| - |sink + packet|) + PACKET_LEN;
  }

  /** One packet accepted: the loop goes on with the payload appended. */
  lemma ReceiveFromAccepted(s: State, buf: seq<byte>, received: nat, sink: seq<byte>, p: PacketRead)
    requires p == RetryReceive(s, buf, 0) && p.step.result == Ok(PACKET_LEN)
    ensures ReceiveFrom(s, buf, received, sink)
      == ReceiveFrom(p.step.after, p.buf, received + PACKET_LEN, sink + p.buf)
  {
  }

  /** A successful receive reports 128 bytes per packet, and the sink grows
      by exactly the packets accepted, in whole packets. */
  lemma {:induction false} ReceiveFromCount(s: State, buf: seq<byte>, received: nat, sink: seq<byte>)
    requires |buf| == PACKET_LEN
    ensures Delivers(ReceiveFrom(s, buf, received, sink), received, sink)
    decreases |s.incoming|
  {
    var p := RetryReceive(s, buf, 0);
    if p.step.result.Ok? && p.step.result.value != 0 {
      ReceiveFromAccepted(s, buf, received, sink, p);
      ReceiveFromCount(p.step.after, p.buf, received + PACKET_LEN, sink + p.buf);
      DeliversPacket(ReceiveFrom(s, buf, received, sink), received, sink, p.buf);
    } else {
      DeliversNothing(ReceiveFrom(s, buf, received, sink), received, sink);
    }
  }

  /** `receive_with_progress` reports exactly the bytes it wrote to the sink,
      a whole number of packets. */
  lemma RunReceiveCount(peer: seq<byte>, log: seq<byte>)
    ensures var r := RunReceive(peer, log);
      |r.sink| % PACKET_LEN == 0 && (r.result.Ok? ==> r.result.value == |r.sink|)
  {
    ReceiveFromCount(Send(Initial(peer, log), [NAK]), Zeros(PACKET_LEN), 0, []);
    var none: seq<byte> := [];
    assert |RunReceive(peer, log).sink| - |none| == |RunReceive(peer, log).sink|;
  }
}
