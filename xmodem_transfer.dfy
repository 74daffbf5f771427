/** Whole transfers of the XMODEM engine in lib/xmodem/src/lib.rs: what a
    sender whose every packet is acknowledged puts on the wire, what a
    receiver makes of exactly those bytes, and that the two fit together. */
module XmodemTransfer {
  import opened Common
  import opened XmodemSpec
  import opened XmodemProperties

  // ---------------------------------------------------------------------
  // The shape of a transfer

  /** The payloads of the packets that carry `data`: 128-byte pieces, the
      last one zero-padded (lib.rs lines 64-66). */
  function Chunks(data: seq<byte>): (cs: seq<seq<byte>>)
    ensures forall i :: 0 <= i < |cs| ==> |cs[i]| == PACKET_LEN
    decreases |data|
  {
    if data == [] then []
    else
      var n := if |data| < PACKET_LEN then |data| else PACKET_LEN;
      [Pad(data[..n])] + Chunks(data[n..])
  }

  /** The payloads one after the other. */
  function Flatten(cs: seq<seq<byte>>): seq<byte>
    decreases |cs|
  {
    if cs == [] then [] else cs[0] + Flatten(cs[1..])
  }

  /** The frames carrying `cs`, numbered from `p` on. */
  function Wire(p: byte, cs: seq<seq<byte>>): seq<byte>
    decreases |cs|
  {
    if cs == [] then [] else Frame(p, cs[0]) + Wire(NextPacket(p), cs[1..])
  }

  /** The packet number `k` packets after `p`. */
  function Advance(p: byte, k: nat): (q: byte)
    ensures q == (p + k) % 256
    decreases k
  {
    if k == 0 then p else Advance(NextPacket(p), k - 1)
  }

  /** The numbers the progress callback is handed over `k` packets from `p`. */
  function Numbers(p: byte, k: nat): (ns: seq<byte>)
    ensures |ns| == k
    decreases k
  {
    if k == 0 then [] else [NextPacket(p)] + Numbers(NextPacket(p), k - 1)
  }

  /** The data, then zeros up to the next multiple of 128: the chunks hold
      exactly the data and its padding. */
  lemma {:induction false} ChunksHoldData(data: seq<byte>)
    ensures var f := Flatten(Chunks(data));
      |f| == |Chunks(data)| * PACKET_LEN && |data| <= |f| < |data| + PACKET_LEN
      && f[..|data|] == data && forall i :: |data| <= i < |f| ==> f[i] == 0
    decreases |data|
  {
    if data != [] {
      var n := if |data| < PACKET_LEN then |data| else PACKET_LEN;
      var rest := data[n..];
      ChunksHoldData(rest);
      var c := Pad(data[..n]);
      var f := Flatten(Chunks(data));
      assert f == c + Flatten(Chunks(rest));
      if n < PACKET_LEN {
        assert rest == [];
        assert f == c;
        assert data[..n] == data;
      } else {
        assert c == data[..n];
        assert f[..|data|] == data[..n] + Flatten(Chunks(rest))[..|rest|];
        assert data == data[..n] + rest;
      }
    }
  }

  // ---------------------------------------------------------------------
  // The sender (lib.rs lines 46-93 and 257-292)

  /** The sender once every packet of `data` was acknowledged and the
      end-of-transmission exchange is done. */
  function Transmitted(s: State, data: seq<byte>, rest: seq<byte>): State
  {
    var k := |Chunks(data)|;
    s.(incoming := rest, outgoing := s.outgoing + Wire(s.packet, Chunks(data)) + [EOT, EOT],
       packet := Advance(s.packet, k), progress := s.progress + Numbers(s.packet, k))
  }

  /** The last step of a send: EOT, NAK, EOT, ACK. */
  lemma TransmitFromEnd(s: State, written: nat, rest: seq<byte>)
    requires s.incoming == [NAK, ACK] + rest
    ensures TransmitFrom(s, [], written) == Step(Ok(written), Transmitted(s, [], rest))
  {
    assert s.outgoing + [EOT] + [EOT] == s.outgoing + [] + [EOT, EOT];
  }

  /** The acknowledgements left after the first packet of `data`. */
  lemma AcksStep(s: State, data: seq<byte>, rest: seq<byte>, n: nat)
    requires data != [] && n == (if |data| < PACKET_LEN then |data| else PACKET_LEN)
    requires s.incoming == [ACK] + Repeat([ACK], |Chunks(data)| - 1) + [NAK, ACK] + rest
    ensures s.incoming[1..] == Repeat([ACK], |Chunks(data[n..])|) + [NAK, ACK] + rest
  {
    var cs := Chunks(data);
    assert cs[1..] == Chunks(data[n..]);
    assert s.incoming == [ACK] + (Repeat([ACK], |cs| - 1) + [NAK, ACK] + rest);
  }

  /** The first chunk of `data` and the chunks of the rest. */
  lemma ChunksStep(data: seq<byte>, n: nat)
    requires data != [] && n == (if |data| < PACKET_LEN then |data| else PACKET_LEN)
    ensures Chunks(data) != [] && Chunks(data)[0] == Pad(data[..n]) && Chunks(data)[1..] == Chunks(data[n..])
  {
  }

  /** The first frame of a list of chunks, and what the packet number and
      the progress reports do over it. */
  lemma WireFirst(p: byte, cs: seq<seq<byte>>)
    requires cs != []
    ensures Wire(p, cs) == Frame(p, cs[0]) + Wire(NextPacket(p), cs[1..])
    ensures Numbers(p, |cs|) == [NextPacket(p)] + Numbers(NextPacket(p), |cs[1..]|)
    ensures Advance(p, |cs|) == Advance(NextPacket(p), |cs[1..]|)
  {
  }

  /** The bookkeeping of one acknowledged packet. */
  lemma TransmittedStep(s: State, data: seq<byte>, rest: seq<byte>, n: nat, u: State)
    requires data != [] && n == (if |data| < PACKET_LEN then |data| else PACKET_LEN) && s.incoming != []
    requires var next := NextPacket(s.packet);
      u == s.(incoming := s.incoming[1..], outgoing := s.outgoing + Frame(s.packet, Pad(data[..n])),
              packet := next, progress := s.progress + [next])
    ensures Transmitted(u, data[n..], rest) == Transmitted(s, data, rest)
  {
    ChunksStep(data, n);
    WireFirst(s.packet, Chunks(data));
    assert u.outgoing + Wire(u.packet, Chunks(data[n..])) == s.outgoing + Wire(s.packet, Chunks(data));
    assert u.progress + Numbers(u.packet, |Chunks(data[n..])|) == s.progress + Numbers(s.packet, |Chunks(data)|);
  }

  /** A receiver that acknowledges every packet and then the end of
      transmission gets every chunk, in order and numbered from the
      sender's packet number on; the send reports the data's length. */
  lemma {:induction false} TransmitAcked(s: State, data: seq<byte>, written: nat, rest: seq<byte>)
    requires s.incoming == Repeat([ACK], |Chunks(data)|) + [NAK, ACK] + rest
    ensures var r := TransmitFrom(s, data, written);
      r.result.Ok? && r.result.value == written + |data| && r.after == Transmitted(s, data, rest)
    decreases |data|
  {
    if data == [] {
      assert Repeat([ACK], 0) + [NAK, ACK] + rest == [NAK, ACK] + rest;
      TransmitFromEnd(s, written, rest);
    } else {
      var n := if |data| < PACKET_LEN then |data| else PACKET_LEN;
      var p := Pad(data[..n]);
      var next := NextPacket(s.packet);
      var u := s.(incoming := s.incoming[1..], outgoing := s.outgoing + Frame(s.packet, p),
                  packet := next, progress := s.progress + [next]);
      assert Repeat([ACK], |Chunks(data)|) == [ACK] + Repeat([ACK], |Chunks(data)| - 1);
      AcksStep(s, data, rest, n);
      TransmittedStep(s, data, rest, n, u);
      var w := RetrySend(s, p, 0);
      assert w == Step(Ok(|p|), u) by {
        RetrySendAck(s, p, 0, u.incoming);
      }
      TransmitFromData(s, data, written, n, w);
      TransmitAcked(u, data[n..], written + n, rest);
    }
  }

  // ---------------------------------------------------------------------
  // The receiver (lib.rs lines 106-133 and 207-251)

  /** The receiver once it accepted `k` packets and the end of transmission. */
  function Received(s: State, k: nat, rest: seq<byte>): State
  {
    s.(incoming := rest, outgoing := s.outgoing + Repeat([ACK], k) + [NAK, ACK],
       packet := Advance(s.packet, k), progress := s.progress + Numbers(s.packet, k))
  }

  /** A frame with the expected number and a correct checksum ends the
      receiver's attempts at once. */
  lemma RetryReceiveFrame(s: State, buf: seq<byte>, payload: seq<byte>, rest: seq<byte>)
    requires |buf| == |payload| == PACKET_LEN && s.incoming == Frame(s.packet, payload) + rest
    ensures RetryReceive(s, buf, 0) == PacketRead(Step(Ok(PACKET_LEN), Accepted(s, rest)), payload)
  {
    ReadPacketAcceptsFrame(s, buf, payload, rest);
  }

  /** The first frame of a wire, and the rest. */
  lemma WireStep(p: byte, cs: seq<seq<byte>>, rest: seq<byte>)
    requires cs != []
    ensures Wire(p, cs) + [EOT, EOT] + rest == Frame(p, cs[0]) + (Wire(NextPacket(p), cs[1..]) + [EOT, EOT] + rest)
  {
  }

  /** The bookkeeping of one accepted packet. */
  lemma ReceivedStep(s: State, k: nat, rest: seq<byte>, tail: seq<byte>)
    ensures Received(Accepted(s, tail), k, rest) == Received(s, k + 1, rest)
  {
    var t := Accepted(s, tail);
    assert Repeat([ACK], k + 1) == [ACK] + Repeat([ACK], k);
    assert t.outgoing + Repeat([ACK], k) + [NAK, ACK] == s.outgoing + Repeat([ACK], k + 1) + [NAK, ACK];
    assert Numbers(s.packet, k + 1) == [t.packet] + Numbers(t.packet, k);
    assert t.progress + Numbers(t.packet, k) == s.progress + Numbers(s.packet, k + 1);
    assert Advance(t.packet, k) == Advance(s.packet, k + 1);
  }

  /** The bookkeeping of the sink: the payloads are appended in order. */
  lemma FlattenStep(sink: seq<byte>, cs: seq<seq<byte>>, received: nat)
    requires cs != [] && |cs[0]| == PACKET_LEN
    ensures sink + cs[0] + Flatten(cs[1..]) == sink + Flatten(cs)
    ensures received + PACKET_LEN + |Flatten(cs[1..])| == received + |Flatten(cs)|
  {
  }

  /** The bookkeeping of one accepted packet, restated for the whole list
      of frames. */
  lemma ReceivedFlattenStep(s: State, tail: seq<byte>, sink: seq<byte>, cs: seq<seq<byte>>, rest: seq<byte>)
    requires cs != [] && |cs[0]| == PACKET_LEN
    ensures Received(Accepted(s, tail), |cs[1..]|, rest) == Received(s, |cs|, rest)
    ensures sink + cs[0] + Flatten(cs[1..]) == sink + Flatten(cs)
    ensures PACKET_LEN + |Flatten(cs[1..])| == |Flatten(cs)|
  {
    ReceivedStep(s, |cs[1..]|, rest, tail);
  }

  /** The end of a receive: EOT, EOT answered with NAK, ACK. */
  lemma ReceiveFromEnd(s: State, buf: seq<byte>, received: nat, sink: seq<byte>, rest: seq<byte>)
    requires |buf| == PACKET_LEN && s.incoming == [EOT, EOT] + rest
    ensures ReceiveFrom(s, buf, received, sink) == Transfer(Ok(received), Received(s, 0, rest), sink)
  {
    ReadPacketEot(s, buf, rest);
    assert s.outgoing + [NAK, ACK] == s.outgoing + Repeat([ACK], 0) + [NAK, ACK];
  }

  /** A receiver fed the frames of `cs`, numbered from its own packet number
      on, then EOT, EOT, accepts every one of them: the sink gets the
      payloads in order, every frame is answered with ACK, and the receive
      reports their total length. */
  lemma {:induction false} ReceiveWire(s: State, buf: seq<byte>, received: nat, sink: seq<byte>,
                                       cs: seq<seq<byte>>, rest: seq<byte>)
    requires |buf| == PACKET_LEN && forall i :: 0 <= i < |cs| ==> |cs[i]| == PACKET_LEN
    requires s.incoming == Wire(s.packet, cs) + [EOT, EOT] + rest
    ensures var r := ReceiveFrom(s, buf, received, sink);
      r.result.Ok? && r.result.value == received + |Flatten(cs)|
      && r.after == Received(s, |cs|, rest) && r.sink == sink + Flatten(cs)
    decreases |cs|
  {
    if cs == [] {
      ReceiveFromEnd(s, buf, received, sink, rest);
      assert Flatten(cs) == [];
    } else {
      var tail := Wire(NextPacket(s.packet), cs[1..]) + [EOT, EOT] + rest;
      var t := Accepted(s, tail);
      WireStep(s.packet, cs, rest);
      var p := RetryReceive(s, buf, 0);
      assert p == PacketRead(Step(Ok(PACKET_LEN), t), cs[0]) by {
        RetryReceiveFrame(s, buf, cs[0], tail);
      }
      ReceiveFromAccepted(s, buf, received, sink, p);
      ReceiveWire(t, cs[0], received + PACKET_LEN, sink + cs[0], cs[1..], rest);
      ReceivedFlattenStep(s, tail, sink, cs, rest);
    }
  }

  // ---------------------------------------------------------------------
  // Both ends together

  /** The sender's side of a transfer to a receiver that answers the
      handshake NAK, acknowledges every packet and the end of transmission:
      the send reports `|data|` and writes the frames of `data`, numbered
      from 1, then EOT, EOT. */
  lemma SendToReceiver(data: seq<byte>, log: seq<byte>)
    ensures var cs := Chunks(data);
      var sent := RunTransmit(data, [NAK] + Repeat([ACK], |cs|) + [NAK, ACK], log);
      sent.result.Ok? && sent.result.value == |data| && sent.after.outgoing == log + Wire(1, cs) + [EOT, EOT]
  {
    var cs := Chunks(data);
    var acks := Repeat([ACK], |cs|) + [NAK, ACK];
    var fromReceiver := [NAK] + Repeat([ACK], |cs|) + [NAK, ACK];
    assert fromReceiver[0] == NAK && fromReceiver[1..] == acks;
    RunTransmitHandshake(data, fromReceiver, log);
    var afterNak := Initial(acks, log).(started := true);
    assert afterNak.incoming == Repeat([ACK], |cs|) + [NAK, ACK] + [];
    TransmitAcked(afterNak, data, 0, []);
    var sent := RunTransmit(data, fromReceiver, log);
    assert sent == TransmitFrom(afterNak, data, 0);
    assert Transmitted(afterNak, data, []).outgoing == log + Wire(1, cs) + [EOT, EOT];
  }

  /** The receiver's side of a transfer from a sender that writes the frames
      of `data`, numbered from 1, then EOT, EOT: the receiver answers NAK,
      one ACK per frame, then NAK, ACK, and delivers the data followed by
      zero padding up to a whole packet. */
  lemma ReceiveFromSender(data: seq<byte>, log: seq<byte>)
    ensures var cs := Chunks(data);
      var got := RunReceive(Wire(1, cs) + [EOT, EOT], log);
      got.result.Ok? && got.result.value == |got.sink|
      && got.after.outgoing == log + [NAK] + Repeat([ACK], |cs|) + [NAK, ACK]
      && |data| <= |got.sink| < |data| + PACKET_LEN && got.sink[..|data|] == data
      && forall i :: |data| <= i < |got.sink| ==> got.sink[i] == 0
  {
    var cs := Chunks(data);
    var r := Send(Initial(Wire(1, cs) + [EOT, EOT], log), [NAK]);
    assert r.incoming == Wire(r.packet, cs) + [EOT, EOT] + [];
    ReceiveWire(r, Zeros(PACKET_LEN), 0, [], cs, []);
    var got := RunReceive(Wire(1, cs) + [EOT, EOT], log);
    assert got == ReceiveFrom(r, Zeros(PACKET_LEN), 0, []);
    assert got.sink == Flatten(cs);
    assert got.after.outgoing == log + [NAK] + Repeat([ACK], |cs|) + [NAK, ACK];
    ChunksHoldData(data);
  }
}
