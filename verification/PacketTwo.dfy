/** Packet-two framing of the OTP handshake: `src/iroh_dist.erl`. */
module PacketTwo {
  import opened Bytes
  import opened Transport

  datatype Framed = Framed(frame: Binary) | MessageTooLarge

  /** `max_bytes` of the send that carries a handshake frame. */
  const MAX_SEND: nat := 65537

  function Frame(packet: Binary): (f: Framed)
    ensures f.Framed? <==> |packet| < 0x1_0000
    ensures f.Framed? ==> 2 <= |f.frame| <= MAX_SEND
    ensures f.Framed? ==> Decode(f.frame[..2]) == |packet| && f.frame[2..] == packet
  {
    if |packet| < 0x1_0000 then
      FieldRanges();
      DecodeEncode(|packet|, 2);
      assert (Encode(|packet|, 2) + packet)[..2] == Encode(|packet|, 2);
      Framed(Encode(|packet|, 2) + packet)
    else MessageTooLarge
  }

  datatype Received = Packet(data: Binary, rest: Input) | NoPacket(error: Reason)

  function Recv(input: Input): Received {
    match RecvExact(input, 2, [])
    case Short(error) => NoPacket(error)
    case Exactly(field, afterField) => RecvBody(afterField, Decode(field))
  }

  function RecvBody(input: Input, size: nat): Received {
    match RecvExact(input, size, [])
    case Short(error) => NoPacket(error)
    case Exactly(data, rest) => Packet(data, rest)
  }

  /** The whole of the next packet is there to be read. */
  ghost predicate Whole(b: Binary) {
    |b| >= 2 && |b| >= 2 + Decode(b[..2])
  }

  lemma FieldMeaning(input: Input) returns (afterField: Input)
    ensures |input.bytes| < 2 ==> Recv(input) == NoPacket(EndingError(input.ending))
    ensures |input.bytes| >= 2 ==> Recv(input) == RecvBody(afterField, Decode(input.bytes[..2]))
    ensures |input.bytes| >= 2 ==> afterField.bytes == input.bytes[2..] && afterField.ending == input.ending
  {
    RecvExactTakesPrefix(input, 2);
    afterField := if |input.bytes| >= 2 then RecvExact(input, 2, []).rest else input;
  }

  lemma BodyMeaning(input: Input, size: nat)
    requires size <= MAX_RECEIVE
    ensures var r := RecvBody(input, size);
            && (r.Packet? <==> size <= |input.bytes|)
            && (r.Packet? ==> r.data == input.bytes[..size] && r.rest.bytes == input.bytes[size..]
                              && r.rest.ending == input.ending)
            && (r.NoPacket? ==> r.error == EndingError(input.ending))
  {
    RecvExactTakesPrefix(input, size);
  }

  lemma FieldIsReceivable(b: Binary)
    requires |b| == 2
    ensures Decode(b) <= MAX_RECEIVE
  {
    FieldRanges();
  }

  /** What reading one packet means, for every cutting of the stream. */
  lemma RecvMeaning(input: Input)
    ensures var r := Recv(input);
            && (r.Packet? <==> Whole(input.bytes))
            && (r.Packet? ==>
                  var n := Decode(input.bytes[..2]);
                  && r.data == input.bytes[2..2 + n]
                  && r.rest.bytes == input.bytes[2 + n..]
                  && r.rest.ending == input.ending)
            && (r.NoPacket? ==> r.error == EndingError(input.ending))
  {
    hide RecvExact, Transport.Recv, Decode;
    var afterField := FieldMeaning(input);
    if |input.bytes| >= 2 {
      FieldIsReceivable(input.bytes[..2]);
      BodyMeaning(afterField, Decode(input.bytes[..2]));
    }
  }

  /** A frame is read back as its packet, and the byte after it is the next one read. */
  lemma RecvOfFrame(packet: Binary, input: Input, later: Binary)
    requires Frame(packet).Framed? && input.bytes == Frame(packet).frame + later
    ensures var r := Recv(input);
            r.Packet? && r.data == packet && r.rest.bytes == later && r.rest.ending == input.ending
  {
    hide Recv, Encode, Decode;
    RecvMeaning(input);
    FieldRanges();
    DecodeEncode(|packet|, 2);
    assert input.bytes[..2] == Encode(|packet|, 2);
    assert input.bytes[2..2 + |packet|] == packet;
  }

  /** A frame: the size in two bytes, most significant first, and the packet. */
  lemma FrameBytes(packet: Binary)
    requires |packet| < 0x1_0000
    ensures Frame(packet) == Framed([(|packet| / 0x100) as Byte, (|packet| % 0x100) as Byte] + packet)
  {
    Field2(|packet|);
  }

  // ----- a handshake: several packets in a row

  datatype Handshake = Handshake(packets: seq<Binary>, rest: Input) | Aborted(packets: seq<Binary>, error: Reason)

  function RecvMany(input: Input, count: nat): Handshake
    decreases count
  {
    if count == 0 then Handshake([], input)
    else
      match Recv(input)
      case NoPacket(error) => Aborted([], error)
      case Packet(data, rest) =>
        match RecvMany(rest, count - 1)
        case Handshake(packets, last) => Handshake([data] + packets, last)
        case Aborted(packets, error) => Aborted([data] + packets, error)
  }

  ghost predicate Sendable(packets: seq<Binary>) {
    forall p <- packets :: |p| < 0x1_0000
  }

  function Frames(packets: seq<Binary>): Binary
    requires Sendable(packets)
  {
    if packets == [] then [] else Frame(packets[0]).frame + Frames(packets[1..])
  }

  /** Any list of handshake packets is recovered under any cutting, leaving exactly the
      bytes that follow. */
  lemma {:induction false} RecvManyOfFrames(packets: seq<Binary>, input: Input, later: Binary)
    requires Sendable(packets) && input.bytes == Frames(packets) + later
    ensures var r := RecvMany(input, |packets|);
            r.Handshake? && r.packets == packets && r.rest.bytes == later && r.rest.ending == input.ending
  {
    hide Recv, Frame, Encode, Decode;
    if packets != [] {
      Assoc(Frame(packets[0]).frame, Frames(packets[1..]), later);
      RecvOfFrame(packets[0], input, Frames(packets[1..]) + later);
      RecvManyOfFrames(packets[1..], Recv(input).rest, later);
      assert packets == [packets[0]] + packets[1..];
    } else {
      assert Frames(packets) + later == later;
    }
  }

  lemma RecvSound(input: Input)
    requires Recv(input).Packet?
    ensures var r := Recv(input);
            && Frame(r.data).Framed?
            && Frame(r.data).frame + r.rest.bytes == input.bytes
            && r.rest.ending == input.ending
  {
    RecvMeaning(input);
    FieldRanges();
    EncodeDecode(input.bytes[..2]);
    Reassembled(input.bytes, Decode(input.bytes[..2]));
  }

  lemma Reassembled(b: Binary, n: nat)
    requires |b| >= 2 + n
    ensures b[..2] + b[2..2 + n] + b[2 + n..] == b
  {
    Seam(b, 2, 2 + n);
  }

  /** Conversely, whatever bytes arrive, the packets received are framed in them, in
      order, right before the bytes left over. */
  lemma {:induction false} RecvManySound(input: Input, count: nat)
    requires RecvMany(input, count).Handshake?
    ensures var r := RecvMany(input, count);
            && |r.packets| == count && Sendable(r.packets)
            && Frames(r.packets) + r.rest.bytes == input.bytes
            && r.rest.ending == input.ending
    decreases count
  {
    hide Recv, Encode, Decode;
    if count > 0 {
      RecvSound(input);
      var first := Recv(input);
      RecvManySound(first.rest, count - 1);
      var more := RecvMany(first.rest, count - 1);
      assert ([first.data] + more.packets)[1..] == more.packets;
      Assoc(Frame(first.data).frame, Frames(more.packets), more.rest.bytes);
    } else {
      assert Frames([]) + input.bytes == input.bytes;
    }
  }

  /** A handshake breaks off exactly when fewer packets are there whole than were asked for:
      what was received is framed at the beginning, what follows it is not a whole packet,
      and the error is the stream's own ending. */
  lemma {:induction false} RecvManyBreaksOff(input: Input, count: nat)
    requires RecvMany(input, count).Aborted?
    ensures var r := RecvMany(input, count);
            && |r.packets| < count && Sendable(r.packets) && r.error == EndingError(input.ending)
            && Frames(r.packets) <= input.bytes && !Whole(input.bytes[|Frames(r.packets)|..])
    decreases count
  {
    hide Recv, Frame, Encode, Decode;
    RecvMeaning(input);
    if Recv(input).Packet? {
      RecvSound(input);
      var first := Recv(input);
      RecvManyBreaksOff(first.rest, count - 1);
      var more := RecvMany(first.rest, count - 1).packets;
      assert ([first.data] + more)[1..] == more;
      BreakOffStep(Frame(first.data).frame, Frames(more), first.rest.bytes);
    } else {
      assert input.bytes[0..] == input.bytes;
    }
  }

  lemma BreakOffStep(frame: Binary, frames: Binary, rest: Binary)
    requires frames <= rest
    ensures frame + frames <= frame + rest && (frame + rest)[|frame + frames|..] == rest[|frames|..]
  {
  }
}
