/** The input side of the distribution controller, and the three protocols that share one
    stream: `src/iroh_dist_controller.erl`, after `iroh_dist_preface.erl` and `iroh_dist.erl`. */
module Controller {
  import opened Bytes
  import opened Transport
  import opened PacketFour
  import PacketTwo
  import Preface
  import PeerTable
  import opened Options

  datatype Exit = StreamClosed | StreamFailed(reason: Reason) | TooLong(length: nat)

  function ExitOf(ending: Ending): Exit {
    match ending case Eof => StreamClosed case Failed(reason) => StreamFailed(reason)
  }

  /** One `update_link` message about received traffic. */
  datatype Received = Received(bytes: nat, frames: nat)

  function Size(packets: seq<Binary>): nat {
    if packets == [] then 0 else |packets[0]| + Size(packets[1..])
  }

  function TotalFrames(updates: seq<Received>): nat {
    if updates == [] then 0 else TotalFrames(updates[..|updates| - 1]) + updates[|updates| - 1].frames
  }

  function TotalBytes(updates: seq<Received>): nat {
    if updates == [] then 0 else TotalBytes(updates[..|updates| - 1]) + updates[|updates| - 1].bytes
  }

  lemma {:induction false} SizeSplit(a: seq<Binary>, b: seq<Binary>)
    ensures Size(a + b) == Size(a) + Size(b)
  {
    if a == [] {
      assert a + b == b;
    } else {
      TailAppend(a, b);
      SizeSplit(a[1..], b);
    }
  }

  lemma FlatSplit(a: seq<IoData>, b: seq<IoData>)
    ensures Flat(a + b) == Flat(a) + Flat(b)
  {
  }

  /** What has been handed over and what the parser holds account for the bytes `seen`. */
  ghost predicate Accounts(seen: Binary, packets: seq<IoData>, parser: Parser, maxFrame: nat) {
    Resting(parser, maxFrame) && Parse(seen, maxFrame) == Complete(Flat(packets), Held(parser))
  }

  lemma ReadFed(seen: Binary, data: Binary, packets: seq<IoData>, parser: Parser, maxFrame: nat,
                more: seq<IoData>, next: Parser)
    requires Accounts(seen, packets, parser, maxFrame) && Feed(parser, data, maxFrame) == Fed(more, next)
    ensures Accounts(seen + data, packets + more, next, maxFrame)
  {
    FeedRefinesParse(parser, data, maxFrame);
    ParseSplit(seen, data, maxFrame);
    FlatSplit(packets, more);
  }

  lemma ReadOversize(seen: Binary, data: Binary, later: Binary, packets: seq<IoData>, parser: Parser,
                     maxFrame: nat, n: nat)
    requires Accounts(seen, packets, parser, maxFrame) && Feed(parser, data, maxFrame) == FrameTooLarge(n)
    ensures Parse(seen + (data + later), maxFrame) == TooLarge(n)
    ensures |seen| <= OversizeAt(seen + (data + later), maxFrame) < |seen| + |data|
    ensures Flat(packets) <= BeforeOversize(seen + (data + later), maxFrame)
  {
    hide Feed, Parse, BeforeOversize, OversizeAt;
    FeedRefinesParse(parser, data, maxFrame);
    ParseSplit(seen, data, maxFrame);
    ParseSplit(seen + data, later, maxFrame);
    Assoc(seen, data, later);
    FailsFromOversizeOn(seen, data + later, maxFrame);
    FailsFromOversizeOn(seen + data, later, maxFrame);
    BeforeOversizeSplit(seen, data + later, maxFrame);
  }

  function Report(packets: seq<IoData>): Received {
    Received(Size(Flat(packets)), |packets|)
  }

  ghost predicate Reported(updates: seq<Received>, packets: seq<IoData>) {
    TotalFrames(updates) == |packets| && TotalBytes(updates) == Size(Flat(packets))
  }

  lemma ReportMore(updates: seq<Received>, packets: seq<IoData>, more: seq<IoData>)
    requires Reported(updates, packets)
    ensures Reported(updates + [Report(more)], packets + more)
  {
    assert (updates + [Report(more)])[..|updates|] == updates;
    FlatSplit(packets, more);
    SizeSplit(Flat(packets), Flat(more));
  }

  // ----- which packets get through

  /** The offset at which the read begins that brings the byte at `position`. */
  function ReadStart(input: Input, receiveChunk: nat, position: nat): (start: nat)
    requires 1 <= receiveChunk <= MAX_RECEIVE && position < |input.bytes|
    ensures start <= position
    decreases |input.bytes|
  {
    var (read, rest) := Transport.Recv(input, receiveChunk);
    if position < |read.data| then 0 else |read.data| + ReadStart(rest, receiveChunk, position - |read.data|)
  }

  /** What the loop hands over: every packet, or, when a frame is over the limit, those whose
      last byte came before the read that completes that frame's header. */
  function Delivered(input: Input, receiveChunk: nat, maxFrame: nat): seq<Binary>
    requires 1 <= receiveChunk <= MAX_RECEIVE
  {
    match Parse(input.bytes, maxFrame)
    case Complete(all, _) => all
    case TooLarge(_) =>
      OversizeIsThere(input.bytes, maxFrame);
      var before := input.bytes[..ReadStart(input, receiveChunk, OversizeAt(input.bytes, maxFrame))];
      match Parse(before, maxFrame) case Complete(some, _) => some case TooLarge(_) => []
  }

  lemma OversizeIsThere(b: Binary, maxFrame: nat)
    requires Parse(b, maxFrame).TooLarge?
    ensures OversizeAt(b, maxFrame) < |b|
  {
    FailsFromOversizeOn(b, [], maxFrame);
    assert b + [] == b;
  }

  /** No packet before an oversize frame is lost exactly when the read that completes its
      header began no earlier than the last of them ended. */
  lemma NoneLostIff(input: Input, receiveChunk: nat, maxFrame: nat)
    requires 1 <= receiveChunk <= MAX_RECEIVE && Parse(input.bytes, maxFrame).TooLarge?
    ensures OversizeAt(input.bytes, maxFrame) < |input.bytes|
    ensures var earlier := BeforeOversize(input.bytes, maxFrame);
            && Delivered(input, receiveChunk, maxFrame) <= earlier
            && (Delivered(input, receiveChunk, maxFrame) == earlier <==>
                  |Frames(earlier)| <= ReadStart(input, receiveChunk, OversizeAt(input.bytes, maxFrame)))
  {
    OversizeIsThere(input.bytes, maxFrame);
    EarlierFramesEnd(input.bytes, ReadStart(input, receiveChunk, OversizeAt(input.bytes, maxFrame)), maxFrame);
  }

  /** Cut before an oversize header is complete, a stream gives some of the packets before
      it, and all exactly when it is cut no earlier than the end of their frames. */
  lemma EarlierFramesEnd(b: Binary, cut: nat, maxFrame: nat)
    requires Parse(b, maxFrame).TooLarge? && cut <= OversizeAt(b, maxFrame) && cut <= |b|
    ensures var earlier, r := BeforeOversize(b, maxFrame), Parse(b[..cut], maxFrame);
            && r.Complete? && r.packets <= earlier
            && (r.packets == earlier <==> |Frames(earlier)| <= cut)
  {
    hide Parse, BeforeOversize, Frames;
    var a, later := b[..cut], b[cut..];
    assert a + later == b;
    FailsFromOversizeOn(a, later, maxFrame);
    BeforeOversizeSplit(a, later, maxFrame);
    ParseLossless(a, maxFrame);
    var r := Parse(a, maxFrame);
    var more := BeforeOversize(r.rest + later, maxFrame);
    FramesSplit(r.packets, more);
    FramesPositive(more);
    if more != [] {
      RestIsShort(a, later, maxFrame);
    }
  }

  lemma FramesPositive(packets: seq<Binary>)
    ensures |Frames(packets)| == 0 <==> packets == []
  {
  }

  /** What is left over is shorter than the next frame. */
  lemma {:induction false} RestIsShort(a: Binary, later: Binary, maxFrame: nat)
    requires Parse(a, maxFrame).Complete?
    requires BeforeOversize(Parse(a, maxFrame).rest + later, maxFrame) != []
    ensures |Parse(a, maxFrame).rest| < |Frames(BeforeOversize(Parse(a, maxFrame).rest + later, maxFrame))|
    decreases |a|
  {
    hide Encode;
    if |a| >= 4 && |a| >= 4 + Decode(a[..4]) {
      RestIsShort(a[4 + Decode(a[..4])..], later, maxFrame);
    } else {
      NextFrameIsLonger(a, later, maxFrame);
    }
  }

  lemma NextFrameIsLonger(rest: Binary, later: Binary, maxFrame: nat)
    requires BeforeOversize(rest + later, maxFrame) != []
    requires |rest| >= 4 ==> |rest| < 4 + Decode(rest[..4])
    ensures |rest| < |Frames(BeforeOversize(rest + later, maxFrame))|
  {
    hide Encode, Decode;
    var all := rest + later;
    assert |rest| >= 4 ==> all[..4] == rest[..4];
    var n := Decode(all[..4]);
    assert BeforeOversize(all, maxFrame)[0] == all[4..4 + n];
  }

  /** The reads of `start` from offset `k` on are those of `input`. */
  ghost predicate Aligned(start: Input, input: Input, k: nat, receiveChunk: nat)
    requires 1 <= receiveChunk <= MAX_RECEIVE
  {
    && |start.bytes| == k + |input.bytes|
    && forall p | k <= p < |start.bytes| ::
         ReadStart(start, receiveChunk, p) == k + ReadStart(input, receiveChunk, p - k)
  }

  lemma ReadStartAt(input: Input, receiveChunk: nat, position: nat)
    requires 1 <= receiveChunk <= MAX_RECEIVE && position < |input.bytes|
    ensures var (read, rest) := Transport.Recv(input, receiveChunk);
            && read.Data?
            && ReadStart(input, receiveChunk, position) ==
               if position < |read.data| then 0
               else |read.data| + ReadStart(rest, receiveChunk, position - |read.data|)
  {
  }

  lemma AlignedStep(start: Input, input: Input, k: nat, receiveChunk: nat)
    requires 1 <= receiveChunk <= MAX_RECEIVE && Aligned(start, input, k, receiveChunk)
    requires Transport.Recv(input, receiveChunk).0.Data?
    ensures var (read, rest) := Transport.Recv(input, receiveChunk);
            && Aligned(start, rest, k + |read.data|, receiveChunk)
            && forall p | k <= p < k + |read.data| :: p < |start.bytes| && ReadStart(start, receiveChunk, p) == k
  {
    hide ReadStart, Transport.Recv;
    var (read, rest) := Transport.Recv(input, receiveChunk);
    forall p | k <= p < |start.bytes|
      ensures p < k + |read.data| ==> ReadStart(start, receiveChunk, p) == k
      ensures p >= k + |read.data| ==>
                ReadStart(start, receiveChunk, p)
                == k + |read.data| + ReadStart(rest, receiveChunk, p - (k + |read.data|))
    {
      ReadStartAt(input, receiveChunk, p - k);
    }
  }

  /** The loop stops on the read that began at `|seen|`. */
  lemma StoppedAt(start: Input, receiveChunk: nat, maxFrame: nat, seen: Binary, packets: seq<IoData>, parser: Parser)
    requires 1 <= receiveChunk <= MAX_RECEIVE && seen <= start.bytes
    requires Accounts(seen, packets, parser, maxFrame) && Parse(start.bytes, maxFrame).TooLarge?
    requires OversizeAt(start.bytes, maxFrame) < |start.bytes|
    requires ReadStart(start, receiveChunk, OversizeAt(start.bytes, maxFrame)) == |seen|
    ensures Delivered(start, receiveChunk, maxFrame) == Flat(packets)
  {
    assert start.bytes[..|seen|] == seen;
  }

  /** `input_loop`, from a fresh parser until the stream or a frame ends it. `packets` is
      what was handed to the VM, `updates` what was reported to the endpoint server. When a
      frame is over the limit, how many of the packets before it get through depends on the
      cutting, as `Delivered` says. */
  method InputLoop(start: Input, receiveChunk: nat, maxFrame: nat)
    returns (packets: seq<IoData>, updates: seq<Received>, exit: Exit)
    requires 1 <= receiveChunk <= MAX_RECEIVE
    ensures exit == match Parse(start.bytes, maxFrame)
                    case Complete(_, _) => ExitOf(start.ending)
                    case TooLarge(n) => TooLong(n)
    ensures Flat(packets) == Delivered(start, receiveChunk, maxFrame)
    ensures Reported(updates, packets)
  {
    hide Parse, Feed, OversizeAt, BeforeOversize, ReadStart;
    var input, parser := start, NEW;
    packets, updates := [], [];
    ghost var seen: Binary := [];
    NothingSeen();
    while true
      invariant start.bytes == seen + input.bytes && input.ending == start.ending
      invariant Accounts(seen, packets, parser, maxFrame)
      invariant Aligned(start, input, |seen|, receiveChunk)
      invariant Reported(updates, packets)
      decreases |input.bytes|
    {
      var (read, rest) := Transport.Recv(input, receiveChunk);
      match read {
        case End =>
          assert seen == start.bytes;
          return packets, updates, StreamClosed;
        case Failure(reason) =>
          assert seen == start.bytes;
          return packets, updates, StreamFailed(reason);
        case Data(data) =>
          AlignedStep(start, input, |seen|, receiveChunk);
          var fed := Feed(parser, data, maxFrame);
          match fed {
            case FrameTooLarge(length) =>
              ReadOversize(seen, data, rest.bytes, packets, parser, maxFrame, length);
              StoppedAt(start, receiveChunk, maxFrame, seen, packets, parser);
              return packets, updates, TooLong(length);
            case Fed(more, next) =>
              ReadFed(seen, data, packets, parser, maxFrame, more, next);
              ReportMore(updates, packets, more);
              Assoc(seen, data, rest.bytes);
              packets, updates, parser := packets + more, updates + [Report(more)], next;
              seen, input := seen + data, rest;
          }
      }
    }
  }

  lemma NothingSeen()
    ensures forall maxFrame :: Accounts([], [], NEW, maxFrame)
  {
  }

  // ----- one stream, three protocols

  datatype Opening =
    | Open(peer: PeerTable.Node, handshake: seq<Binary>, rest: Input)
    | Refused(refusal: Preface.Error)
    | HandshakeBroken(peer: PeerTable.Node, error: Reason)

  /** After the preface both sides read `rounds` handshake packets. */
  function Handshaken(peer: PeerTable.Node, input: Input, rounds: nat): Opening {
    match PacketTwo.RecvMany(input, rounds)
    case Aborted(_, error) => HandshakeBroken(peer, error)
    case Handshake(packets, rest) => Open(peer, packets, rest)
  }

  /** What the accepting side reads before its controller takes over. */
  function OpenSession(config: PeerTable.Config, remoteId: PeerTable.Id, input: Input, rounds: nat): Opening {
    match Preface.Incoming(config, remoteId, input, Sent)
    case AcceptError(_, error) => Refused(error)
    case AcceptOk(claimed, _, afterPreface) => Handshaken(claimed, afterPreface, rounds)
  }

  /** What the dialling side reads before its controller takes over. */
  function DialSession(local: PeerTable.Node, remote: PeerTable.Node, input: Input, rounds: nat): Opening {
    match Preface.Outgoing(local, remote, Sent, input)
    case DialError(_, error) => Refused(error)
    case DialOk(_, afterAck) => Handshaken(remote, afterAck, rounds)
  }

  /** The bytes of a session up to its data frames, towards the acceptor. */
  ghost function OpeningBytes(dialler: PeerTable.Node, acceptor: PeerTable.Node, handshake: seq<Binary>): Binary
    requires PacketTwo.Sendable(handshake)
  {
    Preface.Frame(dialler, acceptor) + PacketTwo.Frames(handshake)
  }

  /** And towards the dialler. */
  ghost function AnswerBytes(handshake: seq<Binary>): Binary
    requires PacketTwo.Sendable(handshake)
  {
    [1] + PacketTwo.Frames(handshake)
  }

  /** The handshake phase takes its packets after `before` and leaves everything else. */
  ghost predicate Opened(opening: Opening, peer: PeerTable.Node, rounds: nat, before: Binary, input: Input) {
    && opening.Open? && opening.peer == peer
    && |opening.handshake| == rounds && PacketTwo.Sendable(opening.handshake)
    && input.bytes == before + PacketTwo.Frames(opening.handshake) + opening.rest.bytes
    && opening.rest.ending == input.ending
  }

  lemma HandshakeTakesItsBytes(peer: PeerTable.Node, input: Input, handshake: seq<Binary>, later: Binary)
    requires PacketTwo.Sendable(handshake) && input.bytes == PacketTwo.Frames(handshake) + later
    ensures var r := Handshaken(peer, input, |handshake|);
            && r.Open? && r.peer == peer && r.handshake == handshake
            && r.rest.bytes == later && r.rest.ending == input.ending
  {
    hide PacketTwo.RecvMany, PacketTwo.Frames;
    PacketTwo.RecvManyOfFrames(handshake, input, later);
  }

  lemma HandshakeWasThere(peer: PeerTable.Node, afterBefore: Input, rounds: nat, before: Binary, input: Input)
    requires Handshaken(peer, afterBefore, rounds).Open?
    requires input.bytes == before + afterBefore.bytes && input.ending == afterBefore.ending
    ensures Opened(Handshaken(peer, afterBefore, rounds), peer, rounds, before, input)
  {
    hide PacketTwo.RecvMany, PacketTwo.Frames;
    PacketTwo.RecvManySound(afterBefore, rounds);
    var r := Handshaken(peer, afterBefore, rounds);
    Assoc(before, PacketTwo.Frames(r.handshake), r.rest.bytes);
  }

  /** Whatever follows, and however the stream is cut, the acceptor's two phases take exactly
      their own bytes. */
  lemma PhasesTakeTheirBytes(config: PeerTable.Config, remoteId: PeerTable.Id, input: Input,
                             dialler: PeerTable.Node, handshake: seq<Binary>, later: Binary)
    requires PeerTable.Installed(config) && Preface.Nameable(config.name) && Preface.Nameable(dialler)
    requires PeerTable.AuthorizeId(config, remoteId) == Some(dialler)
    requires PacketTwo.Sendable(handshake)
    requires input.bytes == OpeningBytes(dialler, config.name, handshake) + later
    ensures var r := OpenSession(config, remoteId, input, |handshake|);
            && r.Open? && r.peer == dialler && r.handshake == handshake
            && r.rest.bytes == later && r.rest.ending == input.ending
  {
    hide Preface.Incoming, Preface.Frame, PeerTable.AuthorizeId, PeerTable.Installed, PacketTwo.Frames, Handshaken;
    Assoc(Preface.Frame(dialler, config.name), PacketTwo.Frames(handshake), later);
    Preface.IncomingOfFrame(config, remoteId, dialler, config.name, PacketTwo.Frames(handshake) + later, input, Sent);
    HandshakeTakesItsBytes(dialler, Preface.Incoming(config, remoteId, input, Sent).rest, handshake, later);
  }

  /** And conversely: whatever the peer sends, a session that opens was opened by a preface
      naming the node bound to the authenticated id and by the handshake packets received,
      and every later byte is still to be read. */
  lemma OpenOnlyByTheirBytes(config: PeerTable.Config, remoteId: PeerTable.Id, input: Input, rounds: nat)
    requires PeerTable.Installed(config) && OpenSession(config, remoteId, input, rounds).Open?
    ensures var r := OpenSession(config, remoteId, input, rounds);
            && Preface.Nameable(r.peer) && PeerTable.AuthorizeId(config, remoteId) == Some(r.peer)
            && Opened(r, r.peer, rounds, Preface.Frame(r.peer, config.name), input)
  {
    hide Preface.Incoming, Preface.Frame, PeerTable.AuthorizeId, PeerTable.Installed, Handshaken;
    Preface.AcceptedClaimWasThere(config, remoteId, input, Sent);
    var accepted := Preface.Incoming(config, remoteId, input, Sent);
    HandshakeWasThere(accepted.claimed, accepted.rest, rounds, Preface.Frame(accepted.claimed, config.name), input);
  }

  /** Why a session does not open: a claim that is not bound is refused for that, and after
      a bound one only the handshake can break, with the stream's own ending. */
  lemma WhyNotOpened(config: PeerTable.Config, remoteId: PeerTable.Id, input: Input, rounds: nat,
                     name: Binary, target: Binary, later: Binary)
    requires PeerTable.Installed(config) && Preface.Nameable(name) && Preface.Nameable(target)
    requires input.bytes == Preface.Frame(name, target) + later
    ensures var r := OpenSession(config, remoteId, input, rounds);
            if target == config.name && PeerTable.AuthorizeId(config, remoteId) == Some(name) then
              !r.Open? ==> r == HandshakeBroken(name, EndingError(input.ending))
            else r == Refused(Preface.IdentityNameMismatch)
  {
    hide Preface.Incoming, Preface.Frame, PeerTable.AuthorizeId, PeerTable.Installed, Handshaken;
    Preface.IncomingOfFrame(config, remoteId, name, target, later, input, Sent);
    var accepted := Preface.Incoming(config, remoteId, input, Sent);
    if accepted.AcceptOk? {
      HandshakeBreaksOff(name, accepted.rest, rounds);
    }
  }

  lemma HandshakeBreaksOff(peer: PeerTable.Node, input: Input, rounds: nat)
    ensures Handshaken(peer, input, rounds).Open?
            || Handshaken(peer, input, rounds) == HandshakeBroken(peer, EndingError(input.ending))
  {
    hide PacketTwo.RecvMany;
    if PacketTwo.RecvMany(input, rounds).Aborted? {
      PacketTwo.RecvManyBreaksOff(input, rounds);
    }
  }

  /** The dialler's phases take exactly their own bytes too. */
  lemma AnswersTakeTheirBytes(local: PeerTable.Node, remote: PeerTable.Node, input: Input,
                              handshake: seq<Binary>, later: Binary)
    requires Preface.Nameable(local) && Preface.Nameable(remote) && PacketTwo.Sendable(handshake)
    requires input.bytes == AnswerBytes(handshake) + later
    ensures var r := DialSession(local, remote, input, |handshake|);
            && r.Open? && r.peer == remote && r.handshake == handshake
            && r.rest.bytes == later && r.rest.ending == input.ending
  {
    hide Preface.Outgoing, PacketTwo.Frames, Handshaken;
    Assoc([1], PacketTwo.Frames(handshake), later);
    Preface.OnlyOneIsAcknowledgement(local, remote, input);
    var rest := Preface.Outgoing(local, remote, Sent, input).rest;
    assert input.bytes[1..] == PacketTwo.Frames(handshake) + later;
    HandshakeTakesItsBytes(remote, rest, handshake, later);
  }

  lemma DialOnlyByTheirBytes(local: PeerTable.Node, remote: PeerTable.Node, input: Input, rounds: nat)
    requires DialSession(local, remote, input, rounds).Open?
    ensures var r := DialSession(local, remote, input, rounds);
            Preface.Nameable(local) && Preface.Nameable(remote) && Opened(r, remote, rounds, [1], input)
  {
    hide Preface.Outgoing, Handshaken, Opened;
    Preface.AcknowledgementWasThere(local, remote, input);
    HandshakeWasThere(remote, Preface.Outgoing(local, remote, Sent, input).rest, rounds, [1], input);
  }

  /** And why a dialled one does not. */
  lemma WhyNotDialled(local: PeerTable.Node, remote: PeerTable.Node, input: Input, rounds: nat)
    requires Preface.Nameable(local) && Preface.Nameable(remote)
    ensures var r := DialSession(local, remote, input, rounds);
            if input.bytes == [] then r == Refused(Preface.Io(EndingError(input.ending)))
            else if input.bytes[0] != 1 then r == Refused(Preface.Unauthorized)
            else !r.Open? ==> r == HandshakeBroken(remote, EndingError(input.ending))
  {
    hide Preface.Outgoing, Handshaken;
    Preface.DialsExactlyWhen(local, remote, Sent, input);
    var dialled := Preface.Outgoing(local, remote, Sent, input);
    if dialled.DialOk? {
      Preface.AcknowledgementWasThere(local, remote, input);
      HandshakeBreaksOff(remote, dialled.rest, rounds);
    }
  }

  datatype Session =
    | NotOpened(opening: Opening)
    | Ran(peer: PeerTable.Node, handshake: seq<Binary>, packets: seq<IoData>, exit: Exit)

  /** The data phase of a session that opened, on what its opening left to read. */
  ghost predicate RanOn(session: Session, opening: Opening, receiveChunk: nat, maxFrame: nat)
    requires 1 <= receiveChunk <= MAX_RECEIVE && opening.Open?
  {
    && session.Ran? && session.peer == opening.peer && session.handshake == opening.handshake
    && Flat(session.packets) == Delivered(opening.rest, receiveChunk, maxFrame)
    && session.exit == match Parse(opening.rest.bytes, maxFrame)
                       case Complete(_, _) => ExitOf(opening.rest.ending)
                       case TooLarge(n) => TooLong(n)
  }

  /** The input loop on whatever a side's opening left to read. */
  method RunOpened(opening: Opening, receiveChunk: nat, maxFrame: nat) returns (session: Session)
    requires 1 <= receiveChunk <= MAX_RECEIVE
    ensures if opening.Open? then RanOn(session, opening, receiveChunk, maxFrame) else session == NotOpened(opening)
  {
    hide Delivered, Parse;
    if opening.Open? {
      var packets, updates, exit := InputLoop(opening.rest, receiveChunk, maxFrame);
      session := Ran(opening.peer, opening.handshake, packets, exit);
    } else {
      session := NotOpened(opening);
    }
  }

  /** One stream from its first byte to its last on the accepting side. A session that ran
      had a preface from the node bound to the authenticated id, `rounds` handshake packets
      and then the bytes its data phase read; and any such bytes make it run with exactly
      those. */
  method RunAcceptor(config: PeerTable.Config, remoteId: PeerTable.Id, input: Input, rounds: nat,
                     receiveChunk: nat, maxFrame: nat)
    returns (session: Session)
    requires PeerTable.Installed(config) && Preface.Nameable(config.name)
    requires 1 <= receiveChunk <= MAX_RECEIVE
    ensures session.Ran? ==>
              var opening := OpenSession(config, remoteId, input, rounds);
              && Preface.Nameable(session.peer) && PeerTable.AuthorizeId(config, remoteId) == Some(session.peer)
              && Opened(opening, session.peer, rounds, Preface.Frame(session.peer, config.name), input)
              && RanOn(session, opening, receiveChunk, maxFrame)
    ensures forall dialler, handshake, frames {:trigger OpeningBytes(dialler, config.name, handshake) + frames} |
              && Preface.Nameable(dialler) && PeerTable.AuthorizeId(config, remoteId) == Some(dialler)
              && PacketTwo.Sendable(handshake) && |handshake| == rounds
              && input.bytes == OpeningBytes(dialler, config.name, handshake) + frames ::
              && session.Ran? && session.peer == dialler && session.handshake == handshake
              && OpenSession(config, remoteId, input, rounds).rest.bytes == frames
  {
    hide OpenSession, Opened, OpeningBytes, Delivered, Parse, PeerTable.Installed, PeerTable.AuthorizeId, Preface.Frame;
    var opening := OpenSession(config, remoteId, input, rounds);
    forall dialler, handshake, frames |
      && Preface.Nameable(dialler) && PeerTable.AuthorizeId(config, remoteId) == Some(dialler)
      && PacketTwo.Sendable(handshake) && |handshake| == rounds
      && input.bytes == OpeningBytes(dialler, config.name, handshake) + frames
      ensures opening.Open? && opening.peer == dialler && opening.handshake == handshake && opening.rest.bytes == frames
    {
      PhasesTakeTheirBytes(config, remoteId, input, dialler, handshake, frames);
    }
    session := RunOpened(opening, receiveChunk, maxFrame);
    if opening.Open? {
      OpenOnlyByTheirBytes(config, remoteId, input, rounds);
    }
  }

  /** The same on the dialling side, which reads the acknowledgement first. */
  method RunDialler(local: PeerTable.Node, remote: PeerTable.Node, input: Input, rounds: nat,
                    receiveChunk: nat, maxFrame: nat)
    returns (session: Session)
    requires 1 <= receiveChunk <= MAX_RECEIVE
    ensures session.Ran? ==>
              var opening := DialSession(local, remote, input, rounds);
              && Preface.Nameable(local) && Preface.Nameable(remote)
              && Opened(opening, remote, rounds, [1], input)
              && RanOn(session, opening, receiveChunk, maxFrame)
    ensures forall handshake, frames {:trigger AnswerBytes(handshake) + frames} |
              && Preface.Nameable(local) && Preface.Nameable(remote)
              && PacketTwo.Sendable(handshake) && |handshake| == rounds
              && input.bytes == AnswerBytes(handshake) + frames ::
              && session.Ran? && session.peer == remote && session.handshake == handshake
              && DialSession(local, remote, input, rounds).rest.bytes == frames
  {
    hide DialSession, Opened, AnswerBytes, Delivered, Parse;
    var opening := DialSession(local, remote, input, rounds);
    forall handshake, frames |
      && Preface.Nameable(local) && Preface.Nameable(remote)
      && PacketTwo.Sendable(handshake) && |handshake| == rounds
      && input.bytes == AnswerBytes(handshake) + frames
      ensures opening.Open? && opening.peer == remote && opening.handshake == handshake && opening.rest.bytes == frames
    {
      AnswersTakeTheirBytes(local, remote, input, handshake, frames);
    }
    session := RunOpened(opening, receiveChunk, maxFrame);
    if opening.Open? {
      DialOnlyByTheirBytes(local, remote, input, rounds);
    }
  }
}
