/** One direction of a distribution link as a transition system: the output loop of
    `src/iroh_dist_controller.erl` and the VM that feeds it, a channel that cuts the bytes
    as it likes, and the input loop of the peer. */
module Delivery {
  import opened Bytes
  import opened Numbers
  import opened Options
  import opened PacketFour
  import opened Controller

  datatype Limits = Limits(sendMax: nat, recvMax: nat, receiveChunk: nat)

  datatype Message = DistData | DistTick | Close | ParentExit | InputExit | OtherExit | Unknown

  /** Where the output loop is: in `output_wait`, about to pull in `output_data`, inside
      `send_packet` with `left` still to write, or gone. */
  datatype Mode = Waiting | Draining | Writing(left: Binary, size: nat, draining: bool) | Stopped

  datatype Origin = FromVm | FromTick

  /** `queue` is what the VM has ready and `armed` its pending data notification. The rest
      is history: everything the VM has offered; the packets whose frames were begun (a tick
      is an empty packet) and where each came from; one refused for its size; and the totals
      reported by `update_link`. */
  datatype Sender = Sender(queue: seq<Binary>, armed: bool, mailbox: seq<Message>, mode: Mode,
                           offered: seq<Binary>, begun: seq<Binary>, origins: seq<Origin>,
                           refused: Option<Binary>, sentBytes: nat, sentFrames: nat)

  /** `oversize` is the length of the frame that stopped the loop, if one did. */
  datatype Receiver = Receiver(parser: Parser, delivered: seq<IoData>, running: bool, oversize: Option<nat>,
                               receivedBytes: nat, receivedFrames: nat)

  /** `wire` is in flight; `written` and `read` are all bytes ever put in and taken out. */
  datatype State = State(sender: Sender, wire: Binary, written: Binary, read: Binary, receiver: Receiver)

  datatype Event =
    | Offer(packet: Binary)
    | Notify
    | Post(message: Message)
    | HandleMessage
    | Pull
    | WriteSome(k: nat)
    | WriteDone
    | WriteFail
    | Read(k: nat)
    | ReadEnd

  function Refusal(sender: Sender): seq<Binary> {
    match sender.refused case None => [] case Some(packet) => [packet]
  }

  /** The packets taken from the VM and the ticks, in order. */
  function Pulled(sender: Sender): seq<Binary> {
    sender.begun + Refusal(sender)
  }

  /** Those among `packets` that came from the VM. */
  function VmPackets(packets: seq<Binary>, origins: seq<Origin>): seq<Binary>
    requires |packets| == |origins|
  {
    if packets == [] then []
    else
      var last := |packets| - 1;
      VmPackets(packets[..last], origins[..last]) + if origins[last] == FromVm then [packets[last]] else []
  }

  const START: State :=
    State(Sender([], true, [], Waiting, [], [], [], None, 0, 0), [], [], [], Receiver(NEW, [], true, None, 0, 0))

  function Begin(sender: Sender, packet: Binary, draining: bool): Sender {
    sender.(mode := Writing(Frame(packet), |packet|, draining),
            begun := sender.begun + [packet],
            origins := sender.origins + [if draining then FromVm else FromTick])
  }

  /** `output_wait`: messages are taken in arrival order, since every one matches a clause. */
  function Handle(sender: Sender): Sender
    requires sender.mailbox != []
  {
    var rest := sender.(mailbox := sender.mailbox[1..]);
    match sender.mailbox[0]
    case DistData => rest.(mode := Draining)
    case DistTick => Begin(rest, [], false)
    case Close | ParentExit | InputExit => rest.(mode := Stopped)
    case OtherExit | Unknown => rest
  }

  /** `output_data`. */
  function PullNext(sender: Sender, sendMax: nat): Sender {
    if sender.queue == [] then sender.(armed := true, mode := Waiting)
    else
      var packet := sender.queue[0];
      var rest := sender.(queue := sender.queue[1..]);
      if |packet| <= sendMax then Begin(rest, packet, true)
      else rest.(mode := Stopped, refused := Some(packet))
  }

  function Receive(receiver: Receiver, data: Binary, recvMax: nat): Receiver
    requires Enterable(receiver.parser)
  {
    match Feed(receiver.parser, data, recvMax)
    case FrameTooLarge(n) => receiver.(running := false, oversize := Some(n))
    case Fed(packets, parser) =>
      Receiver(parser, receiver.delivered + packets, true, None,
               receiver.receivedBytes + Size(Flat(packets)), receiver.receivedFrames + |packets|)
  }

  ghost predicate SenderStep(limits: Limits, s: Sender, event: Event, s': Sender) {
    match event
    case Offer(packet) => s' == s.(queue := s.queue + [packet], offered := s.offered + [packet])
    case Notify => s.armed && s.queue != [] && s' == s.(armed := false, mailbox := s.mailbox + [DistData])
    case Post(message) => message != DistData && s' == s.(mailbox := s.mailbox + [message])
    case HandleMessage => s.mode.Waiting? && s.mailbox != [] && s' == Handle(s)
    case Pull => s.mode.Draining? && s' == PullNext(s, limits.sendMax)
    case WriteSome(k) =>
      && s.mode.Writing? && 1 <= k <= |s.mode.left|
      && s' == s.(mode := s.mode.(left := s.mode.left[k..]))
    case WriteDone =>
      && s.mode.Writing? && s.mode.left == []
      && s' == s.(mode := if s.mode.draining then Draining else Waiting,
                  sentBytes := s.sentBytes + s.mode.size, sentFrames := s.sentFrames + 1)
    case WriteFail => s.mode.Writing? && s' == s.(mode := Stopped)
    case Read(_) => s' == s
    case ReadEnd => s' == s
  }

  ghost predicate Next(limits: Limits, s: State, event: Event, s': State) {
    && SenderStep(limits, s.sender, event, s'.sender)
    && match event
       case WriteSome(k) =>
         var some := s.sender.mode.left[..k];
         s' == s.(sender := s'.sender, wire := s.wire + some, written := s.written + some)
       case Read(k) =>
         && s.receiver.running && Enterable(s.receiver.parser)
         && 1 <= k <= limits.receiveChunk && k <= |s.wire|
         && s' == s.(wire := s.wire[k..], read := s.read + s.wire[..k],
                     receiver := Receive(s.receiver, s.wire[..k], limits.recvMax))
       case ReadEnd => s' == s.(receiver := s.receiver.(running := false))
       case _ => s' == s.(sender := s'.sender)
  }

  ghost predicate IsRun(limits: Limits, run: seq<State>, events: seq<Event>) {
    && |run| == |events| + 1
    && run[0] == START
    && forall i | 0 <= i < |events| :: Next(limits, run[i], events[i], run[i + 1])
  }

  // ----- the invariant

  function Notices(mailbox: seq<Message>): nat {
    if mailbox == [] then 0 else Notices(mailbox[1..]) + if mailbox[0] == DistData then 1 else 0
  }

  /** The notification is in exactly one place while the loop waits, and nowhere while it
      drains the queue. */
  ghost predicate NotifiedOnce(s: Sender) {
    var pending := Notices(s.mailbox) + if s.armed then 1 else 0;
    match s.mode
    case Waiting => pending == 1
    case Draining => pending == 0
    case Writing(_, _, draining) => pending == if draining then 0 else 1
    case Stopped => pending <= 1
  }

  /** The bytes written are the frames begun, up to what the current write still holds. */
  ghost predicate Framed(s: Sender, written: Binary) {
    match s.mode
    case Writing(left, size, _) =>
      written + left == Frames(s.begun) && s.begun != [] && size == |s.begun[|s.begun| - 1]|
    case Stopped => written <= Frames(s.begun)
    case _ => written == Frames(s.begun)
  }

  ghost predicate Counted(s: Sender) {
    && s.sentFrames <= |s.begun| <= s.sentFrames + 1
    && (s.mode.Writing? ==> |s.begun| == s.sentFrames + 1)
    && (s.mode.Waiting? || s.mode.Draining? ==> |s.begun| == s.sentFrames)
    && s.sentBytes == Size(s.begun[..s.sentFrames])
  }

  /** Nothing the VM offered is skipped, repeated or reordered. */
  ghost predicate InOrder(s: Sender) {
    && |s.origins| == |s.begun|
    && (forall i | 0 <= i < |s.begun| :: s.origins[i] == FromTick ==> s.begun[i] == [])
    && VmPackets(s.begun, s.origins) + Refusal(s) + s.queue == s.offered
  }

  ghost predicate SenderInv(limits: Limits, s: Sender, written: Binary) {
    && Legal(s.begun, limits.sendMax)
    && (s.refused.Some? ==> s.mode.Stopped? && |s.refused.value| > limits.sendMax)
    && NotifiedOnce(s) && Framed(s, written) && Counted(s) && InOrder(s)
  }

  ghost predicate ReceiverInv(limits: Limits, r: Receiver, read: Binary) {
    && (r.running ==> r.oversize.None?)
    && (match r.oversize
        case None => Accounts(read, r.delivered, r.parser, limits.recvMax)
        case Some(n) =>
          Parse(read, limits.recvMax) == TooLarge(n) && Flat(r.delivered) <= BeforeOversize(read, limits.recvMax))
    && r.receivedFrames == |r.delivered| && r.receivedBytes == Size(Flat(r.delivered))
  }

  ghost predicate Inv(limits: Limits, s: State) {
    && SenderInv(limits, s.sender, s.written)
    && s.written == s.read + s.wire
    && ReceiverInv(limits, s.receiver, s.read)
  }

  lemma {:induction false} NoticesAppend(mailbox: seq<Message>, message: Message)
    ensures Notices(mailbox + [message]) == Notices(mailbox) + if message == DistData then 1 else 0
  {
    if mailbox == [] {
      assert mailbox + [message] == [message];
    } else {
      TailAppend(mailbox, [message]);
      NoticesAppend(mailbox[1..], message);
    }
  }

  lemma FramesAppend(begun: seq<Binary>, packet: Binary)
    ensures Frames(begun + [packet]) == Frames(begun) + Frame(packet)
  {
    FramesSplit(begun, [packet]);
    assert Frames([packet]) == Frame(packet);
  }

  lemma BeginKeeps(limits: Limits, s: Sender, packet: Binary, draining: bool, written: Binary)
    requires Legal(s.begun, limits.sendMax) && |packet| <= limits.sendMax
    requires s.refused.None? && written == Frames(s.begun)
    requires |s.begun| == s.sentFrames && s.sentBytes == Size(s.begun[..s.sentFrames])
    requires Notices(s.mailbox) + (if s.armed then 1 else 0) == if draining then 0 else 1
    requires |s.origins| == |s.begun|
    requires forall i | 0 <= i < |s.begun| :: s.origins[i] == FromTick ==> s.begun[i] == []
    requires !draining ==> packet == []
    requires VmPackets(s.begun, s.origins) + (if draining then [packet] else []) + s.queue == s.offered
    ensures SenderInv(limits, Begin(s, packet, draining), written)
  {
    FramesAppend(s.begun, packet);
    var s' := Begin(s, packet, draining);
    assert s'.begun[..|s.begun|] == s.begun && s'.origins[..|s.begun|] == s.origins;
    var before := VmPackets(s.begun, s.origins);
    assert VmPackets(s'.begun, s'.origins) == before + if draining then [packet] else [];
    assert VmPackets(s'.begun, s'.origins) + [] == VmPackets(s'.begun, s'.origins);
    assert (s.begun + [packet])[..s.sentFrames] == s.begun[..s.sentFrames];
  }

  lemma WriteDoneKeeps(limits: Limits, s: Sender, written: Binary)
    requires SenderInv(limits, s, written) && s.mode.Writing? && s.mode.left == []
    ensures var s' := s.(mode := if s.mode.draining then Draining else Waiting,
                         sentBytes := s.sentBytes + s.mode.size, sentFrames := s.sentFrames + 1);
            SenderInv(limits, s', written)
  {
    hide Frame, Frames, VmPackets;
    var n := s.sentFrames;
    assert written + [] == written;
    assert s.begun[..n + 1] == s.begun[..n] + [s.begun[n]];
    SizeSplit(s.begun[..n], [s.begun[n]]);
    assert Size([s.begun[n]]) == |s.begun[n]|;
  }

  lemma HandleKeeps(limits: Limits, s: Sender, written: Binary)
    requires SenderInv(limits, s, written) && s.mode.Waiting? && s.mailbox != []
    ensures SenderInv(limits, Handle(s), written)
  {
    hide Frames, Frame, VmPackets, Size;
    var rest := s.mailbox[1..];
    match s.mailbox[0]
    case DistTick => TickKeeps(limits, s, rest, written);
    case DistData => MoveKeeps(limits, s, rest, Draining, written);
    case Close | ParentExit | InputExit => MoveKeeps(limits, s, rest, Stopped, written);
    case OtherExit | Unknown => MoveKeeps(limits, s, rest, Waiting, written);
  }

  /** Taking a message without writing changes only where the loop is. */
  lemma MoveKeeps(limits: Limits, s: Sender, mailbox: seq<Message>, mode: Mode, written: Binary)
    requires SenderInv(limits, s, written) && s.mode.Waiting? && !mode.Writing?
    requires NotifiedOnce(s.(mailbox := mailbox, mode := mode))
    ensures SenderInv(limits, s.(mailbox := mailbox, mode := mode), written)
  {
  }

  lemma TickKeeps(limits: Limits, s: Sender, mailbox: seq<Message>, written: Binary)
    requires SenderInv(limits, s, written) && s.mode.Waiting? && Notices(mailbox) == Notices(s.mailbox)
    ensures SenderInv(limits, Begin(s.(mailbox := mailbox), [], false), written)
  {
    assert Refusal(s) == [];
    BeginKeeps(limits, s.(mailbox := mailbox), [], false, written);
  }

  lemma PullKeeps(limits: Limits, s: Sender, written: Binary)
    requires SenderInv(limits, s, written) && s.mode.Draining?
    ensures SenderInv(limits, PullNext(s, limits.sendMax), written)
  {
    if s.queue != [] {
      var vm := VmPackets(s.begun, s.origins);
      assert vm + [] == vm;
      assert vm + [s.queue[0]] + s.queue[1..] == vm + s.queue;
      if |s.queue[0]| <= limits.sendMax {
        BeginKeeps(limits, s.(queue := s.queue[1..]), s.queue[0], true, written);
      }
    }
  }

  lemma OfferKeeps(limits: Limits, s: Sender, packet: Binary, written: Binary)
    requires SenderInv(limits, s, written)
    ensures SenderInv(limits, s.(queue := s.queue + [packet], offered := s.offered + [packet]), written)
  {
    Assoc(VmPackets(s.begun, s.origins) + Refusal(s), s.queue, [packet]);
  }

  lemma WriteSomeKeeps(limits: Limits, s: Sender, k: nat, written: Binary)
    requires SenderInv(limits, s, written) && s.mode.Writing? && k <= |s.mode.left|
    ensures SenderInv(limits, s.(mode := s.mode.(left := s.mode.left[k..])), written + s.mode.left[..k])
  {
    var left := s.mode.left;
    assert left[..k] + left[k..] == left;
    Assoc(written, left[..k], left[k..]);
  }

  /** Every step of the sender keeps its part of the invariant. */
  lemma SenderPreserved(limits: Limits, s: Sender, event: Event, s': Sender, written: Binary, written': Binary)
    requires SenderInv(limits, s, written) && SenderStep(limits, s, event, s')
    requires written' == if event.WriteSome? then written + s.mode.left[..event.k] else written
    ensures SenderInv(limits, s', written')
  {
    match event
    case Offer(packet) => OfferKeeps(limits, s, packet, written);
    case Notify => NoticesAppend(s.mailbox, DistData);
    case Post(message) => NoticesAppend(s.mailbox, message);
    case HandleMessage => HandleKeeps(limits, s, written);
    case Pull => PullKeeps(limits, s, written);
    case WriteSome(k) => WriteSomeKeeps(limits, s, k, written);
    case WriteDone => WriteDoneKeeps(limits, s, written);
    case WriteFail =>
    case _ =>
  }

  /** What has been written is a prefix of the frames begun. */
  lemma WrittenIsPrefix(s: Sender, written: Binary)
    requires Framed(s, written)
    ensures written <= Frames(s.begun)
  {
  }

  /** One read, of whatever size. */
  lemma ReadPreserved(limits: Limits, r: Receiver, read: Binary, data: Binary)
    requires ReceiverInv(limits, r, read) && r.running && Enterable(r.parser)
    ensures ReceiverInv(limits, Receive(r, data, limits.recvMax), read + data)
  {
    hide Feed, Parse, BeforeOversize;
    match Feed(r.parser, data, limits.recvMax)
    case FrameTooLarge(n) =>
      ReadOversize(read, data, [], r.delivered, r.parser, limits.recvMax, n);
      assert data + [] == data;
    case Fed(packets, parser) =>
      ReadFed(read, data, r.delivered, r.parser, limits.recvMax, packets, parser);
      FlatSplit(r.delivered, packets);
      SizeSplit(Flat(r.delivered), Flat(packets));
  }

  lemma ReadKeepsBytes(read: Binary, wire: Binary, k: nat)
    requires k <= |wire|
    ensures read + wire == read + wire[..k] + wire[k..]
  {
    assert wire == wire[..k] + wire[k..];
  }

  lemma Preserved(limits: Limits, s: State, event: Event, s': State)
    requires Inv(limits, s) && Next(limits, s, event, s')
    ensures Inv(limits, s')
  {
    hide SenderInv, ReceiverInv, Receive;
    SenderPreserved(limits, s.sender, event, s'.sender, s.written, s'.written);
    match event
    case WriteSome(k) => Assoc(s.read, s.wire, s.sender.mode.left[..k]);
    case Read(k) =>
      ReadPreserved(limits, s.receiver, s.read, s.wire[..k]);
      ReadKeepsBytes(s.read, s.wire, k);
      ReadLeavesSender(limits, s.sender, k, s'.sender);
    case ReadEnd => EndPreserved(limits, s.receiver, s.read);
    case _ =>
  }

  lemma ReadLeavesSender(limits: Limits, s: Sender, k: nat, s': Sender)
    requires SenderStep(limits, s, Read(k), s')
    ensures s' == s
  {
  }

  lemma EndPreserved(limits: Limits, r: Receiver, read: Binary)
    requires ReceiverInv(limits, r, read)
    ensures ReceiverInv(limits, r.(running := false), read)
  {
  }

  lemma StartInv(limits: Limits)
    ensures Inv(limits, START)
  {
    assert Flat([]) == [] && [] + START.wire == START.written;
  }

  lemma StepAt(limits: Limits, run: seq<State>, events: seq<Event>, i: nat)
    requires IsRun(limits, run, events) && i < |events|
    ensures Next(limits, run[i], events[i], run[i + 1])
  {
  }

  lemma {:induction false} EveryState(limits: Limits, run: seq<State>, events: seq<Event>, i: nat)
    requires IsRun(limits, run, events) && i < |run|
    ensures Inv(limits, run[i])
    decreases i
  {
    hide Next, Inv;
    if i == 0 {
      StartInv(limits);
    } else {
      EveryState(limits, run, events, i - 1);
      StepAt(limits, run, events, i - 1);
      Preserved(limits, run[i - 1], events[i - 1], run[i]);
    }
  }

  // ----- the promises

  /** The length of every packet a sender may send fits the field; the configuration allows
      no frame above 64 MiB. */
  ghost predicate Fields(limits: Limits) {
    limits.sendMax < Pow256(4)
  }

  lemma BegunFits(limits: Limits, s: Sender, written: Binary)
    requires SenderInv(limits, s, written) && Fields(limits)
    ensures (forall p <- s.begun :: |p| < Pow256(4)) && written <= Frames(s.begun)
  {
    WrittenIsPrefix(s, written);
  }

  /** What the receiver has made of what it read, in terms of the packets begun. */
  lemma ReadIsBeginning(limits: Limits, s: State)
    requires Inv(limits, s) && Fields(limits)
    ensures BeginningParses(s.read, s.sender.begun, limits.recvMax)
    ensures s.read <= s.written <= Frames(s.sender.begun)
  {
    BegunFits(limits, s.sender, s.written);
    ParsePrefix(s.read, s.sender.begun, limits.recvMax);
  }

  /** At every moment of every run, whatever the limits and the cutting and wherever a write
      failed: the packets delivered are a prefix of those pulled, within the receiver's limit;
      the bytes put on the wire are a prefix of the frames of those packets, and none is lost
      on it. */
  lemma DeliveredIsPrefixOfPulled(limits: Limits, run: seq<State>, events: seq<Event>, i: nat)
    requires Fields(limits) && IsRun(limits, run, events) && i < |run|
    ensures var legal := LegalPrefix(run[i].sender.begun, limits.recvMax);
            Flat(run[i].receiver.delivered) <= legal <= run[i].sender.begun <= Pulled(run[i].sender)
    ensures run[i].written <= Frames(run[i].sender.begun)
    ensures run[i].read + run[i].wire == run[i].written
  {
    hide Parse, Frames, SenderInv, BeforeOversize;
    EveryState(limits, run, events, i);
    ReadIsBeginning(limits, run[i]);
  }

  /** The receiver stops on a frame only when a packet over its limit was begun: the first
      such packet, and with its length. So it never does while the limits match. */
  lemma StopsOnlyOnOversize(limits: Limits, run: seq<State>, events: seq<Event>, i: nat)
    requires Fields(limits) && IsRun(limits, run, events) && i < |run|
    ensures match run[i].receiver.oversize
            case None => true
            case Some(n) =>
              var begun := run[i].sender.begun;
              var first := |LegalPrefix(begun, limits.recvMax)|;
              first < |begun| && n == |begun[first]| && limits.recvMax < n <= limits.sendMax
  {
    hide Parse, Frames, BeforeOversize;
    EveryState(limits, run, events, i);
    ReadIsBeginning(limits, run[i]);
  }

  /** And what is pulled is what the VM offers, in order and without gaps, with ticks in
      between. */
  lemma PulledInOfferedOrder(limits: Limits, run: seq<State>, events: seq<Event>, i: nat)
    requires IsRun(limits, run, events) && i < |run|
    ensures var s := run[i].sender;
            && |s.origins| == |s.begun|
            && VmPackets(s.begun, s.origins) + Refusal(s) + s.queue == s.offered
            && (forall k | 0 <= k < |s.begun| :: s.origins[k] == FromTick ==> s.begun[k] == [])
  {
    EveryState(limits, run, events, i);
  }

  /** Once the frames begun are all written and read, everything begun has been delivered
      exactly when every packet is within the receiver's limit, exactly when the receiver has
      not stopped on one; then nothing is left in the parser. */
  lemma AllBytesAllPackets(limits: Limits, run: seq<State>, events: seq<Event>, i: nat)
    requires Fields(limits) && IsRun(limits, run, events) && i < |run| && run[i].wire == []
    requires var s := run[i].sender; s.mode.Waiting? || s.mode.Draining? || run[i].written == Frames(s.begun)
    ensures Flat(run[i].receiver.delivered) == run[i].sender.begun <==> Legal(run[i].sender.begun, limits.recvMax)
    ensures run[i].receiver.oversize.None? <==> Legal(run[i].sender.begun, limits.recvMax)
    ensures run[i].receiver.oversize.None? ==> run[i].receiver.parser == NEW
    ensures !run[i].sender.mode.Stopped? ==> Pulled(run[i].sender) == run[i].sender.begun
  {
    hide Parse, Frames, BeforeOversize;
    EveryState(limits, run, events, i);
    var s := run[i];
    ReadIsBeginning(limits, s);
    assert s.read + [] == s.read;
    LegalIffWhole(s.sender.begun, limits.recvMax);
    if s.receiver.oversize.None? {
      AtRest(s.receiver.parser, limits.recvMax);
    }
  }

  lemma LegalIffWhole(packets: seq<Binary>, maxFrame: nat)
    ensures Legal(packets, maxFrame) <==> LegalPrefix(packets, maxFrame) == packets
  {
    var legal := LegalPrefix(packets, maxFrame);
    assert |legal| < |packets| ==> packets[|legal|] in packets;
  }

  lemma AtRest(parser: Parser, maxFrame: nat)
    requires Resting(parser, maxFrame)
    ensures Held(parser) == [] ==> parser == NEW
  {
    if Held(parser) == [] {
      EquivalentIffSameBytes(parser, NEW, maxFrame);
    }
  }

  /** The counters of the two ends: the receiver's are the size of what it delivered, and
      it can be ahead of the sender's by at most the frame whose write was not confirmed. */
  lemma CountersAgree(limits: Limits, run: seq<State>, events: seq<Event>, i: nat)
    requires Fields(limits) && IsRun(limits, run, events) && i < |run|
    ensures var s := run[i];
            && s.receiver.receivedFrames <= s.sender.sentFrames + 1
            && s.receiver.receivedBytes == Size(Flat(s.receiver.delivered))
            && s.sender.sentFrames <= |s.sender.begun|
            && s.sender.sentBytes == Size(s.sender.begun[..s.sender.sentFrames])
            && (s.wire == [] && (s.sender.mode.Waiting? || s.sender.mode.Draining?) && s.receiver.oversize.None? ==>
                  && s.receiver.receivedFrames == s.sender.sentFrames
                  && s.receiver.receivedBytes == s.sender.sentBytes)
  {
    hide Parse, Frames, BeforeOversize;
    EveryState(limits, run, events, i);
    DeliveredIsPrefixOfPulled(limits, run, events, i);
    var s := run[i];
    if s.wire == [] && (s.sender.mode.Waiting? || s.sender.mode.Draining?) {
      AllBytesAllPackets(limits, run, events, i);
      assert s.sender.begun[..s.sender.sentFrames] == s.sender.begun;
    }
  }

  /** No wake-up is lost: a loop waiting while the VM has data still has its notification
      coming, and it never has two. */
  lemma NoLostWakeup(limits: Limits, run: seq<State>, events: seq<Event>, i: nat)
    requires IsRun(limits, run, events) && i < |run|
    ensures var s := run[i].sender;
            && (s.mode.Waiting? && s.queue != [] ==> s.armed != (DistData in s.mailbox))
            && Notices(s.mailbox) + (if s.armed then 1 else 0) <= 1
  {
    EveryState(limits, run, events, i);
    NoticesIffPresent(run[i].sender.mailbox);
  }

  lemma {:induction false} NoticesIffPresent(mailbox: seq<Message>)
    ensures Notices(mailbox) > 0 <==> DistData in mailbox
  {
    if mailbox != [] {
      NoticesIffPresent(mailbox[1..]);
      assert mailbox == [mailbox[0]] + mailbox[1..];
    }
  }

  /** A stopped sender - by a failed write, an oversize packet or a request to close - stays
      stopped and begins and writes nothing more. */
  lemma {:induction false} StoppedForGood(limits: Limits, run: seq<State>, events: seq<Event>, i: nat, j: nat)
    requires IsRun(limits, run, events) && i <= j < |run| && run[i].sender.mode.Stopped?
    ensures run[j].sender.mode.Stopped? && run[j].written == run[i].written
    ensures run[j].sender.begun == run[i].sender.begun
    decreases j - i
  {
    if i < j {
      StoppedForGood(limits, run, events, i, j - 1);
      StepAt(limits, run, events, j - 1);
    }
  }

  // ----- what the output loop does with its messages

  /** The messages that reached the loop's mailbox in the first `i` events. */
  ghost function Posted(events: seq<Event>, i: nat): seq<Message>
    requires i <= |events|
  {
    if i == 0 then []
    else Posted(events, i - 1) + PostedBy(events[i - 1])
  }

  /** The messages the loop took out of it. */
  ghost function Taken(run: seq<State>, events: seq<Event>, i: nat): seq<Message>
    requires i <= |events| && |run| == |events| + 1
  {
    if i == 0 then []
    else Taken(run, events, i - 1) + TakenBy(run[i - 1], events[i - 1])
  }

  lemma StepMessages(limits: Limits, s: State, event: Event, s': State)
    requires Next(limits, s, event, s')
    ensures event.HandleMessage? ==>
              s.sender.mailbox != [] && s'.sender.mailbox == s.sender.mailbox[1..]
    ensures !event.HandleMessage? ==>
              s'.sender.mailbox == s.sender.mailbox + match event
                                                      case Notify => [DistData]
                                                      case Post(message) => [message]
                                                      case _ => []
  {
    hide Frame, Receive;
  }

  /** The message an event takes, if any. */
  ghost function TakenBy(s: State, event: Event): seq<Message> {
    if event.HandleMessage? then s.sender.mailbox[..Min(1, |s.sender.mailbox|)] else []
  }

  ghost function PostedBy(event: Event): seq<Message> {
    match event case Notify => [DistData] case Post(message) => [message] case _ => []
  }

  lemma MailboxMoves(limits: Limits, s: State, event: Event, s': State)
    requires Next(limits, s, event, s')
    ensures TakenBy(s, event) + s'.sender.mailbox == s.sender.mailbox + PostedBy(event)
  {
    hide Next;
    StepMessages(limits, s, event, s');
    var mailbox := s.sender.mailbox;
    if event.HandleMessage? {
      assert mailbox[..1] + mailbox[1..] == mailbox;
    }
  }

  lemma Requeued(taken: seq<Message>, now: seq<Message>, after: seq<Message>, before: seq<Message>,
                 posted: seq<Message>)
    requires now + after == before + posted
    ensures taken + now + after == taken + before + posted
  {
    Assoc(taken, now, after);
    Assoc(taken, before, posted);
  }

  /** Messages are taken in the order they came, each once. */
  lemma {:induction false} MessagesInOrder(limits: Limits, run: seq<State>, events: seq<Event>, i: nat)
    requires IsRun(limits, run, events) && i < |run|
    ensures Taken(run, events, i) + run[i].sender.mailbox == Posted(events, i)
    decreases i
  {
    if i > 0 {
      hide Next, TakenBy, PostedBy;
      MessagesInOrder(limits, run, events, i - 1);
      StepAt(limits, run, events, i - 1);
      var s, event, s' := run[i - 1], events[i - 1], run[i];
      MailboxMoves(limits, s, event, s');
      Requeued(Taken(run, events, i - 1), TakenBy(s, event), s'.sender.mailbox, s.sender.mailbox, PostedBy(event));
    }
  }

  function TicksAmong(messages: seq<Message>): nat {
    if messages == [] then 0
    else TicksAmong(messages[..|messages| - 1]) + if messages[|messages| - 1] == DistTick then 1 else 0
  }

  function TicksSent(origins: seq<Origin>): nat {
    if origins == [] then 0
    else TicksSent(origins[..|origins| - 1]) + if origins[|origins| - 1] == FromTick then 1 else 0
  }

  lemma LastTick(messages: seq<Message>, message: Message, origins: seq<Origin>, origin: Origin)
    ensures TicksAmong(messages + [message]) == TicksAmong(messages) + if message == DistTick then 1 else 0
    ensures TicksSent(origins + [origin]) == TicksSent(origins) + if origin == FromTick then 1 else 0
  {
    assert (messages + [message])[..|messages|] == messages;
    assert (origins + [origin])[..|origins|] == origins;
  }

  lemma StepOrigins(limits: Limits, s: State, event: Event, s': State)
    requires Next(limits, s, event, s')
    ensures if event.HandleMessage? && s.sender.mailbox != [] && s.sender.mailbox[0] == DistTick
            then s'.sender.origins == s.sender.origins + [FromTick]
            else s'.sender.origins == s.sender.origins || s'.sender.origins == s.sender.origins + [FromVm]
  {
    hide Frame, Receive;
  }

  lemma TickStep(limits: Limits, s: State, event: Event, s': State, taken: seq<Message>)
    requires Next(limits, s, event, s')
    ensures TicksSent(s'.sender.origins) + TicksAmong(taken)
            == TicksSent(s.sender.origins) + TicksAmong(taken + TakenBy(s, event))
  {
    hide Next, TicksAmong, TicksSent;
    StepMessages(limits, s, event, s');
    StepOrigins(limits, s, event, s');
    if event.HandleMessage? {
      var m := s.sender.mailbox[0];
      assert s.sender.mailbox[..1] == [m];
      LastTick(taken, m, s.sender.origins, if m == DistTick then FromTick else FromVm);
    } else {
      assert taken + [] == taken;
      LastTick(taken, DistTick, s.sender.origins, FromVm);
    }
  }

  lemma NoTicksAtStart(limits: Limits, run: seq<State>, events: seq<Event>)
    requires IsRun(limits, run, events)
    ensures TicksSent(run[0].sender.origins) == TicksAmong(Taken(run, events, 0)) == 0
  {
  }

  /** Every tick the loop took was sent on, as an empty packet, and no other was. */
  lemma {:induction false} TicksAreSent(limits: Limits, run: seq<State>, events: seq<Event>, i: nat)
    requires IsRun(limits, run, events) && i < |run|
    ensures TicksSent(run[i].sender.origins) == TicksAmong(Taken(run, events, i))
    decreases i
  {
    hide IsRun, Next, TakenBy, TicksAmong, TicksSent;
    RunEnd(limits, run, events);
    if i == 0 {
      NoTicksAtStart(limits, run, events);
    } else {
      TicksAreSent(limits, run, events, i - 1);
      StepAt(limits, run, events, i - 1);
      TickStep(limits, run[i - 1], events[i - 1], run[i], Taken(run, events, i - 1));
    }
  }

  /** What stops the output loop. */
  ghost predicate Stops(limits: Limits, s: Sender, event: Event) {
    || event.WriteFail?
    || (event.HandleMessage? && s.mailbox != []
        && (s.mailbox[0] == Close || s.mailbox[0] == ParentExit || s.mailbox[0] == InputExit))
    || (event.Pull? && s.queue != [] && |s.queue[0]| > limits.sendMax)
  }

  lemma StepStops(limits: Limits, s: State, event: Event, s': State)
    requires Next(limits, s, event, s')
    ensures s'.sender.mode.Stopped? <==> s.sender.mode.Stopped? || Stops(limits, s.sender, event)
  {
    hide Frame, Receive;
  }

  /** The loop has stopped exactly when a write failed, it took a message to close or that
      its parent or its input had gone, or the VM gave it a packet over its limit. */
  lemma {:induction false} StoppedIff(limits: Limits, run: seq<State>, events: seq<Event>, i: nat)
    requires IsRun(limits, run, events) && i < |run|
    ensures run[i].sender.mode.Stopped? <==> exists k :: 0 <= k < i && Stops(limits, run[k].sender, events[k])
    decreases i
  {
    hide Stops;
    if i > 0 {
      hide Next;
      StoppedIff(limits, run, events, i - 1);
      StepAt(limits, run, events, i - 1);
      StepStops(limits, run[i - 1], events[i - 1], run[i]);
    }
  }

  // ----- limits that do not match

  lemma Then(limits: Limits, run: seq<State>, events: seq<Event>, event: Event, next: State)
    returns (run': seq<State>, events': seq<Event>)
    requires IsRun(limits, run, events) && Next(limits, run[|events|], event, next)
    ensures IsRun(limits, run', events') && run'[|events'|] == next
  {
    hide Next;
    run', events' := run + [next], events + [event];
    forall i | 0 <= i < |events'|
      ensures Next(limits, run'[i], events'[i], run'[i + 1])
    {
      if i < |events| {
        StepAt(limits, run, events, i);
      }
    }
  }

  /** A running receiver can read on, a byte at a time, until it stops or has read all. */
  lemma {:induction false} ReadOn(limits: Limits, run: seq<State>, events: seq<Event>)
    returns (run': seq<State>, events': seq<Event>)
    requires IsRun(limits, run, events) && limits.receiveChunk > 0 && run[|events|].receiver.running
    ensures IsRun(limits, run', events')
    ensures var s, s' := run[|events|], run'[|events'|];
            && s'.sender == s.sender && s'.written == s.written
            && (s'.wire == [] || s'.receiver.oversize.Some?)
    decreases |run[|events|].wire|
  {
    hide IsRun, Next, Receive;
    run', events' := run, events;
    RunEnd(limits, run, events);
    if run[|events|].wire != [] {
      EveryState(limits, run, events, |events|);
      var s' := ReadByte(limits, run[|events|]);
      run', events' := Then(limits, run, events, Read(1), s');
      RunEnd(limits, run', events');
      if s'.receiver.running {
        run', events' := ReadOn(limits, run', events');
      }
    }
  }

  lemma ReadByte(limits: Limits, s: State) returns (s': State)
    requires Inv(limits, s) && limits.receiveChunk > 0 && s.receiver.running && s.wire != []
    ensures Next(limits, s, Read(1), s')
    ensures s'.sender == s.sender && s'.written == s.written && |s'.wire| < |s.wire|
    ensures s'.receiver.running || s'.receiver.oversize.Some?
  {
    hide Feed, Parse;
    var r := Receive(s.receiver, s.wire[..1], limits.recvMax);
    s' := s.(wire := s.wire[1..], read := s.read + s.wire[..1], receiver := r);
  }

  /** The sender takes one packet from the VM and puts its whole frame on the wire. */
  lemma OnePacketSent(limits: Limits, packet: Binary) returns (run: seq<State>, events: seq<Event>)
    requires |packet| <= limits.sendMax
    ensures IsRun(limits, run, events)
    ensures var s := run[|events|];
            s.sender.begun == [packet] && s.written == Frame(packet) && s.receiver.running
  {
    hide Frame;
    var s := START;
    run, events := [s], [];
    s := s.(sender := s.sender.(queue := [] + [packet], offered := [] + [packet]));
    run, events := Then(limits, run, events, Offer(packet), s);
    s := s.(sender := s.sender.(armed := false, mailbox := [] + [DistData]));
    run, events := Then(limits, run, events, Notify, s);
    s := s.(sender := Handle(s.sender));
    run, events := Then(limits, run, events, HandleMessage, s);
    s := s.(sender := PullNext(s.sender, limits.sendMax));
    run, events := Then(limits, run, events, Pull, s);
    var frame := Frame(packet);
    assert frame[..|frame|] == frame && [] + frame == frame;
    s := s.(sender := s.sender.(mode := s.sender.mode.(left := frame[|frame|..])),
            wire := [] + frame[..|frame|], written := [] + frame[..|frame|]);
    run, events := Then(limits, run, events, WriteSome(|frame|), s);
  }

  /** Matching limits are exactly what a link needs: when the receiver's is smaller, any
      packet between the two stops it in some run, before anything is delivered. */
  lemma MismatchedLimitsStop(limits: Limits, packet: Binary) returns (run: seq<State>, events: seq<Event>)
    requires Fields(limits) && limits.receiveChunk > 0 && limits.recvMax < |packet| <= limits.sendMax
    ensures IsRun(limits, run, events)
    ensures var s := run[|events|];
            s.sender.begun == [packet] && s.receiver.oversize == Some(|packet|) && s.receiver.delivered == []
  {
    hide IsRun, Frame, Frames;
    run, events := OnePacketSent(limits, packet);
    run, events := ReadOn(limits, run, events);
    OnePacketFramed(packet);
    RunEnd(limits, run, events);
    var s := run[|events|];
    assert s.sender.begun[0] == packet;
    if s.wire == [] {
      AllBytesAllPackets(limits, run, events, |events|);
    }
    StopsOnlyOnOversize(limits, run, events, |events|);
    DeliveredIsPrefixOfPulled(limits, run, events, |events|);
    assert LegalPrefix([packet], limits.recvMax) == [];
  }

  lemma RunEnd(limits: Limits, run: seq<State>, events: seq<Event>)
    requires IsRun(limits, run, events)
    ensures |run| == |events| + 1
  {
  }

  lemma OnePacketFramed(packet: Binary)
    ensures Frames([packet]) == Frame(packet)
  {
    assert Frame(packet) + [] == Frame(packet);
  }

  // ----- what a pull takes

  /** While the VM has packets ready, each pull takes the next one and begins its frame, or
      stops the loop on it when it is over the limit; only with nothing ready does the loop
      ask for a notification and go back to waiting. */
  lemma PullTakesNext(limits: Limits, run: seq<State>, events: seq<Event>, i: nat)
    requires IsRun(limits, run, events) && i < |events| && events[i].Pull?
    ensures var s, s' := run[i].sender, run[i + 1].sender;
            if s.queue == [] then Pulled(s') == Pulled(s) && s'.mode.Waiting? && s'.armed
            else
              && Pulled(s') == Pulled(s) + [s.queue[0]]
              && (if |s.queue[0]| <= limits.sendMax then s'.mode == Writing(Frame(s.queue[0]), |s.queue[0]|, true)
                  else s'.mode.Stopped?)
  {
    hide Frame, Frames, VmPackets;
    EveryState(limits, run, events, i);
    StepAt(limits, run, events, i);
    assert run[i].sender.refused.None?;
  }
}
