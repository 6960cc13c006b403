/** The name-binding preface and its one-byte acknowledgement: `src/iroh_dist_preface.erl`. */
module Preface {
  import opened Bytes
  import opened Options
  import opened Transport
  import opened PeerTable

  /** `IROHDIST1` */
  const MAGIC: Binary := [73, 82, 79, 72, 68, 73, 83, 84, 49]
  const MAX_NAME: nat := 255
  const HEADER_SIZE: nat := |MAGIC| + 4

  /** `max_bytes` of the sends made here. */
  const MAX_SEND: nat := 1024

  datatype Error = InvalidNodeName | Unauthorized | MalformedPreface | IdentityNameMismatch | Io(reason: Reason)

  function Frame(local: Node, remote: Node): Binary {
    MAGIC + Encode(|local|, 2) + Encode(|remote|, 2) + local + remote
  }

  datatype Dialled =
    | DialOk(written: Binary, rest: Input)
    | DialError(written: Binary, error: Error)

  /** The dialler. `sending` is how its one send turns out, `replies` what it can read. */
  function Outgoing(local: Node, remote: Node, sending: SendOutcome, replies: Input): Dialled {
    if |local| <= MAX_NAME && |remote| <= MAX_NAME then
      var written := Written(Frame(local, remote), sending);
      match sending
      case Broken(reason, _) => DialError(written, Io(reason))
      case Sent =>
        match RecvExact(replies, 1, [])
        case Short(reason) => DialError(written, Io(reason))
        case Exactly(ack, rest) => if ack == [1] then DialOk(written, rest) else DialError(written, Unauthorized)
    else
      DialError([], InvalidNodeName)
  }

  datatype Accepted =
    | AcceptOk(claimed: Node, written: Binary, rest: Input)
    | AcceptError(written: Binary, error: Error)

  /** The accepting side, for a connection authenticated as `remoteId`. */
  function Incoming(config: Config, remoteId: Id, input: Input, sending: SendOutcome): Accepted {
    match RecvExact(input, HEADER_SIZE, [])
    case Short(reason) => AcceptError([], Io(reason))
    case Exactly(header, afterHeader) =>
      var remoteSize, targetSize := Decode(header[|MAGIC|..|MAGIC| + 2]), Decode(header[|MAGIC| + 2..]);
      if header[..|MAGIC|] == MAGIC && remoteSize <= MAX_NAME && targetSize <= MAX_NAME then
        IncomingNames(config, remoteId, afterHeader, remoteSize, targetSize, sending)
      else
        AcceptError([], MalformedPreface)
  }

  function IncomingNames(config: Config, remoteId: Id, input: Input, remoteSize: nat, targetSize: nat,
                         sending: SendOutcome): Accepted
  {
    match RecvExact(input, remoteSize + targetSize, [])
    case Short(reason) => AcceptError([], Io(reason))
    case Exactly(names, rest) => Decide(config, remoteId, names, remoteSize, sending, rest)
  }

  /** Both names are in: authorize the claim and acknowledge it. */
  function Decide(config: Config, remoteId: Id, names: Binary, remoteSize: nat,
                  sending: SendOutcome, rest: Input): Accepted
    requires remoteSize <= |names|
  {
    match AuthorizeClaim(config, names[..remoteSize], remoteId, names[remoteSize..])
    case None => AcceptError([], IdentityNameMismatch)
    case Some(node) =>
      match sending
      case Broken(reason, _) => AcceptError(Written([1], sending), Io(reason))
      case Sent => AcceptOk(node, [1], rest)
  }

  // ----- what each side accepts

  ghost predicate Nameable(name: Binary) { |name| <= MAX_NAME }

  /** The frame fits the bound on its send. */
  lemma FrameWithinSendLimit(local: Node, remote: Node)
    requires Nameable(local) && Nameable(remote)
    ensures 0 < |Frame(local, remote)| <= MAX_SEND
  {
  }

  /** A frame: the nine bytes of `IROHDIST1`, the two sizes in two bytes each, most
      significant first, and the two names. */
  lemma FrameBytes(local: Node, remote: Node)
    requires Nameable(local) && Nameable(remote)
    ensures Frame(local, remote) ==
            [73, 82, 79, 72, 68, 73, 83, 84, 49, 0, |local| as Byte, 0, |remote| as Byte] + local + remote
  {
    Field2(|local|);
    Field2(|remote|);
    assert MAGIC + Encode(|local|, 2) + Encode(|remote|, 2)
           == [73, 82, 79, 72, 68, 73, 83, 84, 49, 0, |local| as Byte, 0, |remote| as Byte];
  }

  /** What the dialler comes to, in every case: names too long, a send that breaks off, no
      reply, and any reply. */
  lemma DialsExactlyWhen(local: Node, remote: Node, sending: SendOutcome, replies: Input)
    ensures var r := Outgoing(local, remote, sending, replies);
            && (r.DialOk? <==> Nameable(local) && Nameable(remote) && sending.Sent?
                               && replies.bytes != [] && replies.bytes[0] == 1)
            && (!(Nameable(local) && Nameable(remote)) ==> r == DialError([], InvalidNodeName))
            && (Nameable(local) && Nameable(remote) ==>
                  && r.written <= Frame(local, remote) && (sending.Sent? ==> r.written == Frame(local, remote))
                  && (sending.Broken? ==> r.DialError? && r.error == Io(sending.reason))
                  && (sending.Sent? && replies.bytes == [] ==>
                        r.DialError? && r.error == Io(EndingError(replies.ending)))
                  && (sending.Sent? && replies.bytes != [] && replies.bytes[0] != 1 ==>
                        r.DialError? && r.error == Unauthorized))
  {
    hide RecvExact, Frame;
    RecvExactTakesPrefix(replies, 1);
    if replies.bytes != [] {
      assert replies.bytes[..1] == [replies.bytes[0]];
    }
  }

  ghost function RemoteSize(b: Binary): nat
    requires |b| >= HEADER_SIZE
  {
    Decode(b[|MAGIC|..|MAGIC| + 2])
  }

  ghost function TargetSize(b: Binary): nat
    requires |b| >= HEADER_SIZE
  {
    Decode(b[|MAGIC| + 2..HEADER_SIZE])
  }

  ghost predicate GoodHeader(b: Binary) {
    |b| >= HEADER_SIZE && b[..|MAGIC|] == MAGIC && RemoteSize(b) <= MAX_NAME && TargetSize(b) <= MAX_NAME
  }

  ghost predicate NamesArrived(b: Binary) {
    GoodHeader(b) && |b| >= HEADER_SIZE + RemoteSize(b) + TargetSize(b)
  }

  ghost function Names(b: Binary): Binary
    requires NamesArrived(b)
  {
    b[HEADER_SIZE..HEADER_SIZE + RemoteSize(b) + TargetSize(b)]
  }

  /** The fields of a frame, as the acceptor cuts them. */
  lemma FrameFields(name: Binary, target: Binary, later: Binary)
    requires Nameable(name) && Nameable(target)
    ensures var b := Frame(name, target) + later;
            && NamesArrived(b)
            && RemoteSize(b) == |name| && TargetSize(b) == |target|
            && Names(b)[..|name|] == name && Names(b)[|name|..] == target
            && b[HEADER_SIZE + |name| + |target|..] == later
  {
    FieldRanges();
    DecodeEncode(|name|, 2);
    DecodeEncode(|target|, 2);
    Pieces(MAGIC, Encode(|name|, 2), Encode(|target|, 2), name, target, later);
  }

  /** Slicing a concatenation at its seams. */
  lemma Pieces(magic: Binary, f: Binary, g: Binary, x: Binary, y: Binary, later: Binary)
    requires |f| == |g| == 2
    ensures var b := magic + f + g + x + y + later;
            var header := |magic| + 4;
            && b[..|magic|] == magic
            && b[|magic|..|magic| + 2] == f
            && b[|magic| + 2..header] == g
            && b[header..header + |x| + |y|][..|x|] == x
            && b[header..header + |x| + |y|][|x|..] == y
            && b[header + |x| + |y|..] == later
  {
  }

  /** Conversely, bytes with a good header and both names are a frame and what follows. */
  lemma FieldsMakeFrame(b: Binary)
    requires NamesArrived(b)
    ensures var n, size := RemoteSize(b), RemoteSize(b) + TargetSize(b);
            Frame(Names(b)[..n], Names(b)[n..]) + b[HEADER_SIZE + size..] == b
  {
    EncodeDecode(b[|MAGIC|..|MAGIC| + 2]);
    EncodeDecode(b[|MAGIC| + 2..HEADER_SIZE]);
    Reassembled(b, |MAGIC|, RemoteSize(b), TargetSize(b));
  }

  lemma Reassembled(b: Binary, k: nat, n: nat, m: nat)
    requires |b| >= k + 4 + n + m
    ensures var names := b[k + 4..k + 4 + n + m];
            b[..k] + b[k..k + 2] + b[k + 2..k + 4] + names[..n] + names[n..] + b[k + 4 + n + m..] == b
  {
    NamesApart(b, k + 4, n, m);
    Seam(b, k, k + 2);
    Seam(b, k + 2, k + 4);
    Seam(b, k + 4, k + 4 + n);
    Seam(b, k + 4 + n, k + 4 + n + m);
  }

  lemma NamesApart(b: Binary, k: nat, n: nat, m: nat)
    requires |b| >= k + n + m
    ensures b[k..k + n + m][..n] == b[k..k + n] && b[k..k + n + m][n..] == b[k + n..k + n + m]
  {
  }

  /** Reading the header, for every cutting of the stream. */
  lemma IncomingHeader(config: Config, remoteId: Id, input: Input, sending: SendOutcome) returns (afterHeader: Input)
    requires |input.bytes| >= HEADER_SIZE
    ensures afterHeader.bytes == input.bytes[HEADER_SIZE..] && afterHeader.ending == input.ending
    ensures Incoming(config, remoteId, input, sending) ==
            if GoodHeader(input.bytes)
            then IncomingNames(config, remoteId, afterHeader, RemoteSize(input.bytes), TargetSize(input.bytes), sending)
            else AcceptError([], MalformedPreface)
  {
    hide RecvExact, IncomingNames, Decode;
    RecvExactTakesPrefix(input, HEADER_SIZE);
    afterHeader := RecvExact(input, HEADER_SIZE, []).rest;
    Beginning(input.bytes, |MAGIC|);
  }

  /** The fields of a header are those of the stream it begins. */
  lemma Beginning(b: Binary, k: nat)
    requires |b| >= k + 4
    ensures b[..k + 4][..k] == b[..k]
    ensures b[..k + 4][k..k + 2] == b[k..k + 2]
    ensures b[..k + 4][k + 2..] == b[k + 2..k + 4]
  {
  }

  /** A stream that ends early or has another header is refused before any name is looked at. */
  lemma IncomingWithoutNames(config: Config, remoteId: Id, input: Input, sending: SendOutcome)
    requires !NamesArrived(input.bytes)
    ensures Incoming(config, remoteId, input, sending) ==
            AcceptError([], if |input.bytes| < HEADER_SIZE || GoodHeader(input.bytes)
                            then Io(EndingError(input.ending)) else MalformedPreface)
  {
    hide RecvExact, Frame;
    if |input.bytes| < HEADER_SIZE {
      RecvExactTakesPrefix(input, HEADER_SIZE);
    } else {
      var afterHeader := IncomingHeader(config, remoteId, input, sending);
      if GoodHeader(input.bytes) {
        RecvExactTakesPrefix(afterHeader, RemoteSize(input.bytes) + TargetSize(input.bytes));
      }
    }
  }

  /** Otherwise the two names decide, and reading has stopped right after them. */
  lemma IncomingWithNames(config: Config, remoteId: Id, input: Input, sending: SendOutcome) returns (rest: Input)
    requires NamesArrived(input.bytes)
    ensures rest.ending == input.ending
    ensures rest.bytes == input.bytes[HEADER_SIZE + RemoteSize(input.bytes) + TargetSize(input.bytes)..]
    ensures Incoming(config, remoteId, input, sending)
            == Decide(config, remoteId, Names(input.bytes), RemoteSize(input.bytes), sending, rest)
  {
    hide RecvExact, Frame, Decide;
    var b := input.bytes;
    var size := RemoteSize(b) + TargetSize(b);
    var afterHeader := IncomingHeader(config, remoteId, input, sending);
    rest := NamesRead(config, remoteId, afterHeader, RemoteSize(b), TargetSize(b), sending);
    Onwards(b, HEADER_SIZE, size);
  }

  lemma Onwards(b: Binary, k: nat, n: nat)
    requires |b| >= k + n
    ensures b[k..][..n] == b[k..k + n] && b[k..][n..] == b[k + n..]
  {
  }

  lemma NamesRead(config: Config, remoteId: Id, input: Input, n: nat, m: nat, sending: SendOutcome)
    returns (rest: Input)
    requires n <= MAX_NAME && m <= MAX_NAME && n + m <= |input.bytes|
    ensures rest.bytes == input.bytes[n + m..] && rest.ending == input.ending
    ensures IncomingNames(config, remoteId, input, n, m, sending)
            == Decide(config, remoteId, input.bytes[..n + m], n, sending, rest)
  {
    hide RecvExact, Decide;
    RecvExactTakesPrefix(input, n + m);
    rest := RecvExact(input, n + m, []).rest;
  }

  /** On a frame followed by anything, the acceptor decides by the claim in it alone, and
      stops reading at the end of the frame. */
  lemma IncomingOfFrame(config: Config, remoteId: Id, name: Binary, target: Binary, later: Binary,
                        input: Input, sending: SendOutcome)
    requires Installed(config) && Nameable(name) && Nameable(target)
    requires input.bytes == Frame(name, target) + later
    ensures var r := Incoming(config, remoteId, input, sending);
            && (r.AcceptOk? <==> sending.Sent? && target == config.name
                                 && AuthorizeId(config, remoteId) == Some(name))
            && (r.AcceptOk? ==> r.claimed == name && r.written == [1]
                                && r.rest.bytes == later && r.rest.ending == input.ending)
            && (!(target == config.name && AuthorizeId(config, remoteId) == Some(name)) ==>
                  r == AcceptError([], IdentityNameMismatch))
            && (!r.AcceptOk? && target == config.name && AuthorizeId(config, remoteId) == Some(name) ==>
                  r.error == Io(sending.reason) && r.written <= [1])
  {
    FrameFields(name, target, later);
    var rest := IncomingWithNames(config, remoteId, input, sending);
    ClaimGrantedIffBound(config, name, remoteId, target);
  }

  lemma AcceptedClaimWasThere(config: Config, remoteId: Id, input: Input, sending: SendOutcome)
    requires Installed(config) && Incoming(config, remoteId, input, sending).AcceptOk?
    ensures var r := Incoming(config, remoteId, input, sending);
            && sending.Sent? && Nameable(r.claimed)
            && AuthorizeId(config, remoteId) == Some(r.claimed)
            && input.bytes == Frame(r.claimed, config.name) + r.rest.bytes
            && r.rest.ending == input.ending
  {
    var b := input.bytes;
    if !NamesArrived(b) {
      IncomingWithoutNames(config, remoteId, input, sending);
    }
    var rest := IncomingWithNames(config, remoteId, input, sending);
    FieldsMakeFrame(b);
    var n := RemoteSize(b);
    ClaimGrantedIffBound(config, Names(b)[..n], remoteId, Names(b)[n..]);
  }

  /** For arbitrary bytes from the peer: a session is accepted exactly when they begin with
      a frame that addresses this node and claims the one name bound to the authenticated
      id, and the acknowledgement goes out. */
  lemma AcceptsExactlyBoundClaims(config: Config, remoteId: Id, input: Input, sending: SendOutcome)
    requires Installed(config) && Nameable(config.name)
    ensures var r := Incoming(config, remoteId, input, sending);
            && (r.AcceptOk? <==>
                  && sending.Sent?
                  && AuthorizeId(config, remoteId).Some?
                  && Nameable(AuthorizeId(config, remoteId).value)
                  && Frame(AuthorizeId(config, remoteId).value, config.name) <= input.bytes)
            && (r.AcceptOk? ==> input.bytes == Frame(r.claimed, config.name) + r.rest.bytes
                                && AuthorizeId(config, remoteId) == Some(r.claimed))
  {
    hide Incoming, Frame, AuthorizeId;
    var r := Incoming(config, remoteId, input, sending);
    var b := input.bytes;
    if r.AcceptOk? {
      AcceptedClaimWasThere(config, remoteId, input, sending);
    }
    if && sending.Sent?
       && AuthorizeId(config, remoteId).Some?
       && Nameable(AuthorizeId(config, remoteId).value)
       && Frame(AuthorizeId(config, remoteId).value, config.name) <= b
    {
      var name := AuthorizeId(config, remoteId).value;
      var later := b[|Frame(name, config.name)|..];
      assert b == Frame(name, config.name) + later;
      IncomingOfFrame(config, remoteId, name, config.name, later, input, sending);
    }
  }

  /** The two ends agree. The acceptor reads what the dialler wrote and anything after it;
      the dialler reads what the acceptor wrote, and more only if the session goes on.
      Then one succeeds exactly when the other does, exactly when the dialled node is this
      one and the authenticated id is bound to the dialler's own name; the claimed node is
      that name, the later identity check succeeds too, and neither end has read a byte of
      what follows. */
  lemma EndsAgree(config: Config, remoteId: Id, local: Node, remote: Node,
                  toAcceptor: Input, afterFrame: Binary, toDialler: Input, afterAck: Binary)
    requires Installed(config) && Nameable(local) && Nameable(remote)
    requires toAcceptor.bytes == Frame(local, remote) + afterFrame
    requires var accepted := Incoming(config, remoteId, toAcceptor, Sent);
             toDialler.bytes == accepted.written + (if accepted.AcceptOk? then afterAck else [])
    ensures var dialled := Outgoing(local, remote, Sent, toDialler);
            var accepted := Incoming(config, remoteId, toAcceptor, Sent);
            && dialled.written == Frame(local, remote)
            && (dialled.DialOk? <==> accepted.AcceptOk?)
            && (accepted.AcceptOk? <==> remote == config.name && AuthorizeId(config, remoteId) == Some(local))
            && (accepted.AcceptOk? ==>
                  && accepted.claimed == local
                  && ExpectedId(config, accepted.claimed) == Some(remoteId)
                  && ValidatePeer(config, accepted.claimed, remoteId) == PeerOk
                  && accepted.rest.bytes == afterFrame
                  && dialled.rest.bytes == afterAck)
            && (!accepted.AcceptOk? ==> accepted.error == IdentityNameMismatch
                                        && dialled.error == Io(EndingError(toDialler.ending)))
  {
    hide Incoming, Frame, RecvExact;
    IncomingOfFrame(config, remoteId, local, remote, afterFrame, toAcceptor, Sent);
    LookupsInverse(config, remoteId, local);
    RecvExactTakesPrefix(toDialler, 1);
    var accepted := Incoming(config, remoteId, toAcceptor, Sent);
    if accepted.AcceptOk? {
      assert toDialler.bytes[..1] == [1];
    }
  }

  /** Any other first byte is a refusal, and nothing more is read. */
  lemma OnlyOneIsAcknowledgement(local: Node, remote: Node, replies: Input)
    requires Nameable(local) && Nameable(remote) && replies.bytes != []
    ensures var dialled := Outgoing(local, remote, Sent, replies);
            && (dialled.DialOk? <==> replies.bytes[0] == 1)
            && (dialled.DialOk? ==> dialled.rest.bytes == replies.bytes[1..] && dialled.rest.ending == replies.ending)
            && (!dialled.DialOk? ==> dialled.error == Unauthorized)
  {
    hide RecvExact, Frame;
    RecvExactTakesPrefix(replies, 1);
    assert replies.bytes[..1] == [replies.bytes[0]];
  }

  lemma AcknowledgementWasThere(local: Node, remote: Node, replies: Input)
    requires Outgoing(local, remote, Sent, replies).DialOk?
    ensures var dialled := Outgoing(local, remote, Sent, replies);
            && Nameable(local) && Nameable(remote)
            && replies.bytes == [1] + dialled.rest.bytes && dialled.rest.ending == replies.ending
  {
    hide RecvExact, Frame;
    RecvExactTakesPrefix(replies, 1);
    if replies.bytes != [] {
      assert replies.bytes == [replies.bytes[0]] + replies.bytes[1..];
      OnlyOneIsAcknowledgement(local, remote, replies);
    }
  }
}
