/** The endpoint server of `src/iroh_dist_endpoint.erl`: the hand-off of incoming sessions
    and the table of links. The server is a pure function from its state and one message to
    its next state and the replies and closes it performs, so that a life of the server is
    a list of messages, in the order in which any processes happened to send them. */
module EndpointServer {
  import opened Numbers
  import opened Options

  type Node(!new, ==) = nat
  type Owner(!new, ==) = nat
  type Id(!new, ==) = nat
  type Path(!new, ==) = nat

  /** The one process a reply goes to. */
  type From(!new, ==) = nat

  datatype Session = Session(stream: nat, remoteId: Id)

  datatype Direction = Sent | Received

  datatype Link = Link(owner: Owner, remoteId: Id, path: Option<Path>,
                       bytesSent: nat, bytesReceived: nat, framesSent: nat, framesReceived: nat)

  datatype State = State(incoming: seq<Session>, waiter: Option<From>, links: map<Node, Link>)

  /** `Exit` is the end of the endpoint, the acceptor or the supervisor; `Other` is every
      call, cast or message that only reads, or that the server does not know. */
  datatype Message =
    | Incoming(session: Session)
    | TakeIncoming(from: From)
    | RegisterLink(node: Node, session: Session, path: Option<Path>, owner: Owner)
    | UnregisterLink(node: Node, owner: Owner)
    | UpdateLink(node: Node, owner: Owner, direction: Direction, bytes: nat, frames: nat)
    | CloseLink(node: Node)
    | Exit
    | Other

  datatype Effect =
    | Hand(from: From, session: Session)
    | Busy(from: From)
    | CloseSession(session: Session)
    | CloseController(owner: Owner)
    | NotConnected

  datatype Outcome = Outcome(state: State, effects: seq<Effect>)

  const START := State([], None, map[])

  function Owns(links: map<Node, Link>, node: Node, owner: Owner): bool {
    node in links && links[node].owner == owner
  }

  function IncrementLink(link: Link, direction: Direction, bytes: nat, frames: nat): Link {
    match direction
    case Sent => link.(bytesSent := link.bytesSent + bytes, framesSent := link.framesSent + frames)
    case Received => link.(bytesReceived := link.bytesReceived + bytes, framesReceived := link.framesReceived + frames)
  }

  function CloseQueued(queue: seq<Session>): seq<Effect> {
    if queue == [] then [] else [CloseSession(queue[0])] + CloseQueued(queue[1..])
  }

  function Handle(s: State, message: Message): Outcome {
    match message
    case Incoming(session) =>
      (match s.waiter
       case None =>
         if |s.incoming| == 0 then Outcome(s.(incoming := s.incoming + [session]), [])
         else Outcome(s, [CloseSession(session)])
       case Some(from) => Outcome(s.(waiter := None), [Hand(from, session)]))
    case TakeIncoming(from) =>
      if s.waiter.Some? then Outcome(s, [Busy(from)])
      else if s.incoming == [] then Outcome(s.(waiter := Some(from)), [])
      else Outcome(s.(incoming := s.incoming[1..]), [Hand(from, s.incoming[0])])
    case RegisterLink(node, session, path, owner) =>
      Outcome(s.(links := s.links[node := Link(owner, session.remoteId, path, 0, 0, 0, 0)]), [])
    case UnregisterLink(node, owner) =>
      Outcome(if Owns(s.links, node, owner) then s.(links := s.links - {node}) else s, [])
    case UpdateLink(node, owner, direction, bytes, frames) =>
      Outcome(if Owns(s.links, node, owner)
              then s.(links := s.links[node := IncrementLink(s.links[node], direction, bytes, frames)]) else s, [])
    case CloseLink(node) =>
      Outcome(s, if node in s.links then [CloseController(s.links[node].owner)] else [NotConnected])
    case Exit => Outcome(s.(incoming := []), CloseQueued(s.incoming))
    case Other => Outcome(s, [])
  }

  /** A server's life; after an `Exit` nothing more is handled. */
  function Serve(s: State, messages: seq<Message>): Outcome
    decreases |messages|
  {
    if messages == [] then Outcome(s, [])
    else
      var one := Handle(s, messages[0]);
      if messages[0].Exit? then one
      else
        var rest := Serve(one.state, messages[1..]);
        Outcome(rest.state, one.effects + rest.effects)
  }

  ghost predicate Running(messages: seq<Message>) {
    forall m <- messages :: !m.Exit?
  }

  lemma {:induction false} ServeSplit(s: State, a: seq<Message>, b: seq<Message>)
    requires Running(a)
    ensures Serve(s, a + b).state == Serve(Serve(s, a).state, b).state
    ensures Serve(s, a + b).effects == Serve(s, a).effects + Serve(Serve(s, a).state, b).effects
    decreases |a|
  {
    if a == [] {
      assert a + b == b;
    } else {
      assert (a + b)[1..] == a[1..] + b;
      ServeSplit(Handle(s, a[0]).state, a[1..], b);
    }
  }

  // ----- the hand-off

  function Arrived(messages: seq<Message>): seq<Session> {
    if messages == [] then []
    else if messages[0].Incoming? then [messages[0].session] + Arrived(messages[1..])
    else Arrived(messages[1..])
  }

  function Asked(messages: seq<Message>): seq<From> {
    if messages == [] then []
    else if messages[0].TakeIncoming? then [messages[0].from] + Asked(messages[1..])
    else Asked(messages[1..])
  }

  function Handed(effects: seq<Effect>): seq<(From, Session)> {
    if effects == [] then []
    else if effects[0].Hand? then [(effects[0].from, effects[0].session)] + Handed(effects[1..])
    else Handed(effects[1..])
  }

  function Closed(effects: seq<Effect>): seq<Session> {
    if effects == [] then []
    else if effects[0].CloseSession? then [effects[0].session] + Closed(effects[1..])
    else Closed(effects[1..])
  }

  function ToldBusy(effects: seq<Effect>): seq<From> {
    if effects == [] then []
    else if effects[0].Busy? then [effects[0].from] + ToldBusy(effects[1..])
    else ToldBusy(effects[1..])
  }

  /** What the hand-off ought to do, from one number: sessions kept minus requests kept. */
  datatype Plan = Plan(kept: seq<Session>, refused: seq<Session>, granted: seq<From>, busy: seq<From>)

  /** A session is kept unless one already waits, a request unless one already waits. */
  function PlanFor(messages: seq<Message>, balance: int): Plan {
    if messages == [] then Plan([], [], [], [])
    else
      var m, tail := messages[0], messages[1..];
      match m
      case Incoming(session) =>
        if balance < 1 then var p := PlanFor(tail, balance + 1); p.(kept := [session] + p.kept)
        else var p := PlanFor(tail, balance); p.(refused := [session] + p.refused)
      case TakeIncoming(from) =>
        if balance > -1 then var p := PlanFor(tail, balance - 1); p.(granted := [from] + p.granted)
        else var p := PlanFor(tail, balance); p.(busy := [from] + p.busy)
      case _ => PlanFor(tail, balance)
  }

  /** First request with first session, second with second, as far as both go. */
  function Pairs(requests: seq<From>, sessions: seq<Session>): seq<(From, Session)> {
    seq(Min(|requests|, |sessions|), i requires 0 <= i < Min(|requests|, |sessions|) => (requests[i], sessions[i]))
  }

  function Waiting(s: State): seq<From> {
    if s.waiter.Some? then [s.waiter.value] else []
  }

  ghost predicate Bounded(s: State) {
    |s.incoming| <= 1 && (s.waiter.Some? ==> s.incoming == [])
  }

  /** How a life that began with `waiting` and `queue` ends, if it goes as planned. */
  ghost predicate Fits(waiting: seq<From>, queue: seq<Session>, plan: Plan, end: Outcome) {
    var requests, sessions := waiting + plan.granted, queue + plan.kept;
    var n := Min(|requests|, |sessions|);
    && Bounded(end.state)
    && Handed(end.effects) == Pairs(requests, sessions)
    && end.state.incoming == sessions[n..]
    && Waiting(end.state) == requests[n..]
    && Closed(end.effects) == plan.refused
    && ToldBusy(end.effects) == plan.busy
  }

  ghost predicate FollowsPlan(s: State, messages: seq<Message>) {
    Fits(Waiting(s), s.incoming, PlanFor(messages, |s.incoming| - |Waiting(s)|), Serve(s, messages))
  }

  /** `whole` is `a` and `b` interleaved: each element once, both orders kept. */
  ghost predicate IsMerge<T>(a: seq<T>, b: seq<T>, whole: seq<T>) {
    if whole == [] then a == [] && b == []
    else
      || (a != [] && a[0] == whole[0] && IsMerge(a[1..], b, whole[1..]))
      || (b != [] && b[0] == whole[0] && IsMerge(a, b[1..], whole[1..]))
  }

  lemma {:induction false} MergeCounts<T>(a: seq<T>, b: seq<T>, whole: seq<T>)
    requires IsMerge(a, b, whole)
    ensures multiset(whole) == multiset(a) + multiset(b)
  {
    if whole != [] {
      assert whole == [whole[0]] + whole[1..];
      if a != [] && a[0] == whole[0] && IsMerge(a[1..], b, whole[1..]) {
        MergeCounts(a[1..], b, whole[1..]);
        assert a == [a[0]] + a[1..];
      } else {
        MergeCounts(a, b[1..], whole[1..]);
        assert b == [b[0]] + b[1..];
      }
    }
  }

  /** The plan keeps or refuses every session, and every request, once and in order. */
  lemma {:induction false} PlanSortsMessages(messages: seq<Message>, balance: int)
    ensures IsMerge(PlanFor(messages, balance).kept, PlanFor(messages, balance).refused, Arrived(messages))
    ensures IsMerge(PlanFor(messages, balance).granted, PlanFor(messages, balance).busy, Asked(messages))
  {
    if messages != [] {
      var m, tail := messages[0], messages[1..];
      if m.Incoming? {
        var next := if balance < 1 then balance + 1 else balance;
        PlanSortsMessages(tail, next);
        var rest := PlanFor(tail, next);
        assert ([m.session] + rest.kept)[1..] == rest.kept && ([m.session] + rest.refused)[1..] == rest.refused;
        assert ([m.session] + Arrived(tail))[1..] == Arrived(tail);
      } else if m.TakeIncoming? {
        var next := if balance > -1 then balance - 1 else balance;
        PlanSortsMessages(tail, next);
        var rest := PlanFor(tail, next);
        assert ([m.from] + rest.granted)[1..] == rest.granted && ([m.from] + rest.busy)[1..] == rest.busy;
        assert ([m.from] + Asked(tail))[1..] == Asked(tail);
      } else {
        PlanSortsMessages(tail, balance);
      }
    }
  }

  lemma EffectFirst(e: Effect, rest: seq<Effect>)
    ensures Handed([e] + rest) == (if e.Hand? then [(e.from, e.session)] + Handed(rest) else Handed(rest))
    ensures Closed([e] + rest) == (if e.CloseSession? then [e.session] + Closed(rest) else Closed(rest))
    ensures ToldBusy([e] + rest) == (if e.Busy? then [e.from] + ToldBusy(rest) else ToldBusy(rest))
  {
    assert ([e] + rest)[1..] == rest;
  }

  lemma PairsCons(f: From, x: Session, requests: seq<From>, sessions: seq<Session>)
    ensures Pairs([f] + requests, [x] + sessions) == [(f, x)] + Pairs(requests, sessions)
    ensures ([x] + sessions)[Min(|requests|, |sessions|) + 1..] == sessions[Min(|requests|, |sessions|)..]
    ensures ([f] + requests)[Min(|requests|, |sessions|) + 1..] == requests[Min(|requests|, |sessions|)..]
  {
  }

  /** A request and a session meet. */
  lemma MeetingFits(f: From, x: Session, later: Plan, rest: Outcome)
    requires Fits([], [], later, rest)
    ensures Fits([f], [], later.(kept := [x] + later.kept), Outcome(rest.state, [Hand(f, x)] + rest.effects))
    ensures Fits([], [x], later.(granted := [f] + later.granted), Outcome(rest.state, [Hand(f, x)] + rest.effects))
  {
    EffectFirst(Hand(f, x), rest.effects);
    PairsCons(f, x, later.granted, later.kept);
    assert [] + later.granted == later.granted && [] + later.kept == later.kept;
    assert [] + ([x] + later.kept) == [x] + later.kept && [] + ([f] + later.granted) == [f] + later.granted;
  }

  /** One of them comes first and waits. */
  lemma WaitingFits(f: From, x: Session, later: Plan, rest: Outcome)
    ensures Fits([], [x], later, rest) ==> Fits([], [], later.(kept := [x] + later.kept), rest)
    ensures Fits([f], [], later, rest) ==> Fits([], [], later.(granted := [f] + later.granted), rest)
  {
    assert [] + later.granted == later.granted && [] + later.kept == later.kept;
    assert [] + ([x] + later.kept) == [x] + later.kept && [] + ([f] + later.granted) == [f] + later.granted;
  }

  /** A session is closed, a request turned away, or neither is touched. */
  lemma AsideFits(waiting: seq<From>, queue: seq<Session>, later: Plan, rest: Outcome, e: Effect)
    requires Fits(waiting, queue, later, rest) && !e.Hand?
    ensures var plan := if e.CloseSession? then later.(refused := [e.session] + later.refused)
                        else if e.Busy? then later.(busy := [e.from] + later.busy)
                        else later;
            Fits(waiting, queue, plan, Outcome(rest.state, [e] + rest.effects))
  {
    hide Handed, Closed, ToldBusy, Pairs, Waiting;
    EffectFirst(e, rest.effects);
  }

  lemma ServeFirst(s: State, m: Message, tail: seq<Message>)
    requires !m.Exit?
    ensures var one := Handle(s, m);
            var rest := Serve(one.state, tail);
            && (one.effects == [] ==> Serve(s, [m] + tail) == rest)
            && Serve(s, [m] + tail) == Outcome(rest.state, one.effects + rest.effects)
  {
    hide Handle;
    assert ([m] + tail)[1..] == tail;
    var rest := Serve(Handle(s, m).state, tail);
    assert [] + rest.effects == rest.effects;
  }

  lemma PlanFirst(m: Message, tail: seq<Message>, balance: int)
    ensures var all := PlanFor([m] + tail, balance);
            match m
            case Incoming(session) =>
              if balance < 1 then
                all == PlanFor(tail, balance + 1).(kept := [session] + PlanFor(tail, balance + 1).kept)
              else all == PlanFor(tail, balance).(refused := [session] + PlanFor(tail, balance).refused)
            case TakeIncoming(from) =>
              if balance > -1 then
                all == PlanFor(tail, balance - 1).(granted := [from] + PlanFor(tail, balance - 1).granted)
              else all == PlanFor(tail, balance).(busy := [from] + PlanFor(tail, balance).busy)
            case _ => all == PlanFor(tail, balance)
  {
    assert ([m] + tail)[1..] == tail;
  }

  lemma IncomingStep(s: State, x: Session, tail: seq<Message>)
    requires Bounded(s) && FollowsPlan(Handle(s, Incoming(x)).state, tail)
    ensures FollowsPlan(s, [Incoming(x)] + tail)
  {
    hide Serve, PlanFor, Fits;
    ServeFirst(s, Incoming(x), tail);
    PlanFirst(Incoming(x), tail, |s.incoming| - |Waiting(s)|);
    var next := Handle(s, Incoming(x)).state;
    var rest, later := Serve(next, tail), PlanFor(tail, |next.incoming| - |Waiting(next)|);
    if s.waiter.Some? {
      MeetingFits(s.waiter.value, x, later, rest);
    } else if s.incoming == [] {
      assert [] + [x] == [x];
      WaitingFits(0, x, later, rest);
    } else {
      AsideFits(Waiting(s), s.incoming, later, rest, CloseSession(x));
    }
  }

  lemma TakeStep(s: State, f: From, tail: seq<Message>)
    requires Bounded(s) && FollowsPlan(Handle(s, TakeIncoming(f)).state, tail)
    ensures FollowsPlan(s, [TakeIncoming(f)] + tail)
  {
    hide Serve, PlanFor, Fits;
    ServeFirst(s, TakeIncoming(f), tail);
    PlanFirst(TakeIncoming(f), tail, |s.incoming| - |Waiting(s)|);
    var next := Handle(s, TakeIncoming(f)).state;
    var rest, later := Serve(next, tail), PlanFor(tail, |next.incoming| - |Waiting(next)|);
    if s.waiter.Some? {
      AsideFits(Waiting(s), s.incoming, later, rest, Busy(f));
    } else if s.incoming == [] {
      WaitingFits(f, Session(0, 0), later, rest);
    } else {
      assert s.incoming == [s.incoming[0]] && s.incoming[1..] == [];
      MeetingFits(f, s.incoming[0], later, rest);
    }
  }

  /** Anything else leaves the hand-off alone. */
  lemma OtherStep(s: State, m: Message, tail: seq<Message>)
    requires Bounded(s) && !m.Exit? && !m.Incoming? && !m.TakeIncoming? && FollowsPlan(Handle(s, m).state, tail)
    ensures FollowsPlan(s, [m] + tail)
  {
    hide Serve, PlanFor, Fits;
    ServeFirst(s, m, tail);
    PlanFirst(m, tail, |s.incoming| - |Waiting(s)|);
    OtherEffects(s, m);
    var one := Handle(s, m);
    if one.effects != [] {
      var later := PlanFor(tail, |s.incoming| - |Waiting(s)|);
      AsideFits(Waiting(s), s.incoming, later, Serve(one.state, tail), one.effects[0]);
    }
  }

  lemma OtherEffects(s: State, m: Message)
    requires !m.Exit? && !m.Incoming? && !m.TakeIncoming?
    ensures var one := Handle(s, m);
            && one.state.incoming == s.incoming && one.state.waiter == s.waiter
            && (one.effects == []
                || (one.effects == [one.effects[0]]
                    && (one.effects[0].CloseController? || one.effects[0].NotConnected?)))
  {
  }

  lemma NothingServed(s: State)
    requires Bounded(s)
    ensures FollowsPlan(s, [])
  {
    assert Waiting(s) + [] == Waiting(s) && s.incoming + [] == s.incoming;
  }

  /** The server hands the n-th session it keeps to the n-th request it keeps, closes
      exactly the sessions and turns away exactly the requests the plan says, and what it
      holds at the end is what has no partner yet. */
  lemma {:induction false} HandOffFollowsPlan(s: State, messages: seq<Message>)
    requires Bounded(s) && Running(messages)
    ensures FollowsPlan(s, messages)
    decreases |messages|
  {
    hide FollowsPlan;
    if messages == [] {
      NothingServed(s);
    } else {
      HandOffFollowsPlan(Handle(s, messages[0]).state, messages[1..]);
      var m, tail := messages[0], messages[1..];
      assert [m] + tail == messages;
      if m.Incoming? {
        IncomingStep(s, m.session, tail);
      } else if m.TakeIncoming? {
        TakeStep(s, m.from, tail);
      } else {
        OtherStep(s, m, tail);
      }
    }
  }

  function Requesters(pairs: seq<(From, Session)>): seq<From> {
    seq(|pairs|, i requires 0 <= i < |pairs| => pairs[i].0)
  }

  function Sessions(pairs: seq<(From, Session)>): seq<Session> {
    seq(|pairs|, i requires 0 <= i < |pairs| => pairs[i].1)
  }

  lemma PairsParts(requests: seq<From>, sessions: seq<Session>)
    ensures Requesters(Pairs(requests, sessions)) + requests[Min(|requests|, |sessions|)..] == requests
    ensures Sessions(Pairs(requests, sessions)) + sessions[Min(|requests|, |sessions|)..] == sessions
  {
  }

  /** Every session that arrived was handed over, closed or is queued, exactly once, and the
      order of hand-over is the order of arrival; every request was answered, turned away or
      waits, exactly once and in order. At most one session is queued, and none while a
      request waits. */
  lemma EverySessionOnce(messages: seq<Message>)
    requires Running(messages)
    ensures var end := Serve(START, messages);
            && Bounded(end.state)
            && IsMerge(Sessions(Handed(end.effects)) + end.state.incoming, Closed(end.effects), Arrived(messages))
            && IsMerge(Requesters(Handed(end.effects)) + Waiting(end.state), ToldBusy(end.effects), Asked(messages))
  {
    hide Serve, PlanFor, Handed, Closed, ToldBusy, Arrived, Asked, IsMerge, Pairs;
    HandOffFollowsPlan(START, messages);
    PlanSortsMessages(messages, 0);
    var plan := PlanFor(messages, 0);
    assert [] + plan.granted == plan.granted && [] + plan.kept == plan.kept;
    PairsParts(plan.granted, plan.kept);
  }

  lemma {:induction false} CloseQueuedCloses(queue: seq<Session>)
    ensures Closed(CloseQueued(queue)) == queue && Handed(CloseQueued(queue)) == []
  {
    if queue != [] {
      CloseQueuedCloses(queue[1..]);
      EffectFirst(CloseSession(queue[0]), CloseQueued(queue[1..]));
    }
  }

  lemma {:induction false} HandedSplit(a: seq<Effect>, b: seq<Effect>)
    ensures Handed(a + b) == Handed(a) + Handed(b)
  {
    if a == [] {
      assert a + b == b;
    } else {
      HandedSplit(a[1..], b);
      assert (a + b)[1..] == a[1..] + b;
    }
  }

  lemma {:induction false} ClosedSplit(a: seq<Effect>, b: seq<Effect>)
    ensures Closed(a + b) == Closed(a) + Closed(b)
  {
    if a == [] {
      assert a + b == b;
    } else {
      ClosedSplit(a[1..], b);
      assert (a + b)[1..] == a[1..] + b;
    }
  }

  lemma ExitServes(s: State, unread: seq<Message>)
    ensures Serve(s, [Exit] + unread) == Outcome(s.(incoming := []), CloseQueued(s.incoming))
  {
  }

  /** However the server ends, every session it received has been handed over or closed. */
  lemma NothingLeftOpen(messages: seq<Message>, unread: seq<Message>)
    requires Running(messages)
    ensures var end := Serve(START, messages + ([Exit] + unread));
            && end.state.incoming == []
            && Handed(end.effects) == Handed(Serve(START, messages).effects)
            && multiset(Arrived(messages)) == multiset(Sessions(Handed(end.effects))) + multiset(Closed(end.effects))
  {
    hide Serve, Handed, Closed, Arrived, Sessions, CloseQueued, Requesters;
    var live := Serve(START, messages);
    ServeSplit(START, messages, [Exit] + unread);
    ExitServes(live.state, unread);
    EverySessionOnce(messages);
    MergeCounts(Sessions(Handed(live.effects)) + live.state.incoming, Closed(live.effects), Arrived(messages));
    CloseQueuedCloses(live.state.incoming);
    HandedSplit(live.effects, CloseQueued(live.state.incoming));
    ClosedSplit(live.effects, CloseQueued(live.state.incoming));
    assert Handed(live.effects) + [] == Handed(live.effects);
  }

  // ----- the table of links

  ghost predicate Registers(messages: seq<Message>, node: Node) {
    exists m <- messages :: m.RegisterLink? && m.node == node
  }

  ghost predicate Unregisters(messages: seq<Message>, node: Node, owner: Owner) {
    UnregisterLink(node, owner) in messages
  }

  /** What one owner reported for a node in one direction. */
  function SumBytes(messages: seq<Message>, node: Node, owner: Owner, direction: Direction): nat {
    if messages == [] then 0
    else
      (if messages[0].UpdateLink? && messages[0].node == node && messages[0].owner == owner
          && messages[0].direction == direction then messages[0].bytes else 0)
      + SumBytes(messages[1..], node, owner, direction)
  }

  function SumFrames(messages: seq<Message>, node: Node, owner: Owner, direction: Direction): nat {
    if messages == [] then 0
    else
      (if messages[0].UpdateLink? && messages[0].node == node && messages[0].owner == owner
          && messages[0].direction == direction then messages[0].frames else 0)
      + SumFrames(messages[1..], node, owner, direction)
  }

  function Credited(link: Link, messages: seq<Message>, node: Node): Link {
    link.(bytesSent := link.bytesSent + SumBytes(messages, node, link.owner, Sent),
          bytesReceived := link.bytesReceived + SumBytes(messages, node, link.owner, Received),
          framesSent := link.framesSent + SumFrames(messages, node, link.owner, Sent),
          framesReceived := link.framesReceived + SumFrames(messages, node, link.owner, Received))
  }

  /** While nobody registers for a node, only its owner's messages count. */
  lemma {:induction false} BetweenRegistrations(s: State, messages: seq<Message>, node: Node)
    requires Running(messages) && !Registers(messages, node)
    ensures var end := Serve(s, messages).state.links;
            && (node in end <==> node in s.links && !Unregisters(messages, node, s.links[node].owner))
            && (node in end ==> end[node] == Credited(s.links[node], messages, node))
    decreases |messages|
  {
    if messages != [] {
      BetweenRegistrations(Handle(s, messages[0]).state, messages[1..], node);
    }
  }

  lemma NeverRegistered(messages: seq<Message>, node: Node)
    requires Running(messages) && !Registers(messages, node)
    ensures node !in Serve(START, messages).state.links
  {
    BetweenRegistrations(START, messages, node);
  }

  /** The entry of a node is that of its last registrant, unless that one has unregistered
      since, and its counters are what that one reported since; messages of anybody else
      before or after leave no trace. */
  lemma LinkIsLastRegistrant(before: seq<Message>, last: Message, after: seq<Message>)
    requires last.RegisterLink? && Running(before) && Running(after) && !Registers(after, last.node)
    ensures var end := Serve(START, before + ([last] + after)).state.links;
            && (last.node in end <==> !Unregisters(after, last.node, last.owner))
            && (last.node in end ==>
                  end[last.node] == Link(last.owner, last.session.remoteId, last.path,
                                         SumBytes(after, last.node, last.owner, Sent),
                                         SumBytes(after, last.node, last.owner, Received),
                                         SumFrames(after, last.node, last.owner, Sent),
                                         SumFrames(after, last.node, last.owner, Received)))
  {
    var s := Serve(START, before).state;
    ServeSplit(START, before, [last] + after);
    assert ([last] + after)[1..] == after;
    BetweenRegistrations(Handle(s, last).state, after, last.node);
  }

  /** Closing a link asks its last registrant to stop, if that one still has it. */
  lemma CloseReachesLastRegistrant(before: seq<Message>, last: Message, after: seq<Message>)
    requires last.RegisterLink? && Running(before) && Running(after) && !Registers(after, last.node)
    ensures Handle(Serve(START, before + ([last] + after)).state, CloseLink(last.node)).effects ==
            if Unregisters(after, last.node, last.owner) then [NotConnected] else [CloseController(last.owner)]
  {
    LinkIsLastRegistrant(before, last, after);
  }
}
