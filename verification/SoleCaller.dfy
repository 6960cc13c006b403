/** Release before reply, seen by the caller: operations of `Operation` whose futures hold
    leases of `StreamOwnership`. One process uses one half of a stream; other processes may
    use the other half as they like, and nobody closes this one. */
module SoleCaller {
  import opened Options
  import S = StreamOwnership
  import O = Operation

  /** The operation with identity `o` runs as thread `o` of the stream. */
  datatype Caller =
    | Ready
    | Taking(o: nat)
    | Launching(o: nat)
    | Waiting(o: nat)
    | Refused(o: nat)

  datatype State = State(stream: S.State, native: O.State, caller: Caller)

  /** `GiveUp` is a timeout: it cancels without waiting for the release. `Other` is a step
      of a process that uses the other half. */
  datatype Event =
    | Call(o: nat)
    | TakeStep
    | CreateOperation
    | LaunchFails
    | DropStep
    | Native(native: O.Event)
    | LeaseStep(o: nat)
    | Receive
    | GiveUp
    | Other(stream: S.Event)

  /** A future that is gone has dropped its lease: its thread is idle again. */
  ghost predicate JoinsAfterDrop(s: State, event: O.Event) {
    event.FutureGone? ==> event.o in s.stream.pcs && s.stream.pcs[event.o].Idle?
  }

  /** The thread is not one of the caller's operations. */
  ghost predicate Foreign(s: State, t: nat) {
    t !in s.native.ops && (s.caller.Ready? || s.caller.o != t)
  }

  ghost predicate OnOtherHalf(s: State, side: S.Side, event: S.Event) {
    match event
    case Begin(t, call) =>
      Foreign(s, t) &&
      (match call
       case Take(x) => x != side
       case Abort(x, _) => x != side
       case Finish => side == S.Recv
       case _ => false)
    case Step(t) => Foreign(s, t) && t in s.stream.pcs && S.OnHalf(s.stream.pcs[t]) && S.SideOf(s.stream.pcs[t]) != side
    case Wake(t) => Foreign(s, t) && t in s.stream.pcs && s.stream.pcs[t].Leased? && s.stream.pcs[t].side != side
    case Free => false
  }

  /** What the stream does in each event, if anything. */
  ghost predicate StreamStep(side: S.Side, s: State, event: Event, stream: S.State) {
    match event
    case Call(o) => S.Next(s.stream, S.Begin(o, S.Take(side)), stream)
    case TakeStep => !s.caller.Ready? && S.Next(s.stream, S.Step(s.caller.o), stream)
    case DropStep => !s.caller.Ready? && S.Next(s.stream, S.Step(s.caller.o), stream)
    case LeaseStep(o) => S.Next(s.stream, S.Step(o), stream)
    case Other(e) => OnOtherHalf(s, side, e) && S.Next(s.stream, e, stream)
    case _ => stream == s.stream
  }

  ghost predicate NativeStep(s: State, event: Event, native: O.State) {
    match event
    case CreateOperation => !s.caller.Ready? && O.Next(s.native, O.Create(s.caller.o, O.WithFuture), native)
    case Native(e) => !e.Create? && !e.Cancel? && JoinsAfterDrop(s, e) && O.Next(s.native, e, native)
    case GiveUp => !s.caller.Ready? && O.Next(s.native, O.Cancel(s.caller.o), native)
    case _ => native == s.native
  }

  /** `LaunchFails` is a call without runtime or live caller: the future is dropped
      unstarted, and the call reports it. */
  ghost predicate CallerStep(s: State, event: Event, stream: S.State, caller: Caller) {
    match event
    case Call(o) =>
      s.caller.Ready? && o !in s.native.ops && o in stream.pcs
      && caller == if stream.pcs[o].Idle? then Refused(o) else Taking(o)
    case TakeStep =>
      s.caller.Taking? && s.caller.o in stream.pcs
      && var o := s.caller.o;
         caller == if stream.pcs[o].Idle? then Refused(o) else if stream.pcs[o].Leased? then Launching(o) else Taking(o)
    case CreateOperation =>
      s.caller.Launching? && s.caller.o in stream.pcs && stream.pcs[s.caller.o].Leased? && caller == Waiting(s.caller.o)
    case LaunchFails =>
      s.caller.Launching? && s.caller.o in stream.pcs && stream.pcs[s.caller.o].Idle? && caller == Ready
    case DropStep => s.caller.Launching? && caller == s.caller
    case LeaseStep(o) => o in s.native.ops && s.native.ops[o].future.Unwinding? && caller == s.caller
    case Receive =>
      s.caller.Waiting? && s.caller.o in s.native.ops && s.native.ops[s.caller.o].sent != [] && caller == Ready
    case GiveUp => s.caller.Waiting? && caller == Ready
    case _ => caller == s.caller
  }

  ghost predicate Next(side: S.Side, s: State, event: Event, s': State) {
    && StreamStep(side, s, event, s'.stream)
    && NativeStep(s, event, s'.native)
    && CallerStep(s, event, s'.stream, s'.caller)
  }

  ghost predicate Init(side: S.Side, s: State) {
    && S.Init(s.stream) && S.HalfOf(s.stream, side).slot.Some?
    && s.native == O.State(0, map[]) && s.caller.Ready?
  }

  ghost predicate IsRun(side: S.Side, run: seq<State>, events: seq<Event>) {
    && |run| == |events| + 1
    && Init(side, run[0])
    && forall i | 0 <= i < |events| :: Next(side, run[i], events[i], run[i + 1])
  }

  /** A caller that waits for every result. */
  ghost predicate Patient(events: seq<Event>) {
    GiveUp !in events
  }

  // ----- the invariant of a patient caller

  /** A thread with nothing to do here. */
  ghost predicate Elsewhere(pc: S.Pc, side: S.Side) {
    pc.Idle? || (S.OnHalf(pc) && S.SideOf(pc) != side && S.TodoOf(pc) == [])
  }

  ghost predicate AllElsewhere(pcs: map<nat, S.Pc>, side: S.Side) {
    forall t <- pcs :: Elsewhere(pcs[t], side)
  }

  /** Everyone else is elsewhere. */
  ghost predicate Alone(pcs: map<nat, S.Pc>, o: nat, side: S.Side) {
    o in pcs && forall t <- pcs | t != o :: Elsewhere(pcs[t], side)
  }

  /** The half as the one thread using it leaves it at each of its steps. */
  ghost predicate Shape(half: S.Half, pc: S.Pc, side: S.Side) {
    && !half.closed
    && match pc
       case Idle => half.slot.Some? && !half.busy
       case TakeFlag(x) => x == side && half.slot.Some? && !half.busy
       case TakeSlot(x) => x == side && half.slot.Some? && half.busy
       case Leased(x, _, _) => x == side && half.busy
       case DropTest(x, _, _) => x == side && !half.busy
       case DropPut(x, _) => x == side && !half.busy
       case _ => false
  }

  ghost predicate InDrop(pc: S.Pc) {
    pc.Leased? || pc.DropTest? || pc.DropPut? || pc.Idle?
  }

  /** Earlier operations are over as far as the stream is concerned. */
  ghost predicate OpFits(op: O.Op, current: bool) {
    && O.OpInv(op) && op.kind.WithFuture? && op.phase != O.Cancelled && !op.notifyDue
    && (!current ==> op.future.Gone?)
  }

  ghost predicate OpsFit(ops: map<nat, O.Op>, caller: Caller) {
    forall o <- ops :: OpFits(ops[o], caller == Waiting(o))
  }

  ghost predicate StreamFits(side: S.Side, s: State) {
    var half, pcs := S.HalfOf(s.stream, side), s.stream.pcs;
    && !s.stream.freed
    && match s.caller
       case Ready => !half.closed && half.slot.Some? && !half.busy && AllElsewhere(pcs, side)
       case Taking(o) => Alone(pcs, o, side) && Shape(half, pcs[o], side) && (pcs[o].TakeFlag? || pcs[o].TakeSlot?)
       case Launching(o) => Alone(pcs, o, side) && Shape(half, pcs[o], side) && InDrop(pcs[o])
       case Waiting(o) => Alone(pcs, o, side) && Shape(half, pcs[o], side) && InDrop(pcs[o])
       case Refused(_) => false
  }

  ghost predicate Inv(side: S.Side, s: State) {
    && StreamFits(side, s) && OpsFit(s.native.ops, s.caller)
    && (s.caller.Taking? || s.caller.Launching? ==> s.caller.o !in s.native.ops)
    && (s.caller.Waiting? ==>
          && s.caller.o in s.native.ops
          && (s.native.ops[s.caller.o].future.Gone? ==> s.caller.o in s.stream.pcs && s.stream.pcs[s.caller.o].Idle?))
  }

  lemma OpKept(op: O.Op, e: O.Event, current: bool)
    requires OpFits(op, current) && O.OpEnabled(op, e) && !e.Cancel?
    ensures OpFits(O.OpStep(op, e), current)
    ensures O.OpStep(op, e).future.Gone? ==> op.future.Gone? || e.FutureGone?
  {
    O.OpPreserved(op, e);
  }

  /** One step of the only thread on the half keeps it in shape. */
  lemma ShapeKept(s: S.State, o: nat, side: S.Side)
    requires Alone(s.pcs, o, side) && S.Enabled(s, S.Step(o)) && Shape(S.HalfOf(s, side), s.pcs[o], side)
    ensures var s' := S.Apply(s, S.Step(o));
            && Alone(s'.pcs, o, side) && Shape(S.HalfOf(s', side), s'.pcs[o], side) && !s'.freed
            && (s.pcs[o].TakeFlag? ==> s'.pcs[o].TakeSlot?)
            && (s.pcs[o].TakeSlot? ==> s'.pcs[o].Leased?)
            && (InDrop(s.pcs[o]) ==> InDrop(s'.pcs[o]))
  {
    assert S.OnHalf(s.pcs[o]) && S.SideOf(s.pcs[o]) == side;
  }

  lemma OwnIdleBecomesElsewhere(pcs: map<nat, S.Pc>, o: nat, side: S.Side)
    requires Alone(pcs, o, side) && pcs[o].Idle?
    ensures AllElsewhere(pcs, side)
  {
  }

  /** What a process on the other half does stays there. */
  lemma OtherStaysThere(s: State, side: S.Side, e: S.Event)
    requires OnOtherHalf(s, side, e) && S.Enabled(s.stream, e)
    requires var t := e.t; Elsewhere(s.stream.pcs[t], side)
    ensures var s' := S.Apply(s.stream, e);
            && s'.pcs.Keys == s.stream.pcs.Keys && Elsewhere(s'.pcs[e.t], side)
            && (forall t <- s.stream.pcs | t != e.t :: s'.pcs[t] == s.stream.pcs[t])
            && S.HalfOf(s', side) == S.HalfOf(s.stream, side) && !s'.freed
  {
    hide S.Spend, S.SpendSlot;
    match e
    case Begin(t, call) =>
    case Step(t) => OtherHalfStep(s.stream, t, side);
    case Wake(t) =>
  }

  lemma OtherHalfStep(s: S.State, t: nat, side: S.Side)
    requires t in s.pcs && !s.pcs[t].Idle? && Elsewhere(s.pcs[t], side)
    ensures var s' := S.ThreadStep(s, t);
            && Elsewhere(s'.pcs[t], side) && s'.pcs == s.pcs[t := s'.pcs[t]]
            && S.HalfOf(s', side) == S.HalfOf(s, side) && s'.freed == s.freed
  {
    hide S.Spend, S.SpendSlot;
  }

  lemma OtherPreserved(side: S.Side, s: State, e: S.Event, s': State)
    requires Inv(side, s) && Next(side, s, Other(e), s')
    ensures Inv(side, s')
  {
    hide Shape, OpsFit, S.Apply, S.Enabled, Elsewhere, S.HalfOf;
    assert Elsewhere(s.stream.pcs[e.t], side) by { EventThreadKnown(s.stream, e); }
    OtherStaysThere(s, side, e);
  }

  lemma EventThreadKnown(s: S.State, e: S.Event)
    requires S.Enabled(s, e) && !e.Free?
    ensures e.t in s.pcs
  {
  }

  lemma NativePreserved(side: S.Side, s: State, event: Event, s': State)
    requires Inv(side, s) && Next(side, s, event, s') && event.Native?
    ensures Inv(side, s')
  {
    hide StreamFits, OpFits, O.OpStep, O.OpEnabled;
    var e := event.native;
    OpKept(s.native.ops[e.o], e, s.caller == Waiting(e.o));
    SameStream(side, s, s');
  }

  lemma SameStream(side: S.Side, s: State, s': State)
    requires StreamFits(side, s) && s'.stream == s.stream && s'.caller == s.caller
    ensures StreamFits(side, s')
  {
  }

  lemma Preserved(side: S.Side, s: State, event: Event, s': State)
    requires Inv(side, s) && Next(side, s, event, s') && !event.GiveUp?
    ensures Inv(side, s')
  {
    hide S.HalfStep;
    match event
    case Other(e) => OtherPreserved(side, s, e, s');
    case Native(e) => NativePreserved(side, s, event, s');
    case TakeStep => ShapeKept(s.stream, s.caller.o, side);
    case DropStep => ShapeKept(s.stream, s.caller.o, side);
    case LeaseStep(o) => ShapeKept(s.stream, o, side);
    case Receive =>
      assert OpFits(s.native.ops[s.caller.o], true);
      OwnIdleBecomesElsewhere(s.stream.pcs, s.caller.o, side);
    case LaunchFails => OwnIdleBecomesElsewhere(s.stream.pcs, s.caller.o, side);
    case CreateOperation =>
    case Call(o) =>
  }

  lemma StepAt(side: S.Side, run: seq<State>, events: seq<Event>, i: nat)
    requires IsRun(side, run, events) && i < |events|
    ensures Next(side, run[i], events[i], run[i + 1])
  {
  }

  lemma {:induction false} EveryState(side: S.Side, run: seq<State>, events: seq<Event>, i: nat)
    requires IsRun(side, run, events) && i < |run| && Patient(events)
    ensures Inv(side, run[i])
    decreases i
  {
    if i > 0 {
      hide Inv, Next;
      EveryState(side, run, events, i - 1);
      StepAt(side, run, events, i - 1);
      assert events[i - 1] in events;
      Preserved(side, run[i - 1], events[i - 1], run[i]);
    }
  }

  /** Patient or not, the stream only does what streams do. */
  lemma {:induction false} StreamInv(side: S.Side, run: seq<State>, events: seq<Event>, i: nat)
    requires IsRun(side, run, events) && i < |run|
    ensures S.Inv(run[i].stream)
    decreases i
  {
    hide S.Inv, S.Enabled, S.Apply, S.Init;
    if i == 0 {
      S.InitInv(run[0].stream);
    } else {
      StreamInv(side, run, events, i - 1);
      StepAt(side, run, events, i - 1);
      StreamStepInv(side, run[i - 1], events[i - 1], run[i].stream);
    }
  }

  lemma StreamStepInv(side: S.Side, s: State, event: Event, stream: S.State)
    requires S.Inv(s.stream) && StreamStep(side, s, event, stream)
    ensures S.Inv(stream)
  {
    hide S.Inv, S.Enabled, S.Apply;
    match event
    case Call(o) => S.EventInv(s.stream, S.Begin(o, S.Take(side)));
    case TakeStep => S.EventInv(s.stream, S.Step(s.caller.o));
    case DropStep => S.EventInv(s.stream, S.Step(s.caller.o));
    case LeaseStep(o) => S.EventInv(s.stream, S.Step(o));
    case Other(e) => S.EventInv(s.stream, e);
    case _ =>
  }

  // ----- the promises

  /** A sole caller of a half that waits for its results is never refused, as busy or as
      unavailable, on account of its own earlier calls, whatever others do on the other
      half; and whenever it may call again the handle is back in the slot and the half is
      free. */
  lemma NeverRefused(side: S.Side, run: seq<State>, events: seq<Event>, i: nat)
    requires IsRun(side, run, events) && i < |run| && Patient(events)
    ensures !run[i].caller.Refused?
    ensures run[i].caller.Ready? ==>
              var half := S.HalfOf(run[i].stream, side); half.slot.Some? && !half.busy && !half.closed
  {
    EveryState(side, run, events, i);
  }

  // ----- when a call is refused, patient or not

  ghost predicate OfTake(pc: S.Pc, side: S.Side) {
    (pc.TakeFlag? || pc.TakeSlot? || pc.TakeEmpty?) && pc.side == side
  }

  /** A thread takes, holds or drops a lease of this half, or has nothing to do with it. */
  ghost predicate Placed(pc: S.Pc, side: S.Side) {
    || Elsewhere(pc, side)
    || OfTake(pc, side)
    || ((pc.Leased? || pc.DropTest? || pc.DropPut?) && pc.side == side)
  }

  ghost predicate Unclosed(side: S.Side, stream: S.State) {
    && !S.HalfOf(stream, side).closed && S.HalfOf(stream, side).origin.Some?
    && forall t <- stream.pcs :: Placed(stream.pcs[t], side)
  }

  ghost predicate CallerPlaced(side: S.Side, s: State) {
    s.caller.Taking? ==>
      s.caller.o !in s.native.ops && s.caller.o in s.stream.pcs && OfTake(s.stream.pcs[s.caller.o], side)
  }

  lemma PlacedStep(stream: S.State, t: nat, side: S.Side)
    requires Unclosed(side, stream) && S.Enabled(stream, S.Step(t))
    ensures Unclosed(side, S.Apply(stream, S.Step(t)))
    ensures S.Apply(stream, S.Step(t)).pcs == stream.pcs[t := S.Apply(stream, S.Step(t)).pcs[t]]
  {
    hide S.HalfStep, S.ThreadStep, Elsewhere;
    assert Placed(stream.pcs[t], side);
    var stream' := S.ThreadStep(stream, t);
    if Elsewhere(stream.pcs[t], side) {
      OtherHalfStep(stream, t, side);
    } else {
      OwnThreadStep(stream, t, side);
    }
    OneMoved(side, stream, stream', t);
  }

  lemma OneMoved(side: S.Side, stream: S.State, stream': S.State, t: nat)
    requires Unclosed(side, stream) && t in stream.pcs && t in stream'.pcs
    requires stream'.pcs == stream.pcs[t := stream'.pcs[t]] && Placed(stream'.pcs[t], side)
    requires !S.HalfOf(stream', side).closed && S.HalfOf(stream', side).origin == S.HalfOf(stream, side).origin
    ensures Unclosed(side, stream')
  {
    hide Placed;
  }

  lemma OwnHalfStep(half: S.Half, pc: S.Pc, side: S.Side)
    requires Placed(pc, side) && !Elsewhere(pc, side) && !half.closed
    ensures S.OnHalf(pc) && S.SideOf(pc) == side
    ensures var (half', pc') := S.HalfStep(half, pc);
            !half'.closed && half'.origin == half.origin && Placed(pc', side)
  {
    hide S.SpendSlot;
  }

  lemma OwnThreadStep(stream: S.State, t: nat, side: S.Side)
    requires t in stream.pcs && Placed(stream.pcs[t], side) && !Elsewhere(stream.pcs[t], side)
    requires !S.HalfOf(stream, side).closed
    ensures !stream.pcs[t].Idle?
    ensures var stream' := S.ThreadStep(stream, t);
            && stream'.pcs == stream.pcs[t := stream'.pcs[t]] && Placed(stream'.pcs[t], side)
            && !S.HalfOf(stream', side).closed && S.HalfOf(stream', side).origin == S.HalfOf(stream, side).origin
  {
    hide S.HalfStep, Placed, Elsewhere;
    OwnHalfStep(S.HalfOf(stream, side), stream.pcs[t], side);
  }

  lemma PlacedTake(stream: S.State, o: nat, side: S.Side)
    requires Unclosed(side, stream) && S.Enabled(stream, S.Begin(o, S.Take(side)))
    ensures Unclosed(side, S.Apply(stream, S.Begin(o, S.Take(side))))
    ensures S.Apply(stream, S.Begin(o, S.Take(side))).pcs == stream.pcs[o := S.TakeFlag(side)]
  {
  }

  lemma PlacedOther(s: State, e: S.Event, side: S.Side)
    requires Unclosed(side, s.stream) && OnOtherHalf(s, side, e) && S.Enabled(s.stream, e)
    ensures Unclosed(side, S.Apply(s.stream, e))
    ensures var stream := S.Apply(s.stream, e);
            forall t <- s.stream.pcs | t != e.t :: t in stream.pcs && stream.pcs[t] == s.stream.pcs[t]
  {
    assert Elsewhere(s.stream.pcs[e.t], side) by {
      EventThreadKnown(s.stream, e);
      assert Placed(s.stream.pcs[e.t], side);
    }
    hide S.ThreadStep, S.WakeStep, S.Entry, S.Apply, S.Enabled, Elsewhere;
    OtherStaysThere(s, side, e);
    OtherKeepsOrigin(s.stream, e, side);
  }

  lemma OtherKeepsOrigin(stream: S.State, e: S.Event, side: S.Side)
    requires S.Enabled(stream, e) && S.HalfOf(S.Apply(stream, e), side) == S.HalfOf(stream, side)
    ensures S.HalfOf(S.Apply(stream, e), side).origin == S.HalfOf(stream, side).origin
  {
  }

  lemma UnclosedKept(side: S.Side, s: State, event: Event, s': State)
    requires Unclosed(side, s.stream) && CallerPlaced(side, s) && Next(side, s, event, s')
    ensures Unclosed(side, s'.stream)
  {
    hide Unclosed, S.Apply, S.Enabled;
    match event
    case Call(o) => PlacedTake(s.stream, o, side);
    case TakeStep => PlacedStep(s.stream, s.caller.o, side);
    case DropStep => PlacedStep(s.stream, s.caller.o, side);
    case LeaseStep(o) => PlacedStep(s.stream, o, side);
    case Other(e) => PlacedOther(s, e, side);
    case _ =>
  }

  /** Only its own steps move a call that is taking. */
  lemma TakingWaits(side: S.Side, s: State, event: Event, s': State)
    requires Unclosed(side, s.stream) && CallerPlaced(side, s) && Next(side, s, event, s')
    requires s.caller.Taking? && !event.TakeStep?
    ensures s'.caller == s.caller && CallerPlaced(side, s')
    ensures s'.stream.pcs[s.caller.o] == s.stream.pcs[s.caller.o]
  {
    hide Unclosed, S.Apply, S.Enabled, OfTake;
    match event
    case LeaseStep(o) => PlacedStep(s.stream, o, side);
    case Other(e) => PlacedOther(s, e, side);
    case _ =>
  }

  /** What each step of a taking call comes to. */
  lemma TakeStepMeans(side: S.Side, s: State, s': State)
    requires S.Inv(s.stream) && Unclosed(side, s.stream) && CallerPlaced(side, s) && Next(side, s, TakeStep, s')
    ensures CallerPlaced(side, s')
    ensures var o, pcs := s.caller.o, s.stream.pcs;
            && o in pcs && o in s'.stream.pcs
            && if pcs[o].TakeFlag? then
                 if S.FlagOwners(pcs, side) != {} then s'.caller == Refused(o)
                 else s'.caller == Taking(o) && s'.stream.pcs[o] == S.TakeSlot(side)
               else if pcs[o].TakeSlot? then
                 if S.PuttingBack(pcs, side) then s'.caller == Taking(o) && s'.stream.pcs[o] == S.TakeEmpty(side)
                 else s'.caller == Launching(o)
               else s'.caller == Refused(o)
  {
    var o := s.caller.o;
    hide S.Gauge, S.FlagOwners, S.PuttingBack, S.OnePlace, S.OneOwner, S.SpendSlot;
    if s.stream.pcs[o].TakeFlag? {
      S.FlagStepMeans(s.stream, o);
    } else if s.stream.pcs[o].TakeSlot? {
      S.SlotStepMeans(s.stream, o);
    }
  }

  lemma CallerPlacedKept(side: S.Side, s: State, event: Event, s': State)
    requires S.Inv(s.stream) && Unclosed(side, s.stream) && CallerPlaced(side, s) && Next(side, s, event, s')
    ensures CallerPlaced(side, s')
    ensures event.Call? ==> s'.caller == Taking(event.o) && s'.stream.pcs[event.o] == S.TakeFlag(side)
  {
    hide S.Inv, Unclosed, S.Apply, S.Enabled;
    if event.TakeStep? {
      TakeStepMeans(side, s, s');
    } else if s.caller.Taking? {
      TakingWaits(side, s, event, s');
    } else if event.Call? {
      PlacedTake(s.stream, event.o, side);
    }
  }

  lemma InitUnclosed(side: S.Side, s: State)
    requires Init(side, s)
    ensures Unclosed(side, s.stream) && CallerPlaced(side, s)
  {
  }

  lemma {:induction false} NeverClosed(side: S.Side, run: seq<State>, events: seq<Event>, i: nat)
    requires IsRun(side, run, events) && i < |run|
    ensures Unclosed(side, run[i].stream) && CallerPlaced(side, run[i])
    decreases i
  {
    hide Unclosed, CallerPlaced, Next, S.Inv, S.Init;
    if i == 0 {
      InitUnclosed(side, run[0]);
    } else {
      NeverClosed(side, run, events, i - 1);
      StepAt(side, run, events, i - 1);
      StreamInv(side, run, events, i - 1);
      UnclosedKept(side, run[i - 1], events[i - 1], run[i]);
      CallerPlacedKept(side, run[i - 1], events[i - 1], run[i]);
    }
  }

  ghost predicate AtStep(run: seq<State>, events: seq<Event>, k: nat)
    requires |run| == |events| + 1
  {
    k < |events| && events[k].TakeStep? && run[k].caller.Taking? && run[k].caller.o in run[k].stream.pcs
  }

  /** A call steps to the flag while an earlier one owns it: the half is busy. */
  ghost predicate FindsOwner(side: S.Side, run: seq<State>, events: seq<Event>, k: nat)
    requires |run| == |events| + 1
  {
    && AtStep(run, events, k) && run[k].stream.pcs[run[k].caller.o].TakeFlag?
    && S.FlagOwners(run[k].stream.pcs, side) != {}
  }

  /** A call steps to the slot while an earlier lease, its flag cleared, has yet to put the
      handle back: the half is unavailable. */
  ghost predicate FindsNothing(side: S.Side, run: seq<State>, events: seq<Event>, k: nat)
    requires |run| == |events| + 1
  {
    && AtStep(run, events, k) && run[k].stream.pcs[run[k].caller.o].TakeSlot?
    && S.PuttingBack(run[k].stream.pcs, side)
  }

  /** The call begun by event `b` is still taking up to state `k`. */
  ghost predicate TakingSince(run: seq<State>, events: seq<Event>, b: nat, k: nat)
    requires |run| == |events| + 1
  {
    b < k < |run| && events[b].Call? && forall m | b < m <= k :: run[m].caller == Taking(events[b].o)
  }

  ghost predicate MetOwner(side: S.Side, run: seq<State>, events: seq<Event>, b: nat, k: nat)
    requires |run| == |events| + 1
  {
    exists m :: b < m < k && FindsOwner(side, run, events, m)
  }

  ghost predicate MetNothing(side: S.Side, run: seq<State>, events: seq<Event>, b: nat, k: nat)
    requires |run| == |events| + 1
  {
    exists m :: b < m < k && FindsNothing(side, run, events, m)
  }

  lemma MetNext(side: S.Side, run: seq<State>, events: seq<Event>, b: nat, k: nat)
    requires |run| == |events| + 1 && b < k
    ensures MetOwner(side, run, events, b, k + 1)
            <==> MetOwner(side, run, events, b, k) || FindsOwner(side, run, events, k)
    ensures MetNothing(side, run, events, b, k + 1)
            <==> MetNothing(side, run, events, b, k) || FindsNothing(side, run, events, k)
  {
    hide FindsOwner, FindsNothing;
  }

  /** Where a call has got to tells what it has met. */
  lemma {:induction false} TakingTrace(side: S.Side, run: seq<State>, events: seq<Event>, b: nat, k: nat)
    requires IsRun(side, run, events) && TakingSince(run, events, b, k)
    ensures var o := events[b].o;
            && o in run[k].stream.pcs && OfTake(run[k].stream.pcs[o], side)
            && !MetOwner(side, run, events, b, k)
            && (MetNothing(side, run, events, b, k) <==> run[k].stream.pcs[o].TakeEmpty?)
    decreases k
  {
    hide Next, Unclosed, S.Inv, S.FlagOwners, S.PuttingBack;
    NeverClosed(side, run, events, k - 1);
    NeverClosed(side, run, events, k);
    StepAt(side, run, events, k - 1);
    StreamInv(side, run, events, k - 1);
    if k == b + 1 {
      CallerPlacedKept(side, run[b], events[b], run[k]);
    } else {
      TakingTrace(side, run, events, b, k - 1);
      MetNext(side, run, events, b, k - 1);
      if events[k - 1].TakeStep? {
        TakeStepMeans(side, run[k - 1], run[k]);
      } else {
        TakingWaits(side, run[k - 1], events[k - 1], run[k]);
      }
    }
  }

  /** Patient or not: of every call that has come to an end, it was refused exactly when it
      found the flag owned by an earlier one, or found the slot empty because an earlier one
      was still putting its handle back; otherwise it has its lease. */
  lemma RefusedIff(side: S.Side, run: seq<State>, events: seq<Event>, b: nat, j: nat)
    requires IsRun(side, run, events) && b < j - 1 && j < |run|
    requires TakingSince(run, events, b, j - 1) && run[j].caller != Taking(events[b].o)
    ensures run[j].caller == Refused(events[b].o)
            <==> MetOwner(side, run, events, b, j) || MetNothing(side, run, events, b, j)
    ensures run[j].caller == Refused(events[b].o) || run[j].caller == Launching(events[b].o)
  {
    hide Next, Unclosed, S.Inv, S.FlagOwners, S.PuttingBack;
    NeverClosed(side, run, events, j - 1);
    StepAt(side, run, events, j - 1);
    StreamInv(side, run, events, j - 1);
    TakingTrace(side, run, events, b, j - 1);
    MetNext(side, run, events, b, j - 1);
    if events[j - 1].TakeStep? {
      TakeStepMeans(side, run[j - 1], run[j]);
    } else {
      TakingWaits(side, run[j - 1], events[j - 1], run[j]);
    }
  }

  /** And a call always gets as far as the flag. */
  lemma CallBegins(side: S.Side, run: seq<State>, events: seq<Event>, b: nat)
    requires IsRun(side, run, events) && b < |events| && events[b].Call?
    ensures TakingSince(run, events, b, b + 1)
  {
    hide Unclosed, S.Inv, Next;
    NeverClosed(side, run, events, b);
    StepAt(side, run, events, b);
    StreamInv(side, run, events, b);
    CallerPlacedKept(side, run[b], events[b], run[b + 1]);
  }

  lemma Then(side: S.Side, run: seq<State>, events: seq<Event>, event: Event, next: State)
    returns (run': seq<State>, events': seq<Event>)
    requires IsRun(side, run, events) && Next(side, run[|events|], event, next)
    ensures IsRun(side, run', events') && |run'| == |events'| + 1
    ensures run'[|events'|] == next && events' == events + [event] && run' == run + [next]
  {
    hide Next;
    run', events' := run + [next], events + [event];
    forall i | 0 <= i < |events'|
      ensures Next(side, run'[i], events'[i], run'[i + 1])
    {
      if i < |events| {
        StepAt(side, run, events, i);
      }
    }
  }

  /** The stream of a lone sender with two threads. */
  ghost function Sending(slot: bool, busy: bool, first: S.Pc, second: S.Pc): S.State {
    var handle := if slot then Option.Some(5) else Option.None;
    S.Two(S.SendHalf(handle, busy, false, S.NO_ABORT, false, false), first, second)
  }

  lemma FirstTake() returns (run: seq<State>, events: seq<Event>)
    ensures IsRun(S.Send, run, events) && |run| == |events| + 1 && events == [Call(0)]
    ensures run[|events|] == State(Sending(true, false, S.TakeFlag(S.Send), S.Idle), O.State(0, map[]), Taking(0))
  {
    var start := State(Sending(true, false, S.Idle, S.Idle), O.State(0, map[]), Ready);
    run, events := [start], [];
    assert IsRun(S.Send, run, events);
    hide IsRun;
    var s := start.(stream := Sending(true, false, S.TakeFlag(S.Send), S.Idle), caller := Taking(0));
    run, events := Then(S.Send, run, events, Call(0), s);
  }

  lemma FirstLease() returns (run: seq<State>, events: seq<Event>)
    ensures IsRun(S.Send, run, events) && |run| == |events| + 1 && events == [Call(0), TakeStep, TakeStep]
    ensures run[|events|] == State(Sending(false, true, S.Leased(S.Send, 5, false), S.Idle),
                                   O.State(0, map[]), Launching(0))
  {
    hide IsRun;
    run, events := FirstTake();
    var s := run[|events|].(stream := Sending(true, true, S.TakeSlot(S.Send), S.Idle));
    run, events := Then(S.Send, run, events, TakeStep, s);
    s := s.(stream := Sending(false, true, S.Leased(S.Send, 5, false), S.Idle), caller := Launching(0));
    run, events := Then(S.Send, run, events, TakeStep, s);
  }

  /** The first call, up to the wait for its result. */
  lemma FirstCall() returns (run: seq<State>, events: seq<Event>)
    ensures IsRun(S.Send, run, events) && |run| == |events| + 1
    ensures events == [Call(0), TakeStep, TakeStep, CreateOperation]
    ensures run[|events|] == State(Sending(false, true, S.Leased(S.Send, 5, false), S.Idle),
                                   O.State(0, map[0 := O.NewOp(O.WithFuture)]), Waiting(0))
  {
    hide IsRun;
    run, events := FirstLease();
    var s := run[|events|].(native := O.State(0, map[0 := O.NewOp(O.WithFuture)]), caller := Waiting(0));
    run, events := Then(S.Send, run, events, CreateOperation, s);
  }

  /** Patience is needed: a caller that gives up on an operation still holding the half is
      refused when it calls again before the lease is dropped. */
  lemma GivingUpMeansBusy() returns (run: seq<State>, events: seq<Event>)
    ensures IsRun(S.Send, run, events) && run[|events|].caller == Refused(1)
    ensures events == [Call(0), TakeStep, TakeStep, CreateOperation, GiveUp, Call(1), TakeStep]
  {
    hide IsRun;
    run, events := FirstCall();
    var op := O.NewOp(O.WithFuture).(phase := O.Cancelled, notifyDue := true, wins := 1);
    var native := O.State(0, map[0 := op]);
    var leased := S.Leased(S.Send, 5, false);
    run, events := Then(S.Send, run, events, GiveUp, State(Sending(false, true, leased, S.Idle), native, Ready));
    var s := State(Sending(false, true, leased, S.TakeFlag(S.Send)), native, Taking(1));
    run, events := Then(S.Send, run, events, Call(1), s);
    run, events := Then(S.Send, run, events, TakeStep, State(Sending(false, true, leased, S.Idle), native, Refused(1)));
  }

  /** The caller gave up; its operation is told, and starts. */
  lemma CancelSeen() returns (run: seq<State>, events: seq<Event>)
    ensures IsRun(S.Send, run, events) && |run| == 8 && |events| == 7 && events[4] == GiveUp
    ensures run[7].stream == Sending(false, true, S.Leased(S.Send, 5, false), S.Idle) && run[7].caller == Ready
    ensures run[7].native.ops == map[0 := O.Op(O.WithFuture, O.Cancelled, false, true, O.Active, O.Selecting, [], 1)]
  {
    hide IsRun;
    run, events := FirstCall();
    var s := run[|events|];
    s := s.(native := O.Apply(s.native, O.Cancel(0)), caller := Ready);
    run, events := Then(S.Send, run, events, GiveUp, s);
    s := s.(native := O.Apply(s.native, O.NotifyCancelled(0)));
    run, events := Then(S.Send, run, events, Native(O.NotifyCancelled(0)), s);
    s := s.(native := O.Apply(s.native, O.Spawn(0)));
    run, events := Then(S.Send, run, events, Native(O.Spawn(0)), s);
  }

  lemma FutureUnwinds() returns (run: seq<State>, events: seq<Event>)
    ensures IsRun(S.Send, run, events) && |run| == 10 && |events| == 9 && events[4] == GiveUp
    ensures run[9].stream == Sending(false, true, S.Leased(S.Send, 5, false), S.Idle) && run[9].caller == Ready
    ensures run[9].native.ops.Keys == {0} && run[9].native.ops[0].future == O.Unwinding(O.Aborted)
  {
    hide IsRun;
    run, events := CancelSeen();
    var s := run[7];
    s := s.(native := O.Apply(s.native, O.SelectCancelled(0)));
    run, events := Then(S.Send, run, events, Native(O.SelectCancelled(0)), s);
    s := s.(native := O.Apply(s.native, O.FutureEnds(0, O.Aborted)));
    run, events := Then(S.Send, run, events, Native(O.FutureEnds(0, O.Aborted)), s);
  }

  /** The cancelled operation's future unwinds, and its lease has just cleared the flag. */
  lemma FlagCleared() returns (run: seq<State>, events: seq<Event>)
    ensures IsRun(S.Send, run, events) && |run| == 11 && |events| == 10 && events[4] == GiveUp
    ensures run[10].stream == Sending(false, false, S.DropTest(S.Send, 5, false), S.Idle)
    ensures run[10].caller == Ready && 1 !in run[10].native.ops
  {
    hide IsRun;
    run, events := FutureUnwinds();
    var s := run[9].(stream := Sending(false, false, S.DropTest(S.Send, 5, false), S.Idle));
    run, events := Then(S.Send, run, events, LeaseStep(0), s);
  }

  lemma FlagFound() returns (run: seq<State>, events: seq<Event>)
    ensures IsRun(S.Send, run, events) && |run| == 12 && |events| == 11 && events[4] == GiveUp && events[10] == Call(1)
    ensures run[11].stream == Sending(false, false, S.DropTest(S.Send, 5, false), S.TakeFlag(S.Send))
    ensures run[11].caller == Taking(1)
  {
    hide IsRun;
    run, events := FlagCleared();
    var s := run[|events|].(stream := Sending(false, false, S.DropTest(S.Send, 5, false), S.TakeFlag(S.Send)),
                            caller := Taking(1));
    run, events := Then(S.Send, run, events, Call(1), s);
  }

  lemma FlagWon() returns (run: seq<State>, events: seq<Event>)
    ensures IsRun(S.Send, run, events) && |run| == 13 && |events| == 12
    ensures events[4] == GiveUp && events[10] == Call(1) && events[11] == TakeStep && run[11].caller == Taking(1)
    ensures run[11].stream == Sending(false, false, S.DropTest(S.Send, 5, false), S.TakeFlag(S.Send))
    ensures run[12].stream == Sending(false, true, S.DropTest(S.Send, 5, false), S.TakeSlot(S.Send))
    ensures run[12].caller == Taking(1)
  {
    hide IsRun;
    run, events := FlagFound();
    var s := run[11].(stream := Sending(false, true, S.DropTest(S.Send, 5, false), S.TakeSlot(S.Send)));
    run, events := Then(S.Send, run, events, TakeStep, s);
  }

  lemma NobodyOwns()
    ensures S.FlagOwners(Sending(false, false, S.DropTest(S.Send, 5, false), S.TakeFlag(S.Send)).pcs, S.Send) == {}
  {
  }

  /** It may even find the flag free and still be refused, as unavailable: a lease clears its
      flag before it puts the handle back. */
  lemma GivingUpMeansUnavailable() returns (run: seq<State>, events: seq<Event>)
    ensures IsRun(S.Send, run, events) && |run| == 15 && |events| == 14
    ensures events[4] == GiveUp && events[10] == Call(1) && events[11] == events[12] == events[13] == TakeStep
    ensures run[11].caller == Taking(1) && run[11].stream.pcs.Keys == {0, 1}
    ensures run[11].stream.pcs[1] == S.TakeFlag(S.Send) && S.FlagOwners(run[11].stream.pcs, S.Send) == {}
    ensures run[14].caller == Refused(1)
  {
    hide IsRun, S.FlagOwners;
    NobodyOwns();
    run, events := FlagWon();
    var drop := S.DropTest(S.Send, 5, false);
    var s := run[12].(stream := Sending(false, true, drop, S.TakeEmpty(S.Send)));
    run, events := Then(S.Send, run, events, TakeStep, s);
    s := s.(stream := Sending(false, false, drop, S.Idle), caller := Refused(1));
    run, events := Then(S.Send, run, events, TakeStep, s);
  }
}
