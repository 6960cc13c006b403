/** The life of a native operation: `OperationResource` in `native/iroh_beam_nif/src/lib.rs`
    and `start_endpoint_operation` in `endpoint.rs`, for any number of operations, cancellers
    and owners going down at once. */
module Operation {
  import opened Numbers
  import opened Options
  import opened Sums

  type OpId(!new, ==) = nat

  datatype Phase = Running | Completed | Cancelled

  /** What a caller of `operation_start` asks for. */
  datatype Asked = AskedOk | AskedError | AskedPanic

  /** `operation_start` sleeps itself; the others run a future. */
  datatype Kind = Smoke(asked: Asked) | WithFuture

  /** How a future ends: with a result of its own, `Ok` or `Err`, or without one. */
  datatype Outcome = Finished(value: nat) | Panicked | Aborted

  /** While `Active` or `Unwinding` a future owns its lease, permit and queue guard; they are
      dropped before its join resolves. */
  datatype Future = Absent | Active | Unwinding(outcome: Outcome) | Gone(outcome: Outcome)

  /** The task that supervises the future, by its next step. */
  datatype Supervisor =
    | Unspawned
    | Selecting
    | Aborting
    | Deciding(result: Option<Outcome>)
    | Sending(result: Option<Outcome>)
    | Demonitoring
    | CountingDown
    | Ended

  /** What the caller is told. `CancelledMessage` stands for the error built when the
      selection was won by the cancellation. */
  datatype Message = Result(value: nat) | SmokeCompleted | SmokeFailure | InternalError | CancelledMessage

  /** `notifyDue` is a canceller between its exchange and its notification, `permit` the
      stored notification; `sent` and `wins` are history: the messages sent, and the calls
      of `cancel` that returned true. */
  datatype Op = Op(kind: Kind, phase: Phase, notifyDue: bool, permit: bool, future: Future,
                   supervisor: Supervisor, sent: seq<Message>, wins: nat)

  /** `active` is ACTIVE_OPERATIONS. */
  datatype State = State(active: nat, ops: map<OpId, Op>)

  datatype Event =
    | Create(o: OpId, kind: Kind)
    | Spawn(o: OpId)
    | Cancel(o: OpId)
    | NotifyCancelled(o: OpId)
    | FutureEnds(o: OpId, outcome: Outcome)
    | FutureGone(o: OpId)
    | SelectJoined(o: OpId)
    | SelectTimer(o: OpId)
    | SelectCancelled(o: OpId)
    | AwaitAborted(o: OpId)
    | Decide(o: OpId)
    | Send(o: OpId)
    | Demonitor(o: OpId)
    | CountDown(o: OpId)

  function MessageFor(kind: Kind, result: Option<Outcome>): Message {
    match kind
    case Smoke(AskedOk) => SmokeCompleted
    case Smoke(AskedError) => SmokeFailure
    case Smoke(AskedPanic) => InternalError
    case WithFuture =>
      match result
      case Some(Finished(value)) => Result(value)
      case Some(_) => InternalError
      case None => CancelledMessage
  }

  ghost predicate OpEnabled(op: Op, event: Event) {
    match event
    case Create(_, _) => false
    case Spawn(_) => op.supervisor.Unspawned?
    case Cancel(_) => true
    case NotifyCancelled(_) => op.notifyDue
    case FutureEnds(_, outcome) => op.future.Active? && (outcome.Aborted? ==> op.supervisor.Aborting?)
    case FutureGone(_) => op.future.Unwinding?
    case SelectJoined(_) => op.supervisor.Selecting? && op.future.Gone?
    case SelectTimer(_) => op.supervisor.Selecting? && op.kind.Smoke?
    case SelectCancelled(_) => op.supervisor.Selecting? && op.permit
    case AwaitAborted(_) => op.supervisor.Aborting? && op.future.Gone?
    case Decide(_) => op.supervisor.Deciding?
    case Send(_) => op.supervisor.Sending?
    case Demonitor(_) => op.supervisor.Demonitoring?
    case CountDown(_) => op.supervisor.CountingDown?
  }

  ghost function OpStep(op: Op, event: Event): Op
    requires OpEnabled(op, event)
  {
    match event
    case Spawn(_) => op.(supervisor := Selecting, future := if op.kind.Smoke? then Absent else Active)
    case Cancel(_) => if op.phase.Running? then op.(phase := Cancelled, notifyDue := true, wins := op.wins + 1) else op
    case NotifyCancelled(_) => op.(notifyDue := false, permit := true)
    case FutureEnds(_, outcome) => op.(future := Unwinding(outcome))
    case FutureGone(_) => op.(future := Gone(op.future.outcome))
    case SelectJoined(_) => op.(supervisor := Deciding(Some(op.future.outcome)))
    case SelectTimer(_) => op.(supervisor := Deciding(Some(Finished(0))))
    case SelectCancelled(_) =>
      op.(permit := false, supervisor := if op.kind.Smoke? then Deciding(None) else Aborting)
    case AwaitAborted(_) => op.(supervisor := Deciding(None))
    case Decide(_) =>
      if op.phase.Running? then op.(phase := Completed, supervisor := Sending(op.supervisor.result))
      else op.(supervisor := Demonitoring)
    case Send(_) => op.(sent := op.sent + [MessageFor(op.kind, op.supervisor.result)], supervisor := Demonitoring)
    case Demonitor(_) => op.(supervisor := CountingDown)
    case CountDown(_) => op.(supervisor := Ended)
  }

  function NewOp(kind: Kind): Op {
    Op(kind, Running, false, false, Absent, Unspawned, [], 0)
  }

  ghost predicate Enabled(s: State, event: Event) {
    if event.Create? then event.o !in s.ops else event.o in s.ops && OpEnabled(s.ops[event.o], event)
  }

  ghost function Apply(s: State, event: Event): State
    requires Enabled(s, event)
  {
    if event.Create? then s.(ops := s.ops[event.o := NewOp(event.kind)])
    else
      State(if event.Spawn? then s.active + 1 else if event.CountDown? then Minus(s.active, 1) else s.active,
            s.ops[event.o := OpStep(s.ops[event.o], event)])
  }

  ghost predicate Next(s: State, event: Event, s': State) {
    Enabled(s, event) && s' == Apply(s, event)
  }

  ghost predicate IsRun(run: seq<State>, events: seq<Event>) {
    && |run| == |events| + 1
    && run[0] == State(0, map[])
    && forall i | 0 <= i < |events| :: Next(run[i], events[i], run[i + 1])
  }

  // ----- the invariant

  /** The future, if there was one, has been dropped with everything it owned. */
  ghost predicate Released(op: Op) {
    op.future.Absent? || op.future.Gone?
  }

  ghost predicate Decided(op: Op) {
    op.supervisor.Sending? || op.supervisor.Demonitoring? || op.supervisor.CountingDown? || op.supervisor.Ended?
  }

  ghost predicate OpInv(op: Op) {
    && op.wins == (if op.phase.Cancelled? then 1 else 0)
    && (op.notifyDue || op.permit || op.supervisor.Aborting? ==> op.phase.Cancelled?)
    && (op.supervisor.Unspawned? ==> op.future.Absent?)
    && (op.supervisor.Aborting? ==> !op.future.Absent?)
    && (op.kind.WithFuture? && op.supervisor.Selecting? ==> !op.future.Absent?)
    && (op.kind.Smoke? ==> op.future.Absent? && !op.supervisor.Aborting?)
    && (op.supervisor.Deciding? || Decided(op) ==> Released(op))
    && (op.supervisor.Deciding? && op.supervisor.result.None? ==> op.phase.Cancelled?)
    && (op.supervisor.Deciding? && op.supervisor.result.Some? && op.kind.WithFuture? ==>
          op.future == Gone(op.supervisor.result.value))
    && (op.phase.Completed? ==> Decided(op))
    && (Decided(op) ==> !op.phase.Running?)
    && (op.supervisor.Sending? ==>
          && op.phase.Completed? && op.sent == [] && op.supervisor.result.Some?
          && (op.kind.WithFuture? ==> op.future == Gone(op.supervisor.result.value)))
    && (op.phase.Completed? && !op.supervisor.Sending? ==>
          && |op.sent| == 1
          && (op.kind.WithFuture? ==> op.future.Gone? && op.sent[0] == MessageFor(WithFuture, Some(op.future.outcome))))
    && (op.phase.Completed? && !op.supervisor.Sending? && op.kind.Smoke? ==> op.sent == [MessageFor(op.kind, None)])
    && (!op.phase.Completed? ==> op.sent == [])
    && ((op.future.Unwinding? || op.future.Gone?) && op.future.outcome.Aborted? ==> op.phase.Cancelled?)
  }

  /** One for an operation whose supervising task has started and not ended. */
  ghost function Task(op: Op): nat {
    if op.supervisor.Unspawned? || op.supervisor.Ended? then 0 else 1
  }

  ghost function Tasks(ops: map<OpId, Op>): map<OpId, nat> {
    map o | o in ops :: Task(ops[o])
  }

  ghost predicate Inv(s: State) {
    && (forall o <- s.ops :: OpInv(s.ops[o]))
    && s.active == Sum(Tasks(s.ops))
  }

  lemma OpPreserved(op: Op, event: Event)
    requires OpInv(op) && OpEnabled(op, event)
    ensures OpInv(OpStep(op, event))
    ensures Task(OpStep(op, event)) == Task(op) + (if event.Spawn? then 1 else 0) - (if event.CountDown? then 1 else 0)
  {
  }

  lemma Preserved(s: State, event: Event)
    requires Inv(s) && Enabled(s, event)
    ensures Inv(Apply(s, event))
  {
    var o, s' := event.o, Apply(s, event);
    if !event.Create? {
      OpPreserved(s.ops[o], event);
    }
    SumSet(Tasks(s.ops), o, Task(s'.ops[o]));
    assert Tasks(s'.ops) == Tasks(s.ops)[o := Task(s'.ops[o])];
  }

  lemma {:induction false} EveryState(run: seq<State>, events: seq<Event>, i: nat)
    requires IsRun(run, events) && i < |run|
    ensures Inv(run[i])
    decreases i
  {
    if i == 0 {
      SumOfZeros(Tasks(run[0].ops));
    } else {
      EveryState(run, events, i - 1);
      assert Next(run[i - 1], events[i - 1], run[i - 1 + 1]);
      Preserved(run[i - 1], events[i - 1]);
    }
  }

  /** What later steps never undo: an operation exists, keeps how it ended, keeps what was
      sent, and keeps its future dropped. */
  ghost predicate Settled(op: Op, op': Op) {
    && (!op.phase.Running? ==> op'.phase == op.phase)
    && op.sent <= op'.sent
    && (op.future.Gone? ==> op'.future == op.future)
  }

  lemma {:induction false} RunSettles(run: seq<State>, events: seq<Event>, i: nat, j: nat, o: OpId)
    requires IsRun(run, events) && i <= j < |run| && o in run[i].ops
    ensures o in run[j].ops && Settled(run[i].ops[o], run[j].ops[o])
    decreases j - i
  {
    if i < j {
      RunSettles(run, events, i, j - 1, o);
      EveryState(run, events, j - 1);
      assert Next(run[j - 1], events[j - 1], run[j - 1 + 1]);
      assert OpInv(run[j - 1].ops[o]);
    }
  }

  // ----- the promises

  /** Of completion and cancellation one wins: an operation that has ended was completed and
      sent one message, or was cancelled by one caller and sent none. */
  lemma OneOutcome(run: seq<State>, events: seq<Event>, i: nat, o: OpId)
    requires IsRun(run, events) && i < |run| && o in run[i].ops
    ensures var op := run[i].ops[o];
            && |op.sent| <= 1 && op.wins <= 1
            && (op.sent != [] ==> op.phase.Completed?)
            && (op.wins == 1 <==> op.phase.Cancelled?)
            && (op.supervisor.Ended? ==>
                  if op.phase.Completed? then |op.sent| == 1 && op.wins == 0
                  else op.phase.Cancelled? && op.sent == [] && op.wins == 1)
  {
    EveryState(run, events, i);
    assert OpInv(run[i].ops[o]);
  }

  /** A cancellation that returned true is never followed, nor was it preceded, by a
      message; and after a message every cancellation returns false. */
  lemma CancelSilences(run: seq<State>, events: seq<Event>, i: nat, j: nat, o: OpId)
    requires IsRun(run, events) && i < |events| && events[i] == Cancel(o) && j < |run| && o in run[j].ops
    ensures o in run[i].ops
    ensures run[i].ops[o].phase.Running? ==> run[j].ops[o].sent == []
    ensures j <= i && run[j].ops[o].sent != [] ==> !run[i].ops[o].phase.Running?
  {
    assert Next(run[i], events[i], run[i + 1]);
    EveryState(run, events, j);
    assert OpInv(run[j].ops[o]);
    if j <= i {
      RunSettles(run, events, j, i, o);
    } else {
      RunSettles(run, events, i + 1, j, o);
    }
  }

  /** Release before reply: when a message goes out, and ever after, the future is gone with
      its lease, permit and queue guard. */
  lemma ReleasedBeforeReply(run: seq<State>, events: seq<Event>, i: nat, o: OpId)
    requires IsRun(run, events) && i < |run| && o in run[i].ops
    ensures var op := run[i].ops[o];
            op.sent != [] || op.supervisor.Sending? ==>
              Released(op) && (op.kind.WithFuture? ==> op.future.Gone?)
  {
    EveryState(run, events, i);
    assert OpInv(run[i].ops[o]);
  }

  /** What the caller is told is what the future came to, and an internal error only when it
      panicked; a smoke operation tells what was asked of it. */
  lemma TellsTheOutcome(run: seq<State>, events: seq<Event>, i: nat, o: OpId)
    requires IsRun(run, events) && i < |run| && o in run[i].ops && run[i].ops[o].sent != []
    ensures var op := run[i].ops[o];
            match op.kind
            case Smoke(AskedOk) => op.sent == [SmokeCompleted]
            case Smoke(AskedError) => op.sent == [SmokeFailure]
            case Smoke(AskedPanic) => op.sent == [InternalError]
            case WithFuture =>
              match op.future
              case Gone(Finished(v)) => op.sent == [Result(v)]
              case Gone(Panicked) => op.sent == [InternalError]
              case _ => false
  {
    EveryState(run, events, i);
    assert OpInv(run[i].ops[o]);
  }

  /** The error prepared for a selection won by the cancellation is never sent: by then the
      exchange to completed is bound to fail. */
  lemma CancelledMessageUnreachable(run: seq<State>, events: seq<Event>, i: nat, o: OpId)
    requires IsRun(run, events) && i < |run| && o in run[i].ops
    ensures var op := run[i].ops[o];
            (op.supervisor.Sending? ==> op.supervisor.result.Some?)
            && (op.kind.WithFuture? ==> CancelledMessage !in op.sent)
  {
    EveryState(run, events, i);
    assert OpInv(run[i].ops[o]);
  }

  /** ACTIVE_OPERATIONS is the number of supervising tasks begun and not ended, and is
      positive whenever one counts itself out. */
  lemma ActiveCountsTasks(run: seq<State>, events: seq<Event>, i: nat)
    requires IsRun(run, events) && i < |run|
    ensures run[i].active == Sum(Tasks(run[i].ops))
    ensures forall o <- run[i].ops :: run[i].ops[o].supervisor.CountingDown? ==> run[i].active >= 1
  {
    EveryState(run, events, i);
    forall o <- run[i].ops | run[i].ops[o].supervisor.CountingDown?
      ensures run[i].active >= 1
    {
      SumSet(Tasks(run[i].ops), o, 0);
    }
  }

  // ----- every operation can end

  /** How many of its own steps an operation has at most before it. */
  ghost function StepsLeft(op: Op): nat {
    (match op.supervisor
     case Unspawned => 10
     case Selecting => 6
     case Aborting => 5
     case Deciding(_) => 4
     case Sending(_) => 3
     case Demonitoring => 2
     case CountingDown => 1
     case Ended => 0)
    + match op.future case Active => 2 case Unwinding(_) => 1 case _ => 0
  }

  /** A step of the operation's own tasks, not of those that cancel it. */
  ghost predicate OwnStep(event: Event) {
    !event.Create? && !event.Cancel? && !event.NotifyCancelled?
  }

  /** An operation that has not ended is never stuck: some step of its own is possible. Each
      such step brings the end closer, and nothing else moves it away, so it ends unless it
      stops taking steps. Once told of a cancellation it need not wait for its future. */
  lemma NeverStuck(run: seq<State>, events: seq<Event>, i: nat, o: OpId)
    requires IsRun(run, events) && i < |run| && o in run[i].ops
    ensures !run[i].ops[o].supervisor.Ended? ==> exists e: Event :: e.o == o && OwnStep(e) && Enabled(run[i], e)
    ensures run[i].ops[o].supervisor.Selecting? && run[i].ops[o].permit ==> Enabled(run[i], SelectCancelled(o))
    ensures run[i].ops[o].supervisor.Aborting? && run[i].ops[o].future.Active? ==>
              Enabled(run[i], FutureEnds(o, Aborted))
    ensures i < |events| ==>
              && o in run[i + 1].ops
              && StepsLeft(run[i + 1].ops[o]) + (if events[i].o == o && OwnStep(events[i]) then 1 else 0)
                 <= StepsLeft(run[i].ops[o])
  {
    EveryState(run, events, i);
    var op := run[i].ops[o];
    assert OpInv(op);
    if !op.supervisor.Ended? {
      var e := StepOf(op, o);
      assert e.o == o && OwnStep(e) && Enabled(run[i], e);
    }
    if i < |events| {
      assert Next(run[i], events[i], run[i + 1]);
      if events[i].o == o {
        StepCloser(op, events[i]);
      }
    }
  }

  lemma StepOf(op: Op, o: OpId) returns (e: Event)
    requires OpInv(op) && !op.supervisor.Ended?
    ensures e.o == o && OwnStep(e) && OpEnabled(op, e)
  {
    match op.supervisor
    case Unspawned => e := Spawn(o);
    case Selecting =>
      e := if op.kind.Smoke? then SelectTimer(o) else
           match op.future
           case Active => FutureEnds(o, Panicked)
           case Unwinding(_) => FutureGone(o)
           case _ => SelectJoined(o);
    case Aborting =>
      e := match op.future
           case Active => FutureEnds(o, Aborted)
           case Unwinding(_) => FutureGone(o)
           case _ => AwaitAborted(o);
    case Deciding(_) => e := Decide(o);
    case Sending(_) => e := Send(o);
    case Demonitoring => e := Demonitor(o);
    case CountingDown => e := CountDown(o);
  }

  lemma StepCloser(op: Op, event: Event)
    requires OpInv(op) && OpEnabled(op, event)
    ensures StepsLeft(OpStep(op, event)) + (if OwnStep(event) then 1 else 0) <= StepsLeft(op)
  {
  }
}
