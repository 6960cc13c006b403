/** Who holds the two halves of a native stream, under any interleaving:
    `native/iroh_beam_nif/src/stream.rs`. One step is one atomic operation or one locked
    section; the threads are those of any finite set. */
module StreamOwnership {
  import opened Options

  type Tid(!new, ==) = nat
  type Handle(!new, ==) = nat

  datatype Side = Send | Recv

  const NO_ABORT: nat := 0xFFFF_FFFF_FFFF_FFFF
  const MAX_ABORT_CODE: nat := 0x3FFF_FFFF_FFFF_FFFF

  /** The shared fields of one half. `origin`, `spent`, `signalled` and `latePut` are history:
      the handle the stream was made with, the handles reset, finished or dropped, whether
      an abort has notified, and whether a lease put its handle back after the close. */
  datatype Half = Half(slot: Option<Handle>, busy: bool, closed: bool, code: nat, permit: bool,
                       origin: Option<Handle>, spent: multiset<Handle>, signalled: bool, latePut: bool)

  /** What a thread still has to do after the current call. */
  datatype Task = Request(side: Side, code: nat) | CloseCall | CountDown

  /** The next atomic step of a thread. */
  datatype Pc =
    | Idle
    // take_send / take_recv, after the closed test
    | TakeFlag(side: Side)
    | TakeSlot(side: Side)
    | TakeEmpty(side: Side)
    // a lease, and its drop: busy is cleared first, then the closed flag read, then the slot filled
    | Leased(side: Side, handle: Handle, woken: bool)
    | DropTest(side: Side, handle: Handle, woken: bool)
    | DropPut(side: Side, handle: Handle)
    // request_reset / request_stop
    | AbortCode(side: Side, code: nat, todo: seq<Task>)
    | AbortFlag(side: Side, todo: seq<Task>)
    | AbortNotify(side: Side, todo: seq<Task>)
    | AbortTake(side: Side, todo: seq<Task>)
    // stream_finish, after the busy test
    | FinishFlag
    | FinishTake
    // StreamResource::close
    | CloseSwap(todo: seq<Task>)
    | CloseCount(todo: seq<Task>)

  /** `wins` counts the calls of `close` that returned true, `counted` the decrements of the
      active-stream gauge. */
  datatype State = State(send: Half, recv: Half, released: bool, freed: bool,
                         wins: nat, counted: nat, pcs: map<Tid, Pc>)

  /** The calls a thread can make. */
  datatype Call = Take(side: Side) | Finish | Abort(side: Side, code: nat) | AbortBoth(code: nat) | CloseStream

  datatype Event =
    | Begin(t: Tid, call: Call)
    | Step(t: Tid)
    | Wake(t: Tid)
    | Free

  function HalfOf(s: State, side: Side): Half {
    match side case Send => s.send case Recv => s.recv
  }

  function WithHalf(s: State, side: Side, half: Half): State {
    match side case Send => s.(send := half) case Recv => s.(recv := half)
  }

  function Continue(todo: seq<Task>): Pc {
    if todo == [] then Idle
    else
      match todo[0]
      case Request(side, code) => AbortCode(side, code, todo[1..])
      case CloseCall => CloseSwap(todo[1..])
      case CountDown => CloseCount(todo[1..])
  }

  /** The first read of each call, where it has one, decides whether it goes on. */
  function Entry(s: State, call: Call): Pc {
    match call
    case Take(side) => if HalfOf(s, side).closed then Idle else TakeFlag(side)
    case Finish => if s.send.busy then Idle else FinishFlag
    case Abort(side, code) => AbortCode(side, code, [])
    case AbortBoth(code) => AbortCode(Send, code, [Request(Recv, code), CloseCall])
    case CloseStream => CloseSwap([])
  }

  function Spend(half: Half, handle: Handle): Half {
    half.(spent := half.spent + multiset{handle})
  }

  /** Taking what is in the slot, to reset, stop or finish it. */
  function SpendSlot(half: Half): Half {
    match half.slot case None => half case Some(handle) => Spend(half.(slot := None), handle)
  }

  /** The effect of a thread's next step on the half it works on, and the step after it. */
  function HalfStep(half: Half, pc: Pc): (Half, Pc)
    requires !pc.Idle? && !pc.CloseSwap? && !pc.CloseCount?
  {
    match pc
    case TakeFlag(side) => if half.busy then (half, Idle) else (half.(busy := true), TakeSlot(side))
    case TakeSlot(side) =>
      (match half.slot
       case None => (half, TakeEmpty(side))
       case Some(handle) => (half.(slot := None), Leased(side, handle, false)))
    case TakeEmpty(_) => (half.(busy := false), Idle)
    case Leased(side, handle, woken) => (half.(busy := false), DropTest(side, handle, woken))
    case DropTest(side, handle, _) => if half.closed then (Spend(half, handle), Idle) else (half, DropPut(side, handle))
    case DropPut(_, handle) => (half.(slot := Some(handle), latePut := half.latePut || half.closed), Idle)
    case AbortCode(side, code, todo) => (half.(code := code), AbortFlag(side, todo))
    case AbortFlag(side, todo) => (half.(closed := true), AbortNotify(side, todo))
    case AbortNotify(side, todo) => (half.(permit := true, signalled := true), AbortTake(side, todo))
    case AbortTake(_, todo) => (SpendSlot(half), Continue(todo))
    case FinishFlag => (half.(closed := true), FinishTake)
    case FinishTake => (SpendSlot(half), Idle)
  }

  function SideOf(pc: Pc): Side
    requires !pc.Idle? && !pc.CloseSwap? && !pc.CloseCount?
  {
    if pc.FinishFlag? || pc.FinishTake? then Send else pc.side
  }

  function ThreadStep(s: State, t: Tid): State
    requires t in s.pcs && !s.pcs[t].Idle?
  {
    var pc := s.pcs[t];
    if pc.CloseSwap? then
      if s.released then s.(pcs := s.pcs[t := Continue(pc.todo)])
      else s.(released := true, wins := s.wins + 1,
              pcs := s.pcs[t := AbortCode(Send, 0, [Request(Recv, 0), CountDown] + pc.todo)])
    else if pc.CloseCount? then
      s.(counted := s.counted + 1, pcs := s.pcs[t := Continue(pc.todo)])
    else
      var r := HalfStep(HalfOf(s, SideOf(pc)), pc);
      WithHalf(s, SideOf(pc), r.0).(pcs := s.pcs[t := r.1])
  }

  /** The operation holding a lease is woken by the half's notification. */
  function WakeStep(s: State, t: Tid): State
    requires t in s.pcs && s.pcs[t].Leased?
  {
    var pc := s.pcs[t];
    WithHalf(s, pc.side, HalfOf(s, pc.side).(permit := false))
    .(pcs := s.pcs[t := Leased(pc.side, pc.handle, true)])
  }

  ghost predicate ValidCall(call: Call) {
    call.Abort? || call.AbortBoth? ==> call.code <= MAX_ABORT_CODE
  }

  ghost predicate Enabled(s: State, event: Event) {
    && !s.freed
    && match event
       case Begin(t, call) => t in s.pcs && s.pcs[t].Idle? && ValidCall(call)
       case Step(t) => t in s.pcs && !s.pcs[t].Idle?
       case Wake(t) => t in s.pcs && s.pcs[t].Leased? && !s.pcs[t].woken && HalfOf(s, s.pcs[t].side).permit
       case Free => s.released && forall t <- s.pcs :: s.pcs[t].Idle?
  }

  /** `Free` is the end of the resource: `close` has run in its drop, no lease refers to it
      any more, and what is left in the slots goes with it. */
  ghost function Apply(s: State, event: Event): State
    requires Enabled(s, event)
  {
    match event
    case Begin(t, call) => s.(pcs := s.pcs[t := Entry(s, call)])
    case Step(t) => ThreadStep(s, t)
    case Wake(t) => WakeStep(s, t)
    case Free => s.(freed := true, send := SpendSlot(s.send), recv := SpendSlot(s.recv))
  }

  ghost predicate Next(s: State, event: Event, s': State) {
    Enabled(s, event) && s' == Apply(s, event)
  }

  ghost predicate FreshHalf(half: Half) {
    half == Half(half.origin, false, false, NO_ABORT, false, half.origin, multiset{}, false, false)
  }

  ghost predicate Init(s: State) {
    && FreshHalf(s.send) && FreshHalf(s.recv)
    && !s.released && !s.freed && s.wins == 0 && s.counted == 0
    && forall t <- s.pcs :: s.pcs[t].Idle?
  }

  ghost predicate IsRun(run: seq<State>, events: seq<Event>) {
    && |run| == |events| + 1
    && Init(run[0])
    && forall i | 0 <= i < |events| :: Next(run[i], events[i], run[i + 1])
  }

  // ----- where a handle is

  ghost predicate Holds(pc: Pc, side: Side) {
    (pc.Leased? || pc.DropTest? || pc.DropPut?) && pc.side == side
  }

  ghost predicate OwnsFlag(pc: Pc, side: Side) {
    (pc.TakeSlot? || pc.TakeEmpty? || pc.Leased?) && pc.side == side
  }

  /** The threads holding a handle of this side, and which. */
  ghost function Held(pcs: map<Tid, Pc>, side: Side): map<Tid, Handle> {
    map t | t in pcs && Holds(pcs[t], side) :: pcs[t].handle
  }

  ghost function FlagOwners(pcs: map<Tid, Pc>, side: Side): set<Tid> {
    set t | t in pcs && OwnsFlag(pcs[t], side)
  }

  /** The handle of a side is in the slot, with exactly one thread, or spent once. */
  ghost predicate OnePlace(half: Half, held: map<Tid, Handle>) {
    match half.origin
    case None => half.slot == None && held == map[] && half.spent == multiset{}
    case Some(handle) =>
      || (half.slot == Some(handle) && held == map[] && half.spent == multiset{})
      || (half.slot == None && half.spent == multiset{} && exists t :: t in held && held == map[t := handle])
      || (half.slot == None && half.spent == multiset{handle} && held == map[])
  }

  /** A true busy flag has exactly one owner, a false one none. */
  ghost predicate OneOwner(busy: bool, owners: set<Tid>) {
    if busy then exists t :: owners == {t} else owners == {}
  }

  ghost predicate Linear(s: State, side: Side) {
    OnePlace(HalfOf(s, side), Held(s.pcs, side)) && OneOwner(HalfOf(s, side).busy, FlagOwners(s.pcs, side))
  }

  /** What one thread's move does to the holders and the flag owners of a side. */
  lemma Moved(pcs: map<Tid, Pc>, t: Tid, pc: Pc, side: Side)
    requires t in pcs
    ensures Held(pcs[t := pc], side) ==
            if Holds(pc, side) then Held(pcs, side)[t := pc.handle] else Held(pcs, side) - {t}
    ensures FlagOwners(pcs[t := pc], side) == FlagOwners(pcs, side) - {t} + if OwnsFlag(pc, side) then {t} else {}
    ensures t in Held(pcs, side) <==> Holds(pcs[t], side)
    ensures t in FlagOwners(pcs, side) <==> OwnsFlag(pcs[t], side)
  {
  }

  ghost predicate OnHalf(pc: Pc) {
    !pc.Idle? && !pc.CloseSwap? && !pc.CloseCount?
  }

  lemma HolderOnePlace(half: Half, pc: Pc, t: Tid, held: map<Tid, Handle>)
    requires OnHalf(pc) && OnePlace(half, held) && Holds(pc, SideOf(pc)) && t in held && held[t] == pc.handle
    ensures var (half', pc') := HalfStep(half, pc);
            OnePlace(half', if Holds(pc', SideOf(pc)) then held[t := pc'.handle] else held - {t})
  {
    assert held == map[t := pc.handle];
    assert held - {t} == map[];
  }

  lemma OtherOnePlace(half: Half, pc: Pc, t: Tid, held: map<Tid, Handle>)
    requires OnHalf(pc) && OnePlace(half, held) && !Holds(pc, SideOf(pc)) && !pc.TakeSlot?
    ensures OnePlace(HalfStep(half, pc).0, held) && !Holds(HalfStep(half, pc).1, SideOf(pc))
  {
  }

  lemma HalfStepOnePlace(half: Half, pc: Pc, t: Tid, held: map<Tid, Handle>)
    requires OnHalf(pc) && OnePlace(half, held)
    requires t in held <==> Holds(pc, SideOf(pc))
    requires Holds(pc, SideOf(pc)) ==> held[t] == pc.handle
    ensures var (half', pc') := HalfStep(half, pc);
            OnePlace(half', if Holds(pc', SideOf(pc)) then held[t := pc'.handle] else held - {t})
  {
    if Holds(pc, SideOf(pc)) {
      HolderOnePlace(half, pc, t, held);
    } else {
      assert held - {t} == held;
      if pc.TakeSlot? {
        if half.slot.Some? {
          assert held[t := half.slot.value] == map[t := half.slot.value];
        }
      } else {
        OtherOnePlace(half, pc, t, held);
      }
    }
  }

  lemma HalfStepOneOwner(half: Half, pc: Pc, t: Tid, owners: set<Tid>)
    requires OnHalf(pc) && OneOwner(half.busy, owners)
    requires t in owners <==> OwnsFlag(pc, SideOf(pc))
    ensures var (half', pc') := HalfStep(half, pc);
            OneOwner(half'.busy, owners - {t} + if OwnsFlag(pc', SideOf(pc)) then {t} else {})
  {
    var (half', pc') := HalfStep(half, pc);
    if OwnsFlag(pc, SideOf(pc)) {
      assert owners == {t};
      assert owners - {t} == {};
    } else {
      assert owners - {t} == owners;
    }
    if OwnsFlag(pc', SideOf(pc)) {
      assert owners - {t} + {t} == {t};
    } else {
      assert owners - {t} + {} == owners - {t};
    }
  }

  /** A thread's step on a half, for that half. */
  lemma StepLinearHere(s: State, t: Tid, side: Side)
    requires t in s.pcs && OnHalf(s.pcs[t]) && SideOf(s.pcs[t]) == side && Linear(s, side)
    ensures Linear(ThreadStep(s, t), side)
  {
    var s' := ThreadStep(s, t);
    Moved(s.pcs, t, s'.pcs[t], side);
    HalfStepOnePlace(HalfOf(s, side), s.pcs[t], t, Held(s.pcs, side));
    HalfStepOneOwner(HalfOf(s, side), s.pcs[t], t, FlagOwners(s.pcs, side));
  }

  /** A move that neither holds nor owns anything of a side leaves the side alone. */
  lemma MovedElsewhere(pcs: map<Tid, Pc>, t: Tid, pc: Pc, side: Side)
    requires t in pcs
    requires !Holds(pcs[t], side) && !Holds(pc, side) && !OwnsFlag(pcs[t], side) && !OwnsFlag(pc, side)
    ensures Held(pcs[t := pc], side) == Held(pcs, side)
    ensures FlagOwners(pcs[t := pc], side) == FlagOwners(pcs, side)
  {
  }

  // ----- what the flags say

  /** The thread has set the closed flag in its current call and not yet emptied the slot. */
  ghost predicate Emptying(pc: Pc, side: Side) {
    ((pc.AbortNotify? || pc.AbortTake?) && pc.side == side) || (pc.FinishTake? && side == Send)
  }

  ghost predicate Woken(pc: Pc, side: Side) {
    (pc.Leased? || pc.DropTest?) && pc.side == side && pc.woken
  }

  function TodoOf(pc: Pc): seq<Task> {
    if pc.AbortCode? || pc.AbortFlag? || pc.AbortNotify? || pc.AbortTake? || pc.CloseSwap? || pc.CloseCount?
    then pc.todo else []
  }

  ghost predicate ClosesLater(todo: seq<Task>, side: Side) {
    exists i | 0 <= i < |todo| :: todo[i].Request? && todo[i].side == side
  }

  /** The thread is still going to close this half. */
  ghost predicate Closing(pc: Pc, side: Side) {
    ((pc.AbortCode? || pc.AbortFlag?) && pc.side == side) || ClosesLater(TodoOf(pc), side)
  }

  ghost predicate ValidCodes(pc: Pc) {
    && (pc.AbortCode? ==> pc.code <= MAX_ABORT_CODE)
    && forall task <- TodoOf(pc) :: task.Request? ==> task.code <= MAX_ABORT_CODE
  }

  /** What the position of one thread implies about the flags of a half. */
  ghost predicate PcFacts(half: Half, pc: Pc, side: Side) {
    && (Emptying(pc, side) ==> half.closed)
    && (Woken(pc, side) ==> half.signalled)
    && ((pc.AbortFlag? || pc.AbortNotify?) && pc.side == side ==> half.code <= MAX_ABORT_CODE)
    && ValidCodes(pc)
  }

  ghost predicate HalfFacts(half: Half) {
    && (half.spent != multiset{} ==> half.closed)
    && (half.signalled ==> half.closed && half.code <= MAX_ABORT_CODE)
    && (half.permit ==> half.signalled)
  }

  /** A closed half has an empty slot, unless a thread is about to empty it or a lease put
      its handle back too late. */
  ghost predicate SlotEmptied(half: Half, emptying: bool) {
    half.closed && half.slot.Some? && !half.latePut ==> emptying
  }

  /** A notification once given is still there, or has woken the operation that holds the
      handle, or the handle is spent. */
  ghost predicate Answered(half: Half, woken: bool) {
    half.signalled && !half.permit && half.origin.Some? ==> woken || half.spent != multiset{}
  }

  ghost predicate Flags(s: State, side: Side) {
    var half := HalfOf(s, side);
    && HalfFacts(half)
    && (forall t <- s.pcs :: PcFacts(half, s.pcs[t], side))
    && SlotEmptied(half, exists t :: t in s.pcs && Emptying(s.pcs[t], side))
    && Answered(half, exists t :: t in s.pcs && Woken(s.pcs[t], side))
    && (s.released && !half.closed ==> exists t :: t in s.pcs && Closing(s.pcs[t], side))
  }

  /** What every step of a half only ever raises. */
  ghost predicate Raised(half: Half, half': Half) {
    && half'.origin == half.origin
    && (half.closed ==> half'.closed)
    && (half.signalled ==> half'.signalled)
    && (half.code <= MAX_ABORT_CODE ==> half'.code <= MAX_ABORT_CODE)
    && half.spent <= half'.spent
    && (half.latePut ==> half'.latePut)
  }

  lemma HalfStepRaises(half: Half, pc: Pc)
    requires OnHalf(pc) && ValidCodes(pc)
    ensures Raised(half, HalfStep(half, pc).0)
  {
  }

  lemma ContinueFacts(half: Half, todo: seq<Task>, side: Side)
    requires forall task <- todo :: task.Request? ==> task.code <= MAX_ABORT_CODE
    ensures PcFacts(half, Continue(todo), side)
    ensures ClosesLater(todo, side) ==> Closing(Continue(todo), side)
  {
    if ClosesLater(todo, side) && !(todo[0].Request? && todo[0].side == side) {
      var i :| 0 <= i < |todo| && todo[i].Request? && todo[i].side == side;
      assert todo[1..][i - 1] == todo[i];
    }
  }

  /** The local facts after a thread's own step on a half. */
  lemma HalfStepFacts(half: Half, pc: Pc, side: Side)
    requires OnHalf(pc) && SideOf(pc) == side
    requires HalfFacts(half) && PcFacts(half, pc, side)
    ensures var (half', pc') := HalfStep(half, pc);
            HalfFacts(half') && PcFacts(half', pc', side)
  {
    var (half', pc') := HalfStep(half, pc);
    if pc.AbortTake? {
      ContinueFacts(half', pc.todo, side);
    } else {
      assert TodoOf(pc') == TodoOf(pc);
    }
  }

  lemma HalfStepClosing(half: Half, pc: Pc, side: Side)
    requires OnHalf(pc) && ValidCodes(pc) && Closing(pc, side)
    ensures Closing(HalfStep(half, pc).1, side) || (HalfStep(half, pc).0.closed && SideOf(pc) == side)
  {
    if pc.AbortTake? {
      ContinueFacts(HalfStep(half, pc).0, pc.todo, side);
    } else {
      assert TodoOf(HalfStep(half, pc).1) == TodoOf(pc);
    }
  }

  /** The existential facts after such a step: `others` says whether another thread already
      makes them true. */
  lemma HalfStepMarks(half: Half, pc: Pc, side: Side, emptyingOthers: bool, wokenOthers: bool)
    requires OnHalf(pc) && SideOf(pc) == side
    requires HalfFacts(half) && PcFacts(half, pc, side)
    requires SlotEmptied(half, emptyingOthers || Emptying(pc, side))
    requires Answered(half, wokenOthers || Woken(pc, side))
    requires half.slot.Some? ==> !wokenOthers && half.spent == multiset{}
    ensures var (half', pc') := HalfStep(half, pc);
            && SlotEmptied(half', emptyingOthers || Emptying(pc', side))
            && Answered(half', wokenOthers || Woken(pc', side))
  {
  }

  /** A step keeps the facts of threads and halves it does not touch. */
  lemma FactsRaised(half: Half, half': Half, pc: Pc, side: Side)
    requires PcFacts(half, pc, side) && Raised(half, half')
    ensures PcFacts(half', pc, side)
  {
  }

  lemma StepMarks(s: State, t: Tid, side: Side)
    requires t in s.pcs && OnHalf(s.pcs[t]) && SideOf(s.pcs[t]) == side
    requires Linear(s, side) && Flags(s, side)
    ensures var s' := ThreadStep(s, t);
            var half' := HalfOf(s', side);
            && SlotEmptied(half', exists u :: u in s'.pcs && Emptying(s'.pcs[u], side))
            && Answered(half', exists u :: u in s'.pcs && Woken(s'.pcs[u], side))
  {
    var half, pc := HalfOf(s, side), s.pcs[t];
    var s' := ThreadStep(s, t);
    var emptyingOthers := exists u :: u in s.pcs && u != t && Emptying(s.pcs[u], side);
    var wokenOthers := exists u :: u in s.pcs && u != t && Woken(s.pcs[u], side);
    if wokenOthers {
      var u :| u in s.pcs && u != t && Woken(s.pcs[u], side);
      assert u in Held(s.pcs, side);
    }
    assert PcFacts(half, pc, side);
    OthersRemain(s.pcs, s.pcs, t, side);
    HalfStepMarks(half, pc, side, emptyingOthers, wokenOthers);
    OthersRemain(s.pcs, s'.pcs, t, side);
  }

  lemma StepFlags(s: State, t: Tid, side: Side)
    requires t in s.pcs && OnHalf(s.pcs[t]) && SideOf(s.pcs[t]) == side
    requires Linear(s, side) && Flags(s, side)
    ensures Flags(ThreadStep(s, t), side)
  {
    var half, pc := HalfOf(s, side), s.pcs[t];
    var s' := ThreadStep(s, t);
    var half', pc' := HalfOf(s', side), s'.pcs[t];
    assert PcFacts(half, pc, side);
    HalfStepFacts(half, pc, side);
    HalfStepRaises(half, pc);
    forall u <- s'.pcs
      ensures PcFacts(half', s'.pcs[u], side)
    {
      if u != t {
        FactsRaised(half, half', s.pcs[u], side);
      }
    }
    StepMarks(s, t, side);
    if s.released && !half'.closed {
      var u :| u in s.pcs && Closing(s.pcs[u], side);
      if u == t {
        HalfStepClosing(half, pc, side);
      }
      assert Closing(s'.pcs[u], side);
    }
  }

  lemma OthersRemain(pcs: map<Tid, Pc>, pcs': map<Tid, Pc>, t: Tid, side: Side)
    requires t in pcs && t in pcs' && pcs' == pcs[t := pcs'[t]]
    ensures (exists u :: u in pcs' && Emptying(pcs'[u], side))
            <==> (exists u :: u in pcs && u != t && Emptying(pcs[u], side)) || Emptying(pcs'[t], side)
    ensures (exists u :: u in pcs' && Woken(pcs'[u], side))
            <==> (exists u :: u in pcs && u != t && Woken(pcs[u], side)) || Woken(pcs'[t], side)
  {
    if u :| u in pcs && u != t && Emptying(pcs[u], side) {
      assert u in pcs' && Emptying(pcs'[u], side);
    }
    if u :| u in pcs && u != t && Woken(pcs[u], side) {
      assert u in pcs' && Woken(pcs'[u], side);
    }
    if u :| u in pcs' && Emptying(pcs'[u], side) {
      assert u == t || Emptying(pcs[u], side);
    }
    if u :| u in pcs' && Woken(pcs'[u], side) {
      assert u == t || Woken(pcs[u], side);
    }
  }

  /** A thread moves to a place that says nothing about a half, and leaves it unchanged. */
  lemma ElsewhereFlags(s: State, s': State, t: Tid, side: Side)
    requires t in s.pcs && t in s'.pcs && s'.pcs == s.pcs[t := s'.pcs[t]]
    requires HalfOf(s', side) == HalfOf(s, side) && Flags(s, side)
    requires !Emptying(s.pcs[t], side) && !Woken(s.pcs[t], side)
    requires PcFacts(HalfOf(s, side), s'.pcs[t], side) && !Emptying(s'.pcs[t], side) && !Woken(s'.pcs[t], side)
    requires Closing(s.pcs[t], side) ==> Closing(s'.pcs[t], side)
    requires s'.released && !s.released ==> Closing(s'.pcs[t], side)
    ensures Flags(s', side)
  {
    OthersRemain(s.pcs, s'.pcs, t, side);
    if s'.released && !HalfOf(s, side).closed && s.released {
      var u :| u in s.pcs && Closing(s.pcs[u], side);
      assert Closing(s'.pcs[u], side);
    }
  }

  ghost predicate Good(s: State, side: Side) {
    Linear(s, side) && Flags(s, side)
  }

  /** The places a thread can go without touching a half. */
  ghost predicate Apart(pc: Pc, side: Side) {
    OnHalf(pc) ==> SideOf(pc) != side || pc.TakeFlag? || pc.AbortCode? || pc.FinishFlag?
  }

  lemma ElsewhereGood(s: State, s': State, t: Tid, side: Side)
    requires t in s.pcs && t in s'.pcs && s'.pcs == s.pcs[t := s'.pcs[t]]
    requires HalfOf(s', side) == HalfOf(s, side) && Good(s, side)
    requires OnHalf(s.pcs[t]) ==> SideOf(s.pcs[t]) != side
    requires Apart(s'.pcs[t], side) && ValidCodes(s'.pcs[t])
    requires Closing(s.pcs[t], side) ==> Closing(s'.pcs[t], side)
    requires s'.released && !s.released ==> Closing(s'.pcs[t], side)
    ensures Good(s', side)
  {
    hide OnePlace, OneOwner, HalfFacts;
    MovedElsewhere(s.pcs, t, s'.pcs[t], side);
    ElsewhereFlags(s, s', t, side);
  }

  lemma WakeGood(s: State, t: Tid, side: Side)
    requires Good(s, side) && t in s.pcs && s.pcs[t].Leased? && !s.pcs[t].woken && HalfOf(s, s.pcs[t].side).permit
    requires s.pcs[t].side == side
    ensures Good(WakeStep(s, t), side)
  {
    var s' := WakeStep(s, t);
    Moved(s.pcs, t, s'.pcs[t], side);
    assert Held(s'.pcs, side) == Held(s.pcs, side);
    assert FlagOwners(s'.pcs, side) == FlagOwners(s.pcs, side);
    OthersRemain(s.pcs, s'.pcs, t, side);
    assert PcFacts(HalfOf(s, side), s.pcs[t], side);
  }

  lemma ThreadStepGood(s: State, t: Tid, side: Side)
    requires Good(s, side) && t in s.pcs && !s.pcs[t].Idle?
    ensures Good(ThreadStep(s, t), side)
  {
    hide OnePlace, OneOwner, HalfFacts, SlotEmptied, Answered, Held, FlagOwners, Spend, SpendSlot;
    var pc := s.pcs[t];
    var s' := ThreadStep(s, t);
    assert PcFacts(HalfOf(s, side), pc, side);
    if OnHalf(pc) && SideOf(pc) == side {
      StepLinearHere(s, t, side);
      StepFlags(s, t, side);
    } else {
      if OnHalf(pc) {
        if pc.AbortTake? {
          ContinueFacts(HalfOf(s, side), pc.todo, side);
        } else {
          assert TodoOf(s'.pcs[t]) == TodoOf(pc);
        }
      } else if pc.CloseCount? || s.released {
        ContinueFacts(HalfOf(s, side), pc.todo, side);
      } else {
        var todo := TodoOf(s'.pcs[t]);
        assert todo[0] == Request(Recv, 0) && todo[2..] == pc.todo;
        assert forall i | 0 <= i < |pc.todo| :: todo[i + 2] == pc.todo[i];
      }
      ElsewhereGood(s, s', t, side);
    }
  }

  lemma EventGood(s: State, event: Event, side: Side)
    requires Good(s, side) && Enabled(s, event)
    ensures Good(Apply(s, event), side)
  {
    hide Linear, Flags, ThreadStep, SpendSlot;
    var s' := Apply(s, event);
    match event
    case Begin(t, call) => ElsewhereGood(s, s', t, side);
    case Step(t) => ThreadStepGood(s, t, side);
    case Wake(t) =>
      if s.pcs[t].side == side {
        WakeGood(s, t, side);
      } else {
        ElsewhereGood(s, s', t, side);
      }
    case Free => FreeGood(s, side);
  }

  lemma FreeGood(s: State, side: Side)
    requires Good(s, side) && Enabled(s, Free)
    ensures Good(Apply(s, Free), side)
  {
    var half, half' := HalfOf(s, side), HalfOf(Apply(s, Free), side);
    QuietCloses(s, side);
    QuietHoldsNothing(s.pcs, side);
    assert half' == SpendSlot(half);
    assert OnePlace(half', map[]) && HalfFacts(half') && half'.slot == None;
    assert Answered(half', false);
  }

  /** With every thread idle nobody holds a handle or the flag. */
  lemma QuietHoldsNothing(pcs: map<Tid, Pc>, side: Side)
    requires forall t <- pcs :: pcs[t].Idle?
    ensures Held(pcs, side) == map[] && FlagOwners(pcs, side) == {}
    ensures forall t <- pcs :: !Emptying(pcs[t], side) && !Woken(pcs[t], side) && !Closing(pcs[t], side)
  {
    assert forall t <- pcs :: TodoOf(pcs[t]) == [];
  }

  lemma QuietCloses(s: State, side: Side)
    requires Flags(s, side) && s.released && forall t <- s.pcs :: s.pcs[t].Idle?
    ensures HalfOf(s, side).closed
  {
    QuietHoldsNothing(s.pcs, side);
  }

  // ----- the gauge of active streams

  /** How many decrements a thread still owes. */
  ghost function Debt(pc: Pc): nat {
    multiset(TodoOf(pc))[CountDown] + if pc.CloseCount? then 1 else 0
  }

  ghost predicate NoDebt(pcs: map<Tid, Pc>) {
    forall t <- pcs :: Debt(pcs[t]) == 0
  }

  ghost predicate OneDebt(pcs: map<Tid, Pc>) {
    exists t :: t in pcs && Debt(pcs[t]) == 1 && forall u <- pcs | u != t :: Debt(pcs[u]) == 0
  }

  /** One call of `close` wins, and counts the stream down once. */
  ghost predicate Gauge(s: State) {
    if s.released then s.wins == 1 && ((s.counted == 1 && NoDebt(s.pcs)) || (s.counted == 0 && OneDebt(s.pcs)))
    else s.wins == 0 && s.counted == 0 && NoDebt(s.pcs)
  }

  lemma ContinueDebt(todo: seq<Task>)
    ensures Debt(Continue(todo)) == multiset(todo)[CountDown]
  {
    if todo != [] {
      assert todo == [todo[0]] + todo[1..];
    }
  }

  /** What a thread's step does to its debt: winning `close` takes one on, counting down
      pays it. */
  lemma StepDebt(s: State, t: Tid)
    requires t in s.pcs && !s.pcs[t].Idle?
    ensures var pc, s' := s.pcs[t], ThreadStep(s, t);
            var won, paid := pc.CloseSwap? && !s.released, pc.CloseCount?;
            && s'.pcs == s.pcs[t := s'.pcs[t]]
            && Debt(s'.pcs[t]) == Debt(pc) + (if won then 1 else 0) - (if paid then 1 else 0)
            && s'.wins == s.wins + (if won then 1 else 0)
            && s'.counted == s.counted + (if paid then 1 else 0)
            && s'.released == (s.released || won)
  {
    var pc := s.pcs[t];
    if OnHalf(pc) {
      HalfStepDebt(HalfOf(s, SideOf(pc)), pc);
    } else {
      ContinueDebt(pc.todo);
      assert multiset([Request(Recv, 0), CountDown] + pc.todo)
             == multiset{Request(Recv, 0), CountDown} + multiset(pc.todo);
    }
  }

  lemma HalfStepDebt(half: Half, pc: Pc)
    requires OnHalf(pc)
    ensures Debt(HalfStep(half, pc).1) == Debt(pc)
  {
    if pc.AbortTake? {
      ContinueDebt(pc.todo);
    } else {
      assert TodoOf(HalfStep(half, pc).1) == TodoOf(pc);
    }
  }

  lemma EntryDebt(s: State, call: Call)
    ensures Debt(Entry(s, call)) == 0
  {
    assert TodoOf(Entry(s, call)) == [] || call.AbortBoth?;
  }

  lemma EventGauge(s: State, event: Event)
    requires Gauge(s) && Enabled(s, event)
    ensures Gauge(Apply(s, event))
  {
    match event
    case Begin(t, call) =>
      hide Gauge, ThreadStep;
      assert Debt(Entry(s, call)) == 0 by { EntryDebt(s, call); }
      SameDebt(s, t, Apply(s, event));
    case Step(t) =>
      hide Gauge, HalfStep, SpendSlot;
      StepDebt(s, t);
      GaugeAfter(s, t, ThreadStep(s, t), s.pcs[t].CloseSwap? && !s.released, s.pcs[t].CloseCount?);
    case Wake(t) => SameDebt(s, t, WakeStep(s, t));
    case Free =>
  }

  lemma DebtMoved(pcs: map<Tid, Pc>, t: Tid, pc: Pc)
    requires t in pcs
    ensures NoDebt(pcs) && Debt(pc) == 0 ==> NoDebt(pcs[t := pc])
    ensures NoDebt(pcs) && Debt(pc) == 1 ==> OneDebt(pcs[t := pc])
  {
    assert pcs[t := pc][t] == pc;
  }

  lemma DebtKept(pcs: map<Tid, Pc>, t: Tid, pc: Pc)
    requires t in pcs && OneDebt(pcs)
    ensures Debt(pcs[t]) <= 1
    ensures Debt(pc) == Debt(pcs[t]) ==> OneDebt(pcs[t := pc])
    ensures Debt(pcs[t]) == 1 && Debt(pc) == 0 ==> NoDebt(pcs[t := pc])
  {
    var o :| o in pcs && Debt(pcs[o]) == 1 && forall u <- pcs | u != o :: Debt(pcs[u]) == 0;
    if Debt(pc) == Debt(pcs[t]) {
      assert Debt(pcs[t := pc][o]) == 1;
    }
  }

  lemma SameDebt(s: State, t: Tid, s': State)
    requires Gauge(s) && t in s.pcs && t in s'.pcs && s'.pcs == s.pcs[t := s'.pcs[t]]
    requires Debt(s.pcs[t]) == Debt(s'.pcs[t]) && (s'.released, s'.wins, s'.counted) == (s.released, s.wins, s.counted)
    ensures Gauge(s')
  {
    DebtMoved(s.pcs, t, s'.pcs[t]);
    if OneDebt(s.pcs) {
      DebtKept(s.pcs, t, s'.pcs[t]);
    }
  }

  lemma GaugeAfter(s: State, t: Tid, s': State, won: bool, paid: bool)
    requires Gauge(s) && t in s.pcs && t in s'.pcs && s'.pcs == s.pcs[t := s'.pcs[t]]
    requires won ==> !s.released && !paid
    requires paid ==> Debt(s.pcs[t]) > 0
    requires Debt(s'.pcs[t]) == Debt(s.pcs[t]) + (if won then 1 else 0) - (if paid then 1 else 0)
    requires s'.wins == s.wins + (if won then 1 else 0)
    requires s'.counted == s.counted + (if paid then 1 else 0)
    requires s'.released == (s.released || won)
    ensures Gauge(s')
  {
    DebtMoved(s.pcs, t, s'.pcs[t]);
    if OneDebt(s.pcs) {
      DebtKept(s.pcs, t, s'.pcs[t]);
    }
  }

  // ----- every run

  ghost predicate Inv(s: State) {
    && Good(s, Send) && Good(s, Recv) && Gauge(s)
    && FreedQuiet(s)
  }

  ghost predicate FreedQuiet(s: State) {
    s.freed ==> s.send.slot == None && s.recv.slot == None && forall t <- s.pcs :: s.pcs[t].Idle?
  }

  lemma EventFreed(s: State, event: Event)
    requires Enabled(s, event)
    ensures FreedQuiet(Apply(s, event))
  {
    if event.Step? {
      assert !ThreadStep(s, event.t).freed;
    }
  }

  lemma InitGood(s: State, side: Side)
    requires Init(s)
    ensures Good(s, side)
  {
    assert Held(s.pcs, side) == map[] && FlagOwners(s.pcs, side) == {};
  }

  lemma InitInv(s: State)
    requires Init(s)
    ensures Inv(s)
  {
    InitGood(s, Send);
    InitGood(s, Recv);
    assert forall t <- s.pcs :: Debt(s.pcs[t]) == 0;
  }

  lemma EventInv(s: State, event: Event)
    requires Inv(s) && Enabled(s, event)
    ensures Inv(Apply(s, event))
  {
    EventGood(s, event, Send);
    EventGood(s, event, Recv);
    EventGauge(s, event);
    EventFreed(s, event);
  }

  lemma StepAt(run: seq<State>, events: seq<Event>, i: nat)
    requires IsRun(run, events) && i < |events|
    ensures Enabled(run[i], events[i]) && run[i + 1] == Apply(run[i], events[i])
  {
    assert Next(run[i], events[i], run[i + 1]);
  }

  lemma {:induction false} EveryState(run: seq<State>, events: seq<Event>, i: nat)
    requires IsRun(run, events) && i < |run|
    ensures Inv(run[i])
    decreases i
  {
    hide Inv, Enabled, Apply, Init, Next;
    if i == 0 {
      InitInv(run[0]);
    } else {
      EveryState(run, events, i - 1);
      StepAt(run, events, i - 1);
      EventInv(run[i - 1], events[i - 1]);
    }
  }

  lemma EventRaises(s: State, event: Event, side: Side)
    requires Flags(s, side) && Enabled(s, event)
    ensures Raised(HalfOf(s, side), HalfOf(Apply(s, event), side))
  {
    if event.Step? {
      var pc := s.pcs[event.t];
      assert PcFacts(HalfOf(s, side), pc, side);
      if OnHalf(pc) && SideOf(pc) == side {
        HalfStepRaises(HalfOf(s, side), pc);
      } else {
        assert HalfOf(ThreadStep(s, event.t), side) == HalfOf(s, side);
      }
    }
  }

  lemma StepRaises(run: seq<State>, events: seq<Event>, i: nat, side: Side)
    requires IsRun(run, events) && i < |events|
    ensures Raised(HalfOf(run[i], side), HalfOf(run[i + 1], side))
  {
    hide Raised, HalfOf, Flags, Linear, Gauge, Apply, Enabled;
    EveryState(run, events, i);
    StepAt(run, events, i);
    EventRaises(run[i], events[i], side);
  }

  lemma RaisedTwice(a: Half, b: Half, c: Half)
    requires Raised(a, b) && Raised(b, c)
    ensures Raised(a, c)
  {
  }

  lemma {:induction false} RunRaises(run: seq<State>, events: seq<Event>, i: nat, j: nat, side: Side)
    requires IsRun(run, events) && i <= j < |run|
    ensures Raised(HalfOf(run[i], side), HalfOf(run[j], side))
    decreases j - i
  {
    if i < j {
      hide Raised, HalfOf;
      RunRaises(run, events, i, j - 1, side);
      StepRaises(run, events, j - 1, side);
      RaisedTwice(HalfOf(run[i], side), HalfOf(run[j - 1], side), HalfOf(run[j], side));
    }
  }

  /** A thread holding the handle is the only place it is. */
  lemma HolderIsAlone(s: State, t: Tid, side: Side)
    requires Linear(s, side) && t in s.pcs && Holds(s.pcs[t], side)
    ensures var half := HalfOf(s, side);
            half.slot == None && half.spent == multiset{} && half.origin == Option.Some(s.pcs[t].handle)
    ensures forall u <- s.pcs | Holds(s.pcs[u], side) :: u == t
  {
    assert t in Held(s.pcs, side);
    forall u <- s.pcs | Holds(s.pcs[u], side)
      ensures u == t
    {
      assert u in Held(s.pcs, side);
    }
  }

  // ----- the promises, for every run of any threads

  /** The handle a half was made with is at every moment in exactly one place: the slot, one
      lease, or spent; a busy flag that is set has exactly one owner. */
  lemma OnePlaceOneOwner(run: seq<State>, events: seq<Event>, i: nat, side: Side)
    requires IsRun(run, events) && i < |run|
    ensures OnePlace(HalfOf(run[i], side), Held(run[i].pcs, side))
    ensures OneOwner(HalfOf(run[i], side).busy, FlagOwners(run[i].pcs, side))
  {
    EveryState(run, events, i);
  }

  lemma FlagStepMeans(s: State, t: Tid)
    requires t in s.pcs && s.pcs[t].TakeFlag? && Linear(s, s.pcs[t].side)
    ensures ThreadStep(s, t).pcs[t] == if FlagOwners(s.pcs, s.pcs[t].side) != {} then Idle else TakeSlot(s.pcs[t].side)
  {
    hide OnePlace;
    var side := s.pcs[t].side;
    assert HalfOf(s, side).busy <==> FlagOwners(s.pcs, side) != {};
  }

  /** A lease has cleared its flag and not yet put its handle back, or spent it. */
  ghost predicate PuttingBack(pcs: map<Tid, Pc>, side: Side) {
    exists t :: t in pcs && (pcs[t].DropTest? || pcs[t].DropPut?) && pcs[t].side == side
  }

  lemma SlotStepMeans(s: State, t: Tid)
    requires t in s.pcs && s.pcs[t].TakeSlot? && Linear(s, s.pcs[t].side)
    ensures var side, half, pc' := s.pcs[t].side, HalfOf(s, s.pcs[t].side), ThreadStep(s, t).pcs[t];
            && (pc' == TakeEmpty(side) || (pc'.Leased? && pc'.side == side))
            && (pc'.TakeEmpty? <==> half.origin.None? || half.spent != multiset{} || PuttingBack(s.pcs, side))
  {
    var side, half, held := s.pcs[t].side, HalfOf(s, s.pcs[t].side), Held(s.pcs, s.pcs[t].side);
    NobodyLeases(s, t);
    if u :| u in s.pcs && (s.pcs[u].DropTest? || s.pcs[u].DropPut?) && s.pcs[u].side == side {
      HolderIsAlone(s, u, side);
    }
    if u :| u in held {
      assert s.pcs[u].DropTest? || s.pcs[u].DropPut?;
    } else {
      assert held == map[];
    }
  }

  /** While one call owns the flag no other holds a lease. */
  lemma NobodyLeases(s: State, t: Tid)
    requires t in s.pcs && s.pcs[t].TakeSlot? && Linear(s, s.pcs[t].side)
    ensures forall u <- s.pcs :: !(s.pcs[u].Leased? && s.pcs[u].side == s.pcs[t].side)
  {
    hide OnePlace;
    var owners := FlagOwners(s.pcs, s.pcs[t].side);
    assert t in owners;
    forall u <- s.pcs
      ensures !(s.pcs[u].Leased? && s.pcs[u].side == s.pcs[t].side)
    {
      assert u in owners ==> u == t;
    }
  }

  /** When a call is turned away, in any run of any threads: at its flag exactly while some
      other call owns it; at its slot exactly when there never was a handle, it is spent, or
      an earlier lease that has already cleared the flag still has it. */
  lemma TurnedAwayIff(run: seq<State>, events: seq<Event>, i: nat, t: Tid)
    requires IsRun(run, events) && i < |events| && events[i] == Step(t) && t in run[i].pcs
    ensures t in run[i + 1].pcs
    ensures run[i].pcs[t].TakeFlag? ==>
              (run[i + 1].pcs[t].Idle? <==> FlagOwners(run[i].pcs, run[i].pcs[t].side) != {})
    ensures run[i].pcs[t].TakeSlot? ==>
              var side := run[i].pcs[t].side;
              var half := HalfOf(run[i], side);
              run[i + 1].pcs[t].TakeEmpty? <==>
                half.origin.None? || half.spent != multiset{} || PuttingBack(run[i].pcs, side)
  {
    hide OnePlace, OneOwner, Flags, Gauge, FlagOwners, PuttingBack;
    EveryState(run, events, i);
    StepAt(run, events, i);
    if run[i].pcs[t].TakeFlag? {
      FlagStepMeans(run[i], t);
    } else if run[i].pcs[t].TakeSlot? {
      SlotStepMeans(run[i], t);
    }
  }

  /** A spent handle never comes back. */
  lemma SpentForGood(run: seq<State>, events: seq<Event>, i: nat, j: nat, side: Side)
    requires IsRun(run, events) && i <= j < |run| && HalfOf(run[i], side).spent != multiset{}
    ensures HalfOf(run[j], side).spent == HalfOf(run[i], side).spent
    ensures HalfOf(run[j], side).slot == None && Held(run[j].pcs, side) == map[]
  {
    RunRaises(run, events, i, j, side);
    EveryState(run, events, i);
    EveryState(run, events, j);
    var handle := HalfOf(run[i], side).origin.value;
    assert handle in HalfOf(run[i], side).spent;
    assert handle in HalfOf(run[j], side).spent;
  }

  /** While the closed flag is unset the handle is not lost: it is in the slot or leased. */
  lemma OpenKeepsHandle(run: seq<State>, events: seq<Event>, i: nat, side: Side)
    requires IsRun(run, events) && i < |run|
    requires !HalfOf(run[i], side).closed && HalfOf(run[i], side).origin.Some?
    ensures var half := HalfOf(run[i], side);
            || half.slot == half.origin
            || exists t :: t in run[i].pcs && Held(run[i].pcs, side) == map[t := half.origin.value]
  {
    EveryState(run, events, i);
  }

  /** A closed half still has its handle in the slot only when a thread is about to empty
      it or a lease put it back after the close. */
  lemma ClosedSlotIsLatePut(run: seq<State>, events: seq<Event>, i: nat, side: Side)
    requires IsRun(run, events) && i < |run|
    ensures var half := HalfOf(run[i], side);
            half.closed && half.slot.Some? ==>
              half.latePut || exists t :: t in run[i].pcs && Emptying(run[i].pcs[t], side)
  {
    EveryState(run, events, i);
  }

  /** An abort reaches the operation in flight: once it has notified, an operation holding
      the handle has been woken or finds the notification waiting, and the code it will read
      is one QUIC accepts. */
  lemma AbortReachesOperation(run: seq<State>, events: seq<Event>, i: nat, t: Tid)
    requires IsRun(run, events) && i < |run| && t in run[i].pcs && run[i].pcs[t].Leased?
    ensures var half := HalfOf(run[i], run[i].pcs[t].side);
            && (half.signalled ==> run[i].pcs[t].woken || half.permit)
            && (run[i].pcs[t].woken ==> half.signalled)
            && (half.signalled ==> half.closed && half.code <= MAX_ABORT_CODE)
  {
    hide OnePlace, Held;
    EveryState(run, events, i);
    var s, pc := run[i], run[i].pcs[t];
    assert Good(s, pc.side);
    HolderIsAlone(s, t, pc.side);
    assert PcFacts(HalfOf(s, pc.side), pc, pc.side);
  }

  /** Of all the calls of `close` - explicit, owner down, abort, drop - one returns true;
      once it has finished, both halves are closed and the stream has been counted down
      exactly once. */
  lemma ClosedOnce(run: seq<State>, events: seq<Event>, i: nat)
    requires IsRun(run, events) && i < |run|
    ensures run[i].wins == (if run[i].released then 1 else 0) && run[i].counted <= run[i].wins
    ensures run[i].released && (forall t <- run[i].pcs :: run[i].pcs[t].Idle?) ==>
              run[i].send.closed && run[i].recv.closed && run[i].counted == 1
  {
    EveryState(run, events, i);
    var s := run[i];
    if s.released && forall t <- s.pcs :: s.pcs[t].Idle? {
      QuietCloses(s, Send);
      QuietCloses(s, Recv);
      assert NoDebt(s.pcs);
    }
  }

  /** When the resource is gone its handles are spent, late ones included. */
  lemma FreedLeavesNothing(run: seq<State>, events: seq<Event>, i: nat, side: Side)
    requires IsRun(run, events) && i < |run| && run[i].freed
    ensures var half := HalfOf(run[i], side);
            half.spent == match half.origin case None => multiset{} case Some(handle) => multiset{handle}
  {
    EveryState(run, events, i);
    QuietHoldsNothing(run[i].pcs, side);
    NowhereIsSpent(HalfOf(run[i], side));
  }

  lemma NowhereIsSpent(half: Half)
    requires OnePlace(half, map[]) && half.slot == None
    ensures half.spent == match half.origin case None => multiset{} case Some(handle) => multiset{handle}
  {
  }

  // ----- a closed half whose slot is full

  lemma Extend(run: seq<State>, events: seq<Event>, event: Event)
    requires IsRun(run, events) && Enabled(run[|events|], event)
    ensures IsRun(run + [Apply(run[|events|], event)], events + [event])
  {
    var run', events' := run + [Apply(run[|events|], event)], events + [event];
    forall i | 0 <= i < |events'|
      ensures Next(run'[i], events'[i], run'[i + 1])
    {
      if i < |events| {
        assert Next(run[i], events[i], run[i + 1]);
      }
    }
  }

  /** A lease has seen the half open and is about to put its handle back. */
  ghost predicate Putting(s: State, side: Side) {
    exists t :: t in s.pcs && s.pcs[t].DropPut? && s.pcs[t].side == side
  }

  ghost predicate EmptyForGood(s: State, side: Side) {
    HalfOf(s, side).closed && HalfOf(s, side).slot == None && !Putting(s, side)
  }

  lemma NoNewPut(s: State, t: Tid, side: Side)
    requires EmptyForGood(s, side) && t in s.pcs && !s.pcs[t].Idle?
    ensures !Putting(ThreadStep(s, t), side)
  {
    var pc, s' := s.pcs[t], ThreadStep(s, t);
    assert !(pc.DropPut? && pc.side == side);
    assert !(s'.pcs[t].DropPut? && s'.pcs[t].side == side);
    assert forall u | u in s'.pcs && u != t :: u in s.pcs && s'.pcs[u] == s.pcs[u];
  }

  lemma StaysEmpty(s: State, event: Event, side: Side)
    requires EmptyForGood(s, side) && Enabled(s, event)
    ensures EmptyForGood(Apply(s, event), side)
  {
    match event
    case Step(t) =>
      NoNewPut(s, t, side);
      assert !(s.pcs[t].DropPut? && s.pcs[t].side == side);
    case Begin(t, call) => OneMoves(s.pcs, Apply(s, event).pcs, t, side);
    case Wake(t) => OneMoves(s.pcs, Apply(s, event).pcs, t, side);
    case Free =>
  }

  lemma OneMoves(pcs: map<Tid, Pc>, pcs': map<Tid, Pc>, t: Tid, side: Side)
    requires t in pcs && t in pcs' && pcs' == pcs[t := pcs'[t]] && !pcs'[t].DropPut?
    ensures forall u | u in pcs' && pcs'[u].DropPut? :: u in pcs && pcs[u] == pcs'[u]
  {
  }

  lemma {:induction false} StaysEmptyForGood(run: seq<State>, events: seq<Event>, i: nat, j: nat, side: Side)
    requires IsRun(run, events) && i <= j < |run| && EmptyForGood(run[i], side)
    ensures EmptyForGood(run[j], side)
    decreases j - i
  {
    hide Enabled, Apply, EmptyForGood;
    if i < j {
      StaysEmptyForGood(run, events, i, j - 1, side);
      StepAt(run, events, j - 1);
      StaysEmpty(run[j - 1], events[j - 1], side);
    }
  }

  /** Some continuation of the run has a handle in the slot. */
  ghost predicate CanFill(run: seq<State>, events: seq<Event>, side: Side) {
    exists run', events' :: IsRun(run', events') && run <= run' && events <= events'
                            && run' != [] && HalfOf(run'[|run'| - 1], side).slot.Some?
  }

  lemma PutStep(s: State, t: Tid, side: Side)
    requires FreedQuiet(s) && t in s.pcs && s.pcs[t].DropPut? && s.pcs[t].side == side
    ensures Enabled(s, Step(t)) && HalfOf(Apply(s, Step(t)), side).slot.Some?
  {
  }

  lemma PutFills(run: seq<State>, events: seq<Event>, t: Tid, side: Side)
    requires IsRun(run, events) && t in run[|events|].pcs
    requires run[|events|].pcs[t].DropPut? && run[|events|].pcs[t].side == side
    ensures CanFill(run, events, side)
  {
    hide Good, Gauge, HalfOf, Apply, Enabled;
    EveryState(run, events, |events|);
    PutStep(run[|events|], t, side);
    var s' := Apply(run[|events|], Step(t));
    Extend(run, events, Step(t));
    var run', events' := run + [s'], events + [Step(t)];
    hide IsRun;
    assert IsRun(run', events') && run <= run' && events <= events' && HalfOf(run'[|run'| - 1], side).slot.Some?;
  }

  /** When "closed implies empty" does hold: an empty slot of a closed half can be filled
      again exactly while some lease is between its closed test and its put. */
  lemma ClosedStaysEmptyIff(run: seq<State>, events: seq<Event>, side: Side)
    requires IsRun(run, events)
    requires HalfOf(run[|events|], side).closed && HalfOf(run[|events|], side).slot == None
    ensures CanFill(run, events, side) <==> Putting(run[|events|], side)
  {
    hide IsRun;
    var last := |events|;
    RunLength(run, events);
    if t :| t in run[last].pcs && run[last].pcs[t].DropPut? && run[last].pcs[t].side == side {
      PutFills(run, events, t, side);
    } else if run', events' :| IsRun(run', events') && run <= run' && events <= events'
                              && run' != [] && HalfOf(run'[|run'| - 1], side).slot.Some?
    {
      assert run'[last] == run[last];
      StaysEmptyForGood(run', events', last, |run'| - 1, side);
      assert false;
    }
  }

  lemma RunLength(run: seq<State>, events: seq<Event>)
    requires IsRun(run, events)
    ensures |run| == |events| + 1
  {
  }

  ghost function Two(send: Half, first: Pc, second: Pc): State {
    State(send, Half(None, false, false, NO_ABORT, false, None, multiset{}, false, false),
          false, false, 0, 0, map[0 := first, 1 := second])
  }

  ghost function SendHalf(slot: Option<Handle>, busy: bool, closed: bool, code: nat, signalled: bool,
                          latePut: bool): Half
  {
    Half(slot, busy, closed, code, signalled, Option.Some(5), multiset{}, signalled, latePut)
  }

  lemma LeaseTaken() returns (run: seq<State>, events: seq<Event>)
    ensures IsRun(run, events)
    ensures run[|events|] == Two(SendHalf(None, true, false, NO_ABORT, false, false), Leased(Send, 5, false), Idle)
  {
    var half := SendHalf(Option.Some(5), false, false, NO_ABORT, false, false);
    run, events := [Two(half, Idle, Idle)], [];
    run, events := Then(run, events, Begin(0, Take(Send)), Two(half, TakeFlag(Send), Idle));
    run, events := Then(run, events, Step(0), Two(half.(busy := true), TakeSlot(Send), Idle));
    run, events := Then(run, events, Step(0), Two(half.(busy := true, slot := None), Leased(Send, 5, false), Idle));
  }

  /** One thread takes the handle, ends its operation and sees the half still open. */
  lemma LeaseAboutToPut() returns (run: seq<State>, events: seq<Event>)
    ensures IsRun(run, events)
    ensures run[|events|] == Two(SendHalf(None, false, false, NO_ABORT, false, false), DropPut(Send, 5), Idle)
  {
    run, events := LeaseTaken();
    var half := SendHalf(None, false, false, NO_ABORT, false, false);
    run, events := Then(run, events, Step(0), Two(half, DropTest(Send, 5, false), Idle));
    run, events := Then(run, events, Step(0), Two(half, DropPut(Send, 5), Idle));
  }

  lemma Then(run: seq<State>, events: seq<Event>, event: Event, next: State)
    returns (run': seq<State>, events': seq<Event>)
    requires IsRun(run, events) && Next(run[|events|], event, next)
    ensures IsRun(run', events') && run'[|events'|] == next
  {
    Extend(run, events, event);
    run', events' := run + [next], events + [event];
  }

  /** A reset on another thread finds the slot empty and is done. */
  lemma ResetFindsNothing() returns (run: seq<State>, events: seq<Event>)
    ensures IsRun(run, events)
    ensures run[|events|] == Two(SendHalf(None, false, true, 7, true, false), DropPut(Send, 5), Idle)
  {
    run, events := LeaseAboutToPut();
    var half := SendHalf(None, false, false, NO_ABORT, false, false);
    var put := DropPut(Send, 5);
    run, events := Then(run, events, Begin(1, Abort(Send, 7)), Two(half, put, AbortCode(Send, 7, [])));
    run, events := Then(run, events, Step(1), Two(half.(code := 7), put, AbortFlag(Send, [])));
    run, events := Then(run, events, Step(1), Two(half.(code := 7, closed := true), put, AbortNotify(Send, [])));
    half := SendHalf(None, false, true, 7, true, false);
    run, events := Then(run, events, Step(1), Two(half, put, AbortTake(Send, [])));
    run, events := Then(run, events, Step(1), Two(half, put, Idle));
  }

  /** The tempting claim that a closed half has an empty slot fails: a reset can find the
      slot empty just before the lease puts the handle back. */
  lemma ClosedSlotCanBeFull() returns (run: seq<State>, events: seq<Event>)
    ensures IsRun(run, events)
    ensures var s := run[|events|]; s.send.closed && s.send.slot.Some? && forall t <- s.pcs :: s.pcs[t].Idle?
  {
    run, events := ResetFindsNothing();
    var half := SendHalf(Option.Some(5), false, true, 7, true, true);
    run, events := Then(run, events, Step(0), Two(half, Idle, Idle));
  }

  // ----- what each call does when nothing else runs

  ghost function At(s: State, t: Tid, pc: Pc): State {
    s.(pcs := s.pcs[t := pc])
  }

  /** Up to `n` steps of one thread. */
  ghost function Alone(s: State, t: Tid, n: nat): (s': State)
    requires t in s.pcs
    ensures t in s'.pcs
    decreases n
  {
    if n == 0 || s.pcs[t].Idle? then s else Alone(ThreadStep(s, t), t, n - 1)
  }

  lemma {:induction false} AloneSplit(s: State, t: Tid, m: nat, n: nat)
    requires t in s.pcs
    ensures Alone(s, t, m + n) == Alone(Alone(s, t, m), t, n)
    decreases m
  {
    hide ThreadStep;
    if m > 0 && !s.pcs[t].Idle? {
      StillThere(s, t);
      AloneSplit(ThreadStep(s, t), t, m - 1, n);
    }
  }

  lemma StillThere(s: State, t: Tid)
    requires t in s.pcs && !s.pcs[t].Idle?
    ensures t in ThreadStep(s, t).pcs
  {
    hide HalfStep;
  }

  lemma AloneOnce(s: State, t: Tid)
    requires t in s.pcs && !s.pcs[t].Idle?
    ensures Alone(s, t, 1) == ThreadStep(s, t)
  {
    hide ThreadStep;
    StillThere(s, t);
    assert Alone(ThreadStep(s, t), t, 0) == ThreadStep(s, t);
  }

  /** From `pc` in `s` the thread alone gets to `pc'` in `s'` in up to `n` steps. */
  ghost predicate Goes(t: Tid, s: State, pc: Pc, n: nat, s': State, pc': Pc) {
    t in s.pcs && Alone(At(s, t, pc), t, n) == At(s', t, pc')
  }

  lemma GoesOn(t: Tid, a: State, pa: Pc, m: nat, b: State, pb: Pc, n: nat, c: State, pc: Pc)
    requires Goes(t, a, pa, m, b, pb) && Goes(t, b, pb, n, c, pc)
    ensures Goes(t, a, pa, m + n, c, pc)
  {
    hide Alone;
    AloneSplit(At(a, t, pa), t, m, n);
  }

  /** A thread that begins and ends a call idle. */
  lemma GoesHome(t: Tid, s: State, pc: Pc, n: nat, s': State)
    requires t in s'.pcs && s'.pcs[t].Idle? && Goes(t, s, pc, n, s', Idle)
    ensures Alone(At(s, t, pc), t, n) == s'
  {
    hide Alone;
    assert s'.pcs[t := Idle] == s'.pcs;
  }

  /** The next `n` steps are all on this half. */
  ghost predicate Stays(half: Half, side: Side, pc: Pc, n: nat)
    decreases n
  {
    n > 0 ==>
      && OnHalf(pc) && SideOf(pc) == side
      && var (half', pc') := HalfStep(half, pc);
         Stays(half', side, pc', n - 1)
  }

  ghost function HalfRun(half: Half, side: Side, pc: Pc, n: nat): (Half, Pc)
    requires Stays(half, side, pc, n)
    decreases n
  {
    if n == 0 then (half, pc)
    else
      var (half', pc') := HalfStep(half, pc);
      HalfRun(half', side, pc', n - 1)
  }

  lemma HalfStepGoes(t: Tid, s: State, pc: Pc)
    requires t in s.pcs && OnHalf(pc)
    ensures Goes(t, s, pc, 1, WithHalf(s, SideOf(pc), HalfStep(HalfOf(s, SideOf(pc)), pc).0),
                 HalfStep(HalfOf(s, SideOf(pc)), pc).1)
  {
    hide HalfStep, Alone;
    var next := HalfStep(HalfOf(s, SideOf(pc)), pc).1;
    assert At(s, t, pc).pcs[t := next] == s.pcs[t := next];
    AloneOnce(At(s, t, pc), t);
  }

  lemma HalfWrites(s: State, side: Side, a: Half, b: Half)
    ensures WithHalf(WithHalf(s, side, a), side, b) == WithHalf(s, side, b)
    ensures HalfOf(WithHalf(s, side, a), side) == a
    ensures WithHalf(s, side, HalfOf(s, side)) == s
    ensures WithHalf(s, side, a).pcs == s.pcs
  {
  }

  /** A thread running alone on one half does what its steps do to that half. */
  lemma {:induction false} HalfRunGoes(t: Tid, s: State, side: Side, pc: Pc, n: nat)
    requires t in s.pcs && Stays(HalfOf(s, side), side, pc, n)
    ensures var (half, pc') := HalfRun(HalfOf(s, side), side, pc, n);
            Goes(t, s, pc, n, WithHalf(s, side, half), pc')
    decreases n
  {
    hide HalfStep, ThreadStep, WithHalf, HalfOf;
    var half := HalfOf(s, side);
    HalfWrites(s, side, half, half);
    if n > 0 {
      var (half', pc') := HalfStep(half, pc);
      var s' := WithHalf(s, side, half');
      HalfWrites(s, side, half', HalfRun(half', side, pc', n - 1).0);
      HalfStepGoes(t, s, pc);
      HalfRunGoes(t, s', side, pc', n - 1);
      hide Goes, HalfRun, Stays;
      var (end, last) := HalfRun(half', side, pc', n - 1);
      HalfRunLater(half, side, pc, n);
      GoesOn(t, s, pc, 1, s', pc', n - 1, WithHalf(s', side, end), last);
    }
  }

  lemma HalfRunLater(half: Half, side: Side, pc: Pc, n: nat)
    requires n > 0 && Stays(half, side, pc, n)
    ensures var (half', pc') := HalfStep(half, pc);
            Stays(half', side, pc', n - 1) && HalfRun(half, side, pc, n) == HalfRun(half', side, pc', n - 1)
  {
    hide HalfStep;
  }

  /** A half closed by `finish`, with what was in its slot spent. */
  ghost function Finished(half: Half): Half {
    half.(closed := true, slot := None,
          spent := half.spent + match half.slot case None => multiset{} case Some(handle) => multiset{handle})
  }

  /** A half that has been reset or stopped. */
  ghost function Aborted(half: Half, code: nat): Half {
    Finished(half).(code := code, permit := true, signalled := true)
  }

  lemma AbortRun(half: Half, side: Side, code: nat, todo: seq<Task>)
    ensures Stays(half, side, AbortCode(side, code, todo), 4)
    ensures HalfRun(half, side, AbortCode(side, code, todo), 4) == (Aborted(half, code), Continue(todo))
  {
    hide Continue;
    var h1 := half.(code := code);
    var h2 := h1.(closed := true);
    var h3 := h2.(permit := true, signalled := true);
    assert half.spent + multiset{} == half.spent;
    assert HalfStep(h3, AbortTake(side, todo)) == (Aborted(half, code), Continue(todo));
    assert Stays(h3, side, AbortTake(side, todo), 1);
    assert Stays(h2, side, AbortNotify(side, todo), 2);
    assert Stays(h1, side, AbortFlag(side, todo), 3);
    assert HalfRun(h3, side, AbortTake(side, todo), 1) == (Aborted(half, code), Continue(todo));
    assert HalfRun(h2, side, AbortNotify(side, todo), 2) == (Aborted(half, code), Continue(todo));
    assert HalfRun(h1, side, AbortFlag(side, todo), 3) == (Aborted(half, code), Continue(todo));
  }

  lemma AbortGoes(t: Tid, s: State, side: Side, code: nat, todo: seq<Task>)
    requires t in s.pcs
    ensures Goes(t, s, AbortCode(side, code, todo), 4,
                 WithHalf(s, side, Aborted(HalfOf(s, side), code)), Continue(todo))
  {
    hide Goes, Stays, HalfRun, Aborted, Continue;
    AbortRun(HalfOf(s, side), side, code, todo);
    HalfRunGoes(t, s, side, AbortCode(side, code, todo), 4);
  }

  /** A reset or a stop stores its code, closes its half, notifies, and spends what is in the
      slot; the other half is not touched. */
  lemma AbortAlone(s: State, t: Tid, side: Side, code: nat)
    requires t in s.pcs && s.pcs[t].Idle?
    ensures Alone(At(s, t, Entry(s, Abort(side, code))), t, 4) == WithHalf(s, side, Aborted(HalfOf(s, side), code))
  {
    hide Alone, Goes, Aborted;
    AbortGoes(t, s, side, code, []);
    GoesHome(t, s, AbortCode(side, code, []), 4, WithHalf(s, side, Aborted(HalfOf(s, side), code)));
  }

  /** Both halves aborted with a code. */
  ghost function BothAborted(s: State, code: nat): State {
    s.(send := Aborted(s.send, code), recv := Aborted(s.recv, code))
  }

  ghost function Closed(s: State): State {
    if s.released then s else BothAborted(s, 0).(released := true, wins := s.wins + 1, counted := s.counted + 1)
  }

  lemma AbortBothGoes(t: Tid, s: State, code: nat, todo: seq<Task>)
    requires t in s.pcs
    ensures Goes(t, s, AbortCode(Send, code, [Request(Recv, code)] + todo), 8, BothAborted(s, code), Continue(todo))
  {
    hide Goes, Aborted;
    var after := [Request(Recv, code)] + todo;
    var s' := s.(send := Aborted(s.send, code));
    AbortGoes(t, s, Send, code, after);
    assert after[1..] == todo;
    AbortGoes(t, s', Recv, code, todo);
    GoesOn(t, s, AbortCode(Send, code, after), 4, s', AbortCode(Recv, code, todo), 4,
           BothAborted(s, code), Continue(todo));
  }

  lemma SwapGoes(t: Tid, s: State)
    requires t in s.pcs
    ensures s.released ==> Goes(t, s, CloseSwap([]), 10, s, Idle)
    ensures !s.released ==>
              Goes(t, s, CloseSwap([]), 1, s.(released := true, wins := s.wins + 1),
                   AbortCode(Send, 0, [Request(Recv, 0)] + [CountDown]))
  {
    hide Alone;
    var swap := At(s, t, CloseSwap([]));
    var next := if s.released then Idle else AbortCode(Send, 0, [Request(Recv, 0)] + [CountDown]);
    assert [Request(Recv, 0), CountDown] + [] == [Request(Recv, 0)] + [CountDown];
    assert swap.pcs[t := next] == s.pcs[t := next];
    AloneOnce(swap, t);
    if s.released {
      AloneSplit(swap, t, 1, 9);
      IdleStays(At(s, t, Idle), t, 9);
    }
  }

  lemma IdleStays(s: State, t: Tid, n: nat)
    requires t in s.pcs && s.pcs[t].Idle?
    ensures Alone(s, t, n) == s
  {
  }

  lemma CountGoes(t: Tid, s: State)
    requires t in s.pcs
    ensures Goes(t, s, CloseCount([]), 1, s.(counted := s.counted + 1), Idle)
  {
    hide Alone;
    assert At(s, t, CloseCount([])).pcs[t := Idle] == s.pcs[t := Idle];
    AloneOnce(At(s, t, CloseCount([])), t);
  }

  lemma CloseGoes(t: Tid, s: State)
    requires t in s.pcs
    ensures Goes(t, s, CloseSwap([]), 10, Closed(s), Idle)
  {
    hide Goes, Aborted;
    SwapGoes(t, s);
    if !s.released {
      var s1 := s.(released := true, wins := s.wins + 1);
      var s2 := BothAborted(s1, 0);
      var abort := AbortCode(Send, 0, [Request(Recv, 0)] + [CountDown]);
      assert Continue([CountDown]) == CloseCount([]);
      AbortBothGoes(t, s1, 0, [CountDown]);
      CountGoes(t, s2);
      GoesOn(t, s, CloseSwap([]), 1, s1, abort, 8, s2, CloseCount([]));
      GoesOn(t, s, CloseSwap([]), 9, s2, CloseCount([]), 1, Closed(s), Idle);
    }
  }

  /** `close` aborts both halves with code 0 and counts the stream down, once: later calls
      change nothing. */
  lemma CloseAlone(s: State, t: Tid)
    requires t in s.pcs && s.pcs[t].Idle?
    ensures Alone(At(s, t, Entry(s, CloseStream)), t, 10) == Closed(s)
  {
    hide Alone, Goes, Aborted;
    CloseGoes(t, s);
    GoesHome(t, s, CloseSwap([]), 10, Closed(s));
  }

  /** `stream_abort` stores the caller's code in both halves and then closes, which puts 0
      in its place, unless the stream had been closed before. */
  lemma AbortBothAlone(s: State, t: Tid, code: nat)
    requires t in s.pcs && s.pcs[t].Idle?
    ensures Alone(At(s, t, Entry(s, AbortBoth(code))), t, 18) == Closed(BothAborted(s, code))
  {
    hide Alone, Goes, Aborted;
    var s' := BothAborted(s, code);
    assert [Request(Recv, code)] + [CloseCall] == [Request(Recv, code), CloseCall];
    assert Continue([CloseCall]) == CloseSwap([]);
    AbortBothGoes(t, s, code, [CloseCall]);
    CloseGoes(t, s');
    GoesOn(t, s, AbortCode(Send, code, [Request(Recv, code), CloseCall]), 8, s', CloseSwap([]), 10, Closed(s'), Idle);
    GoesHome(t, s, AbortCode(Send, code, [Request(Recv, code), CloseCall]), 18, Closed(s'));
  }

  lemma FinishRun(half: Half)
    ensures Stays(half, Send, FinishFlag, 2) && HalfRun(half, Send, FinishFlag, 2) == (Finished(half), Idle)
  {
    var h := half.(closed := true);
    assert half.spent + multiset{} == half.spent;
    assert Stays(h, Send, FinishTake, 1) && HalfRun(h, Send, FinishTake, 1) == (Finished(half), Idle);
  }

  /** `finish` on a half in use changes nothing; otherwise it closes the send half and spends
      what is in the slot. */
  lemma FinishAlone(s: State, t: Tid)
    requires t in s.pcs && s.pcs[t].Idle?
    ensures Alone(At(s, t, Entry(s, Finish)), t, 2) ==
            if s.send.busy then s else s.(send := Finished(s.send))
  {
    hide Stays, HalfRun, Goes, Finished;
    assert s.pcs[t := Idle] == s.pcs;
    if !s.send.busy {
      FinishRun(s.send);
      HalfRunGoes(t, s, Send, FinishFlag, 2);
      GoesHome(t, s, FinishFlag, 2, s.(send := Finished(s.send)));
    } else {
      IdleStays(s, t, 2);
    }
  }

  /** What a take finds in an open half. */
  ghost function Taken(half: Half, side: Side): (Half, Pc) {
    if half.busy || half.slot.None? then (half, Idle)
    else (half.(busy := true, slot := None), Leased(side, half.slot.value, false))
  }

  lemma TakeRun(half: Half, side: Side)
    ensures var n := if half.busy then 1 else if half.slot.None? then 3 else 2;
            Stays(half, side, TakeFlag(side), n) && HalfRun(half, side, TakeFlag(side), n) == Taken(half, side)
  {
    if !half.busy {
      var h := half.(busy := true);
      var n := if half.slot.None? then 2 else 1;
      if half.slot.None? {
        assert Stays(h, side, TakeEmpty(side), 1) && HalfRun(h, side, TakeEmpty(side), 1) == (half, Idle);
      }
      assert Stays(h, side, TakeSlot(side), n) && HalfRun(h, side, TakeSlot(side), n) == Taken(half, side);
    }
  }

  /** Taking a half: a closed, a busy and an empty one are left as they are; otherwise the
      handle goes from the slot to a lease and the flag is set. */
  lemma TakeAlone(s: State, t: Tid, side: Side)
    requires t in s.pcs && s.pcs[t].Idle?
    ensures var half, s' := HalfOf(s, side), At(s, t, Entry(s, Take(side)));
            if half.closed then s' == s
            else if half.busy then Alone(s', t, 1) == s
            else match half.slot
                 case None => Alone(s', t, 3) == s
                 case Some(handle) =>
                   Alone(s', t, 2) ==
                   At(WithHalf(s, side, half.(busy := true, slot := None)), t, Leased(side, handle, false))
  {
    hide Stays, HalfRun, Alone;
    var half := HalfOf(s, side);
    assert s.pcs[t := Idle] == s.pcs;
    if !half.closed {
      TakeRun(half, side);
      HalfRunGoes(t, s, side, TakeFlag(side), if half.busy then 1 else if half.slot.None? then 3 else 2);
      HalfWrites(s, side, half, half);
    }
  }

  lemma DropRun(half: Half, side: Side, handle: Handle, woken: bool)
    ensures var n := if half.closed then 2 else 3;
            && Stays(half, side, Leased(side, handle, woken), n)
            && HalfRun(half, side, Leased(side, handle, woken), n) == (Dropped(half, handle), Idle)
  {
    var h := half.(busy := false);
    var n := if half.closed then 1 else 2;
    if !half.closed {
      assert Stays(h, side, DropPut(side, handle), 1);
      assert HalfRun(h, side, DropPut(side, handle), 1) == (Dropped(half, handle), Idle);
    }
    assert Stays(h, side, DropTest(side, handle, woken), n);
    assert HalfRun(h, side, DropTest(side, handle, woken), n) == (Dropped(half, handle), Idle);
  }

  ghost function Dropped(half: Half, handle: Handle): Half {
    if half.closed then half.(busy := false, spent := half.spent + multiset{handle})
    else half.(busy := false, slot := Some(handle))
  }

  /** Dropping a lease clears the flag and puts the handle back, or spends it when the half
      has been closed meanwhile. */
  lemma DropAlone(s: State, t: Tid, side: Side, handle: Handle, woken: bool)
    requires t in s.pcs && s.pcs[t].Idle?
    ensures var half := HalfOf(s, side);
            Alone(At(s, t, Leased(side, handle, woken)), t, if half.closed then 2 else 3)
            == WithHalf(s, side, Dropped(half, handle))
  {
    hide Stays, HalfRun, Alone, Goes, Dropped;
    var half := HalfOf(s, side);
    var n := if half.closed then 2 else 3;
    DropRun(half, side, handle, woken);
    HalfRunGoes(t, s, side, Leased(side, handle, woken), n);
    GoesHome(t, s, Leased(side, handle, woken), n, WithHalf(s, side, Dropped(half, handle)));
  }

  // ----- the stored code

  /** The step of a reset or a stop of this half that stores its code. */
  ghost predicate StoresCode(s: State, event: Event, side: Side) {
    event.Step? && event.t in s.pcs && s.pcs[event.t].AbortCode? && s.pcs[event.t].side == side
  }

  /** The code stored last, or that of a half nobody has aborted. */
  ghost function LastStored(run: seq<State>, events: seq<Event>, side: Side, n: nat): nat
    requires n <= |events| <= |run|
  {
    if n == 0 then NO_ABORT
    else if StoresCode(run[n - 1], events[n - 1], side) then run[n - 1].pcs[events[n - 1].t].code
    else LastStored(run, events, side, n - 1)
  }

  lemma HalfStepCode(half: Half, pc: Pc)
    requires OnHalf(pc)
    ensures HalfStep(half, pc).0.code == if pc.AbortCode? then pc.code else half.code
  {
    hide Continue;
  }

  lemma StepCode(s: State, t: Tid, side: Side)
    requires t in s.pcs && !s.pcs[t].Idle?
    ensures HalfOf(ThreadStep(s, t), side).code ==
            if s.pcs[t].AbortCode? && s.pcs[t].side == side then s.pcs[t].code else HalfOf(s, side).code
  {
    hide HalfStep, Continue;
    if OnHalf(s.pcs[t]) {
      HalfStepCode(HalfOf(s, SideOf(s.pcs[t])), s.pcs[t]);
    }
  }

  lemma EventCode(s: State, event: Event, s': State, side: Side)
    requires Next(s, event, s')
    ensures HalfOf(s', side).code ==
            if StoresCode(s, event, side) then s.pcs[event.t].code else HalfOf(s, side).code
  {
    hide ThreadStep, Entry;
    if event.Step? {
      StepCode(s, event.t, side);
    }
  }

  /** In any interleaving the code of a half is the one stored last: only the first step of a
      reset or a stop of that half writes it, and it writes its own. */
  lemma {:induction false} CodeIsLastStored(run: seq<State>, events: seq<Event>, side: Side, n: nat)
    requires IsRun(run, events) && n <= |events|
    ensures HalfOf(run[n], side).code == LastStored(run, events, side, n)
  {
    hide Apply, Enabled;
    if n > 0 {
      CodeIsLastStored(run, events, side, n - 1);
      assert Next(run[n - 1], events[n - 1], run[n]);
      EventCode(run[n - 1], events[n - 1], run[n], side);
    }
  }
}
