/** The gauge of queued bytes and its lock-free running maximum: `QueueGuard` in
    `native/iroh_beam_nif/src/stream.rs`. */
module QueuePeak {
  import opened Numbers
  import opened Sums

  type Tid(!new, ==) = nat

  /** The next atomic step of a thread: creating a guard adds the bytes, loads the peak and
      then compares and swaps until the peak is high enough. */
  datatype Pc =
    | NoGuard
    | Load(bytes: nat, current: nat)
    | Compare(bytes: nat, current: nat, observed: nat)
    | Live(bytes: nat)

  /** `highest` is history: the largest value `queued` ever had. */
  datatype State = State(queued: nat, peak: nat, highest: nat, pcs: map<Tid, Pc>)

  datatype Event =
    | Add(t: Tid, bytes: nat)
    | LoadPeak(t: Tid)
    | Test(t: Tid)
    | Swap(t: Tid, spurious: bool)
    | Drop(t: Tid)

  /** What a guard, made or in the making, has added. */
  function BytesOf(pc: Pc): nat {
    match pc
    case NoGuard => 0
    case Load(bytes, _) => bytes
    case Compare(bytes, _, _) => bytes
    case Live(bytes) => bytes
  }

  ghost predicate Enabled(s: State, event: Event) {
    && event.t in s.pcs
    && match event
       case Add(t, _) => s.pcs[t].NoGuard?
       case LoadPeak(t) => s.pcs[t].Load?
       case Test(t) => s.pcs[t].Compare? && s.pcs[t].current <= s.pcs[t].observed
       case Swap(t, _) => s.pcs[t].Compare? && s.pcs[t].current > s.pcs[t].observed
       case Drop(t) => s.pcs[t].Live?
  }

  /** A weak compare-exchange may fail for no reason; a failure reports the value seen. */
  function Succeeds(s: State, t: Tid, spurious: bool): bool
    requires t in s.pcs && s.pcs[t].Compare?
  {
    !spurious && s.peak == s.pcs[t].observed
  }

  ghost function Apply(s: State, event: Event): State
    requires Enabled(s, event)
  {
    var pc := s.pcs[event.t];
    match event
    case Add(t, bytes) =>
      var current := s.queued + bytes;
      s.(queued := current, highest := Max(s.highest, current), pcs := s.pcs[t := Load(bytes, current)])
    case LoadPeak(t) => s.(pcs := s.pcs[t := Compare(pc.bytes, pc.current, s.peak)])
    case Test(t) => s.(pcs := s.pcs[t := Live(pc.bytes)])
    case Swap(t, spurious) =>
      if Succeeds(s, t, spurious) then s.(peak := pc.current, pcs := s.pcs[t := Live(pc.bytes)])
      else s.(pcs := s.pcs[t := Compare(pc.bytes, pc.current, s.peak)])
    case Drop(t) => s.(queued := Minus(s.queued, pc.bytes), pcs := s.pcs[t := NoGuard])
  }

  ghost predicate Init(s: State) {
    s.queued == 0 && s.peak == 0 && s.highest == 0 && forall t <- s.pcs :: s.pcs[t].NoGuard?
  }

  ghost predicate Next(s: State, event: Event, s': State) {
    Enabled(s, event) && s' == Apply(s, event)
  }

  ghost predicate IsRun(run: seq<State>, events: seq<Event>) {
    && |run| == |events| + 1
    && Init(run[0])
    && forall i | 0 <= i < |events| :: Next(run[i], events[i], run[i + 1])
  }

  // ----- the invariant

  ghost function Guards(pcs: map<Tid, Pc>): map<Tid, nat> {
    map t | t in pcs :: BytesOf(pcs[t])
  }

  ghost predicate Creating(pc: Pc) {
    pc.Load? || pc.Compare?
  }

  ghost predicate PcFits(s: State, pc: Pc) {
    && (Creating(pc) ==> pc.current <= s.highest)
    && (pc.Compare? ==> pc.observed <= s.peak)
  }

  ghost predicate Inv(s: State) {
    && s.queued == Sum(Guards(s.pcs))
    && s.queued <= s.highest && s.peak <= s.highest
    && (forall t <- s.pcs :: PcFits(s, s.pcs[t]))
    && (s.peak == s.highest || exists t :: t in s.pcs && Creating(s.pcs[t]) && s.pcs[t].current == s.highest)
  }

  lemma GuardsMoved(pcs: map<Tid, Pc>, t: Tid, pc: Pc)
    requires t in pcs
    ensures Sum(Guards(pcs[t := pc])) == Sum(Guards(pcs)) - BytesOf(pcs[t]) + BytesOf(pc)
    ensures BytesOf(pcs[t]) <= Sum(Guards(pcs))
  {
    SumSet(Guards(pcs), t, BytesOf(pc));
    assert Guards(pcs[t := pc]) == Guards(pcs)[t := BytesOf(pc)];
  }

  lemma Preserved(s: State, event: Event)
    requires Inv(s) && Enabled(s, event)
    ensures Inv(Apply(s, event))
  {
    var t := event.t;
    var s' := Apply(s, event);
    GuardsMoved(s.pcs, t, s'.pcs[t]);
    assert PcFits(s, s.pcs[t]);
    if s'.peak != s'.highest {
      if s'.highest == s.highest {
        var u :| u in s.pcs && Creating(s.pcs[u]) && s.pcs[u].current == s.highest;
        assert Creating(s'.pcs[u]) && s'.pcs[u].current == s'.highest;
      } else {
        assert Creating(s'.pcs[t]) && s'.pcs[t].current == s'.highest;
      }
    }
  }

  lemma {:induction false} EveryState(run: seq<State>, events: seq<Event>, i: nat)
    requires IsRun(run, events) && i < |run|
    ensures Inv(run[i])
    decreases i
  {
    if i == 0 {
      SumOfZeros(Guards(run[0].pcs));
    } else {
      EveryState(run, events, i - 1);
      assert Next(run[i - 1], events[i - 1], run[i - 1 + 1]);
      Preserved(run[i - 1], events[i - 1]);
    }
  }

  // ----- the promises

  /** The gauge is the sum of the guards in existence, so no drop takes it below zero. */
  lemma GaugeIsSumOfGuards(run: seq<State>, events: seq<Event>, i: nat)
    requires IsRun(run, events) && i < |run|
    ensures run[i].queued == Sum(Guards(run[i].pcs))
    ensures forall t <- run[i].pcs :: BytesOf(run[i].pcs[t]) <= run[i].queued
  {
    EveryState(run, events, i);
    forall t <- run[i].pcs
      ensures BytesOf(run[i].pcs[t]) <= run[i].queued
    {
      GuardsMoved(run[i].pcs, t, NoGuard);
    }
  }

  /** What `highest` records: the maximum of the gauge so far. */
  lemma {:induction false} HighestIsMaximum(run: seq<State>, events: seq<Event>, i: nat)
    requires IsRun(run, events) && i < |run|
    ensures forall j | 0 <= j <= i :: run[j].queued <= run[i].highest
    ensures exists j | 0 <= j <= i :: run[j].queued == run[i].highest
    decreases i
  {
    if i > 0 {
      HighestIsMaximum(run, events, i - 1);
      EveryState(run, events, i);
      assert Next(run[i - 1], events[i - 1], run[i - 1 + 1]);
      if run[i].highest == run[i - 1].highest {
        var j :| 0 <= j <= i - 1 && run[j].queued == run[i - 1].highest;
        assert run[j].queued == run[i].highest;
      } else {
        assert run[i].queued == run[i].highest;
      }
    }
  }

  /** The peak never falls, never exceeds the true maximum, and equals it whenever no guard
      is being created - whatever swaps failed on the way, spuriously or not. */
  lemma PeakIsMaximumWhenQuiet(run: seq<State>, events: seq<Event>, i: nat)
    requires IsRun(run, events) && i < |run|
    ensures run[i].peak <= run[i].highest
    ensures (forall t <- run[i].pcs :: !Creating(run[i].pcs[t])) ==> run[i].peak == run[i].highest
    ensures i < |events| ==> run[i].peak <= run[i + 1].peak
  {
    EveryState(run, events, i);
    if i < |events| {
      assert Next(run[i], events[i], run[i + 1]);
      assert PcFits(run[i], run[i].pcs[events[i].t]);
    }
  }

  /** A swap that fails without being spurious has lost to a raise: the peak is strictly
      above what this thread had seen. A spurious failure of an up-to-date swap changes
      nothing at all. */
  lemma FailedSwapMeansProgress(run: seq<State>, events: seq<Event>, i: nat)
    requires IsRun(run, events) && i < |events| && events[i].Swap?
    ensures var s, t := run[i], events[i].t;
            && t in s.pcs && s.pcs[t].Compare?
            && (!events[i].spurious && !Succeeds(s, t, false) ==>
                  s.peak > s.pcs[t].observed && run[i + 1].pcs[t] == s.pcs[t].(observed := s.peak))
            && (events[i].spurious && s.peak == s.pcs[t].observed ==> run[i + 1] == s)
  {
    EveryState(run, events, i);
    assert Next(run[i], events[i], run[i + 1]);
    var s, t := run[i], events[i].t;
    assert PcFits(s, s.pcs[t]);
    assert s.pcs[t := s.pcs[t]] == s.pcs;
  }

  // ----- the loop itself

  /** What other threads do to the counters between two steps of this one: the gauge moves
      to any value, the peak is raised or left, and the next swap may fail spuriously. */
  datatype Interference = Interference(queued: nat, peak: nat, spurious: bool)

  function Raises(others: seq<Interference>): nat {
    if others == [] then 0 else Max(others[0].peak, Raises(others[1..]))
  }

  lemma RaisesTail(others: seq<Interference>, k: nat)
    requires k <= |others|
    ensures Raises(others[k..]) <= Raises(others)
  {
    if k > 0 {
      RaisesTail(others[1..], k - 1);
      assert others[k..] == others[1..][k - 1..];
    }
  }

  class QueueCounters {
    var queued: nat
    var peak: nat

    constructor ()
      ensures queued == 0 && peak == 0
    {
      queued, peak := 0, 0;
    }

    method Interfere(others: seq<Interference>) returns (rest: seq<Interference>, spurious: bool)
      modifies this
      ensures peak == if others == [] then old(peak) else Max(old(peak), others[0].peak)
      ensures queued == if others == [] then old(queued) else others[0].queued
      ensures rest == (if others == [] then [] else others[1..])
      ensures spurious == (others != [] && others[0].spurious)
    {
      rest, spurious := others, false;
      if others != [] {
        queued, peak := others[0].queued, Max(peak, others[0].peak);
        rest, spurious := others[1..], others[0].spurious;
      }
    }

    /** `QueueGuard::new`. `current` is the gauge right after this thread added its bytes;
        the peak ends at least that high, whatever the others do meanwhile, and exactly as
        high as it must when they do nothing. */
    method NewGuard(bytes: nat, others: seq<Interference>) returns (current: nat)
      modifies this
      ensures current == old(queued) + bytes
      ensures Max(old(peak), current) <= peak <= Max(Max(old(peak), current), Raises(others))
      ensures others == [] ==> queued == current && peak == Max(old(peak), current)
    {
      queued := queued + bytes;
      current := queued;
      var rest, spurious := Interfere(others);
      var observed := peak;
      while current > observed
        invariant observed <= peak && peak >= old(peak)
        invariant peak <= Max(old(peak), Raises(others))
        invariant |rest| <= |others| && rest == others[|others| - |rest|..]
        invariant others == [] ==> rest == [] && queued == current && peak == old(peak) && observed == peak
        decreases |rest|, peak > observed
      {
        RaisesTail(others, |others| - |rest|);
        rest, spurious := Interfere(rest);
        if !spurious && peak == observed {
          peak := current;
          break;
        }
        observed := peak;
      }
    }
  }
}
