/** Connection slots and accept permits of endpoints: `claim_connection`, `begin_accept` and
    their releases in `native/iroh_beam_nif/src/endpoint.rs`, `wrap_connection`, `close` and
    `AcceptPermit` in `connection.rs`, for any number of endpoints, connections and parties
    closing them at once. */
module Permits {
  import opened Numbers
  import opened Sums

  type Tid(!new, ==) = nat
  type EpId(!new, ==) = nat
  type ConnId(!new, ==) = nat
  type PermitId(!new, ==) = nat

  datatype Endpoint = Endpoint(active: nat, maxConnections: nat, pending: nat, maxAccepts: nat)

  /** A connection from its claim on. `made` says the resource exists, so that others can
      close it; `holds` and `counted` are history: whether its slot is still claimed, and
      whether it is in the global gauge. */
  datatype Conn = Conn(ep: EpId, made: bool, released: bool, holds: bool, counted: bool)

  datatype Permit = Permit(ep: EpId, live: bool)

  /** A thread in `wrap_connection` after its claim, or in `close`. */
  datatype Pc =
    | Idle
    | Count(c: ConnId)
    | Make(c: ConnId)
    | Swap(c: ConnId)
    | Release(c: ConnId)
    | Uncount(c: ConnId)

  datatype State = State(eps: map<EpId, Endpoint>, gauge: nat, conns: map<ConnId, Conn>,
                         permits: map<PermitId, Permit>, pcs: map<Tid, Pc>)

  /** `Close` is any of the paths to `close`: the explicit call, the owner going down, the
      drop of the resource, the waiter for the closed event, and a missing owner at creation. */
  datatype Event =
    | Claim(t: Tid, e: EpId, c: ConnId)
    | Close(t: Tid, c: ConnId)
    | Step(t: Tid)
    | BeginAccept(e: EpId, p: PermitId)
    | DropPermit(p: PermitId)

  ghost predicate Enabled(s: State, event: Event) {
    match event
    case Claim(t, e, c) => t in s.pcs && s.pcs[t].Idle? && e in s.eps && c !in s.conns
    case Close(t, c) => t in s.pcs && s.pcs[t].Idle? && c in s.conns && s.conns[c].made
    case Step(t) =>
      t in s.pcs && !s.pcs[t].Idle? && s.pcs[t].c in s.conns && s.conns[s.pcs[t].c].ep in s.eps
    case BeginAccept(e, p) => e in s.eps && p !in s.permits
    case DropPermit(p) => p in s.permits && s.permits[p].live && s.permits[p].ep in s.eps
  }

  ghost function Apply(s: State, event: Event): State
    requires Enabled(s, event)
  {
    match event
    case Claim(t, e, c) =>
      var ep := s.eps[e];
      if ep.active < ep.maxConnections then
        s.(eps := s.eps[e := ep.(active := ep.active + 1)],
           conns := s.conns[c := Conn(e, false, false, true, false)], pcs := s.pcs[t := Count(c)])
      else s
    case Close(t, c) => s.(pcs := s.pcs[t := Swap(c)])
    case Step(t) => ThreadStep(s, t, s.pcs[t].c)
    case BeginAccept(e, p) =>
      var ep := s.eps[e];
      if ep.pending < ep.maxAccepts then
        s.(eps := s.eps[e := ep.(pending := ep.pending + 1)], permits := s.permits[p := Permit(e, true)])
      else s
    case DropPermit(p) =>
      var permit := s.permits[p];
      var ep := s.eps[permit.ep];
      s.(eps := s.eps[permit.ep := ep.(pending := Minus(ep.pending, 1))],
         permits := s.permits[p := permit.(live := false)])
  }

  ghost function ThreadStep(s: State, t: Tid, c: ConnId): State
    requires t in s.pcs && !s.pcs[t].Idle? && s.pcs[t].c == c && c in s.conns && s.conns[c].ep in s.eps
  {
    var conn := s.conns[c];
    match s.pcs[t]
    case Count(_) => s.(gauge := s.gauge + 1, conns := s.conns[c := conn.(counted := true)], pcs := s.pcs[t := Make(c)])
    case Make(_) => s.(conns := s.conns[c := conn.(made := true)], pcs := s.pcs[t := Idle])
    case Swap(_) =>
      if conn.released then s.(pcs := s.pcs[t := Idle])
      else s.(conns := s.conns[c := conn.(released := true)], pcs := s.pcs[t := Release(c)])
    case Release(_) =>
      var ep := s.eps[conn.ep];
      s.(eps := s.eps[conn.ep := ep.(active := Minus(ep.active, 1))],
         conns := s.conns[c := conn.(holds := false)], pcs := s.pcs[t := Uncount(c)])
    case Uncount(_) =>
      s.(gauge := Minus(s.gauge, 1), conns := s.conns[c := conn.(counted := false)], pcs := s.pcs[t := Idle])
    case Idle => s
  }

  ghost predicate Next(s: State, event: Event, s': State) {
    Enabled(s, event) && s' == Apply(s, event)
  }

  ghost predicate Init(s: State) {
    && (forall e <- s.eps :: s.eps[e].active == 0 && s.eps[e].pending == 0)
    && s.gauge == 0 && s.conns == map[] && s.permits == map[]
    && forall t <- s.pcs :: s.pcs[t].Idle?
  }

  ghost predicate IsRun(run: seq<State>, events: seq<Event>) {
    && |run| == |events| + 1
    && Init(run[0])
    && forall i | 0 <= i < |events| :: Next(run[i], events[i], run[i + 1])
  }

  // ----- the invariant

  ghost function SlotsOf(conns: map<ConnId, Conn>, e: EpId): map<ConnId, nat> {
    map c | c in conns :: if conns[c].ep == e && conns[c].holds then 1 else 0
  }

  ghost function PermitsOf(permits: map<PermitId, Permit>, e: EpId): map<PermitId, nat> {
    map p | p in permits :: if permits[p].ep == e && permits[p].live then 1 else 0
  }

  ghost function CountedConns(conns: map<ConnId, Conn>): map<ConnId, nat> {
    map c | c in conns :: if conns[c].counted then 1 else 0
  }

  /** The thread that made the connection, or the one that won its `released` flag. */
  ghost predicate Working(pc: Pc, c: ConnId) {
    !pc.Idle? && !pc.Swap? && pc.c == c
  }

  ghost predicate ConnFits(conn: Conn) {
    && (conn.released ==> conn.made)
    && (conn.made && !conn.released ==> conn.holds && conn.counted)
    && (!conn.made ==> conn.holds)
    && (conn.made && conn.holds ==> conn.counted)
  }

  ghost predicate PcFits(conns: map<ConnId, Conn>, pc: Pc) {
    !pc.Idle? ==>
      && pc.c in conns
      && var conn := conns[pc.c];
         match pc
         case Count(_) => !conn.made && !conn.counted
         case Make(_) => !conn.made && conn.counted
         case Swap(_) => conn.made
         case Release(_) => conn.released && conn.holds && conn.counted
         case Uncount(_) => conn.released && !conn.holds && conn.counted
         case Idle => true
  }

  ghost predicate Flow(conns: map<ConnId, Conn>, pcs: map<Tid, Pc>) {
    && (forall c <- conns :: ConnFits(conns[c]))
    && (forall t <- pcs :: PcFits(conns, pcs[t]))
    && (forall t <- pcs, u <- pcs, c: ConnId | Working(pcs[t], c) && Working(pcs[u], c) :: t == u)
    && (forall c <- conns | !conns[c].made || (conns[c].released && conns[c].counted) ::
          exists t :: t in pcs && Working(pcs[t], c))
  }

  ghost predicate EpFits(s: State, e: EpId)
    requires e in s.eps
  {
    && s.eps[e].active == Sum(SlotsOf(s.conns, e)) <= s.eps[e].maxConnections
    && s.eps[e].pending == Sum(PermitsOf(s.permits, e)) <= s.eps[e].maxAccepts
  }

  /** Every connection and permit belongs to an endpoint. */
  ghost predicate Homes(conns: map<ConnId, Conn>, permits: map<PermitId, Permit>, eps: set<EpId>) {
    (forall c <- conns :: conns[c].ep in eps) && (forall p <- permits :: permits[p].ep in eps)
  }

  ghost predicate Inv(s: State) {
    && Flow(s.conns, s.pcs)
    && Homes(s.conns, s.permits, s.eps.Keys)
    && (forall e <- s.eps :: EpFits(s, e))
    && s.gauge == Sum(CountedConns(s.conns))
  }

  lemma SlotMoved(conns: map<ConnId, Conn>, c: ConnId, conn: Conn, e: EpId)
    ensures Sum(SlotsOf(conns[c := conn], e)) ==
            Sum(SlotsOf(conns, e)) + (if conn.ep == e && conn.holds then 1 else 0)
                                   - (if c in conns && conns[c].ep == e && conns[c].holds then 1 else 0)
    ensures c in conns && conns[c].ep == e && conns[c].holds ==> Sum(SlotsOf(conns, e)) >= 1
  {
    var v := if conn.ep == e && conn.holds then 1 else 0;
    SumSet(SlotsOf(conns, e), c, v);
    assert SlotsOf(conns[c := conn], e) == SlotsOf(conns, e)[c := v];
  }

  lemma CountMoved(conns: map<ConnId, Conn>, c: ConnId, conn: Conn)
    ensures Sum(CountedConns(conns[c := conn])) ==
            Sum(CountedConns(conns)) + (if conn.counted then 1 else 0)
                                     - (if c in conns && conns[c].counted then 1 else 0)
    ensures c in conns && conns[c].counted ==> Sum(CountedConns(conns)) >= 1
  {
    var v := if conn.counted then 1 else 0;
    SumSet(CountedConns(conns), c, v);
    assert CountedConns(conns[c := conn]) == CountedConns(conns)[c := v];
  }

  lemma PermitMoved(permits: map<PermitId, Permit>, p: PermitId, permit: Permit, e: EpId)
    ensures Sum(PermitsOf(permits[p := permit], e)) ==
            Sum(PermitsOf(permits, e)) + (if permit.ep == e && permit.live then 1 else 0)
                                       - (if p in permits && permits[p].ep == e && permits[p].live then 1 else 0)
    ensures p in permits && permits[p].ep == e && permits[p].live ==> Sum(PermitsOf(permits, e)) >= 1
  {
    var v := if permit.ep == e && permit.live then 1 else 0;
    SumSet(PermitsOf(permits, e), p, v);
    assert PermitsOf(permits[p := permit], e) == PermitsOf(permits, e)[p := v];
  }

  /** The flow of one connection through one thread's step. */
  lemma FlowMoved(conns: map<ConnId, Conn>, pcs: map<Tid, Pc>, t: Tid, pc: Pc, c: ConnId, conn: Conn)
    requires Flow(conns, pcs) && t in pcs && ConnFits(conn) && PcFits(conns[c := conn], pc)
    requires c in conns ==> Working(pcs[t], c) || (!conns[c].released && conns[c].made && pcs[t] == Swap(c))
    requires c in conns ==> (conns[c].made ==> conn.made)
    requires Working(pcs[t], c) || pcs[t].Idle? || pcs[t] == Swap(c)
    requires pc.Idle? || pc.c == c
    requires !conn.made || (conn.released && conn.counted) ==> Working(pc, c)
    ensures Flow(conns[c := conn], pcs[t := pc])
  {
    var conns', pcs' := conns[c := conn], pcs[t := pc];
    forall u <- pcs | u != t
      ensures !Working(pcs[u], c) && PcFits(conns', pcs[u])
    {
      assert PcFits(conns, pcs[u]);
    }
    forall d <- conns' | !conns'[d].made || (conns'[d].released && conns'[d].counted)
      ensures exists u :: u in pcs' && Working(pcs'[u], d)
    {
      if d == c {
        assert Working(pcs'[t], c);
      } else {
        var u :| u in pcs && Working(pcs[u], d);
        assert Working(pcs'[u], d);
      }
    }
  }

  /** A thread goes to wait for the flag, or away from it, with nothing else touched. */
  lemma FlowIdle(conns: map<ConnId, Conn>, pcs: map<Tid, Pc>, t: Tid, pc: Pc)
    requires Flow(conns, pcs) && t in pcs && (pcs[t].Idle? || pcs[t].Swap?)
    requires pc.Idle? || pc.Swap?
    requires PcFits(conns, pc)
    ensures Flow(conns, pcs[t := pc])
  {
    var pcs' := pcs[t := pc];
    forall d <- conns | !conns[d].made || (conns[d].released && conns[d].counted)
      ensures exists u :: u in pcs' && Working(pcs'[u], d)
    {
      var u :| u in pcs && Working(pcs[u], d);
      assert Working(pcs'[u], d);
    }
    forall u <- pcs', v <- pcs', d: ConnId | Working(pcs'[u], d) && Working(pcs'[v], d)
      ensures u == v
    {
      assert Working(pcs[u], d) && Working(pcs[v], d);
    }
  }

  lemma FlowPreserved(s: State, event: Event)
    requires Inv(s) && Enabled(s, event)
    ensures Flow(Apply(s, event).conns, Apply(s, event).pcs)
  {
    match event
    case Claim(t, e, c) =>
      if s.eps[e].active < s.eps[e].maxConnections {
        FlowMoved(s.conns, s.pcs, t, Count(c), c, Conn(e, false, false, true, false));
      }
    case Close(t, c) => FlowIdle(s.conns, s.pcs, t, Swap(c));
    case Step(t) =>
      var c := s.pcs[t].c;
      assert PcFits(s.conns, s.pcs[t]) && ConnFits(s.conns[c]);
      var s' := ThreadStep(s, t, c);
      if s.pcs[t].Swap? && s.conns[c].released {
        FlowIdle(s.conns, s.pcs, t, Idle);
      } else {
        FlowMoved(s.conns, s.pcs, t, s'.pcs[t], c, s'.conns[c]);
      }
    case BeginAccept(_, _) =>
    case DropPermit(_) =>
  }

  /** An endpoint's counter moves with the slots of its connections. */
  lemma EpFitsAfterConn(s: State, s': State, c: ConnId, conn: Conn, e: EpId)
    requires e in s.eps && EpFits(s, e) && s'.conns == s.conns[c := conn] && s'.permits == s.permits
    requires e in s'.eps && s'.eps[e] == s.eps[e].(active := s'.eps[e].active)
    requires s'.eps[e].active + (if c in s.conns && s.conns[c].ep == e && s.conns[c].holds then 1 else 0)
             == s.eps[e].active + (if conn.ep == e && conn.holds then 1 else 0)
    requires s'.eps[e].active <= s'.eps[e].maxConnections
    ensures EpFits(s', e)
  {
    SlotMoved(s.conns, c, conn, e);
  }

  lemma EpFitsAfterPermit(s: State, s': State, p: PermitId, permit: Permit, e: EpId)
    requires e in s.eps && EpFits(s, e) && s'.permits == s.permits[p := permit] && s'.conns == s.conns
    requires e in s'.eps && s'.eps[e] == s.eps[e].(pending := s'.eps[e].pending)
    requires s'.eps[e].pending + (if p in s.permits && s.permits[p].ep == e && s.permits[p].live then 1 else 0)
             == s.eps[e].pending + (if permit.ep == e && permit.live then 1 else 0)
    requires s'.eps[e].pending <= s'.eps[e].maxAccepts
    ensures EpFits(s', e)
  {
    PermitMoved(s.permits, p, permit, e);
  }

  lemma SlotHeldIsCounted(s: State, c: ConnId)
    requires c in s.conns && s.conns[c].holds && s.conns[c].ep in s.eps && EpFits(s, s.conns[c].ep)
    ensures s.eps[s.conns[c].ep].active >= 1
  {
    SlotMoved(s.conns, c, s.conns[c], s.conns[c].ep);
  }

  lemma PermitHeldIsCounted(s: State, p: PermitId)
    requires p in s.permits && s.permits[p].live && s.permits[p].ep in s.eps && EpFits(s, s.permits[p].ep)
    ensures s.eps[s.permits[p].ep].pending >= 1
  {
    PermitMoved(s.permits, p, s.permits[p], s.permits[p].ep);
  }

  lemma EpPreserved(s: State, event: Event, e: EpId)
    requires Inv(s) && Enabled(s, event) && e in s.eps && e in Apply(s, event).eps
    ensures EpFits(Apply(s, event), e)
  {
    assert EpFits(s, e);
    match event
    case Claim(t, f, c) => EpClaim(s, t, f, c, e);
    case Close(_, _) =>
    case Step(t) => EpStep(s, t, s.pcs[t].c, e);
    case BeginAccept(f, p) => EpAccept(s, f, p, e);
    case DropPermit(p) => EpDrop(s, p, e);
  }

  lemma EpClaim(s: State, t: Tid, f: EpId, c: ConnId, e: EpId)
    requires Enabled(s, Claim(t, f, c)) && e in s.eps && EpFits(s, e)
    ensures EpFits(Apply(s, Claim(t, f, c)), e)
  {
    if s.eps[f].active < s.eps[f].maxConnections {
      EpFitsAfterConn(s, Apply(s, Claim(t, f, c)), c, Conn(f, false, false, true, false), e);
    }
  }

  lemma EpAccept(s: State, f: EpId, p: PermitId, e: EpId)
    requires Enabled(s, BeginAccept(f, p)) && e in s.eps && EpFits(s, e)
    ensures EpFits(Apply(s, BeginAccept(f, p)), e)
  {
    if s.eps[f].pending < s.eps[f].maxAccepts {
      EpFitsAfterPermit(s, Apply(s, BeginAccept(f, p)), p, Permit(f, true), e);
    }
  }

  lemma EpDrop(s: State, p: PermitId, e: EpId)
    requires Inv(s) && Enabled(s, DropPermit(p)) && e in s.eps && EpFits(s, e)
    ensures EpFits(Apply(s, DropPermit(p)), e)
  {
    assert EpFits(s, s.permits[p].ep);
    PermitHeldIsCounted(s, p);
    EpFitsAfterPermit(s, Apply(s, DropPermit(p)), p, s.permits[p].(live := false), e);
  }

  lemma EpStep(s: State, t: Tid, c: ConnId, e: EpId)
    requires Inv(s) && Enabled(s, Step(t)) && s.pcs[t].c == c && e in s.eps
    ensures EpFits(ThreadStep(s, t, c), e)
  {
    hide Homes, SlotsOf, PermitsOf, CountedConns;
    var s' := ThreadStep(s, t, c);
    assert EpFits(s, e) && EpFits(s, s.conns[c].ep) && PcFits(s.conns, s.pcs[t]);
    if s.pcs[t].Release? {
      SlotHeldIsCounted(s, c);
      EpFitsAfterConn(s, s', c, s'.conns[c], e);
    } else if !s.pcs[t].Swap? || !s.conns[c].released {
      EpFitsAfterConn(s, s', c, s'.conns[c], e);
    }
  }

  lemma HomesWithConn(conns: map<ConnId, Conn>, permits: map<PermitId, Permit>, eps: set<EpId>, c: ConnId, conn: Conn)
    requires Homes(conns, permits, eps) && conn.ep in eps
    ensures Homes(conns[c := conn], permits, eps)
  {
  }

  lemma HomesWithPermit(conns: map<ConnId, Conn>, permits: map<PermitId, Permit>, eps: set<EpId>,
                        p: PermitId, permit: Permit)
    requires Homes(conns, permits, eps) && permit.ep in eps
    ensures Homes(conns, permits[p := permit], eps)
  {
  }

  lemma HomesPreserved(s: State, event: Event)
    requires Homes(s.conns, s.permits, s.eps.Keys) && Enabled(s, event)
    ensures var s' := Apply(s, event); Homes(s'.conns, s'.permits, s.eps.Keys)
  {
    match event
    case Claim(_, e, c) => HomesWithConn(s.conns, s.permits, s.eps.Keys, c, Conn(e, false, false, true, false));
    case Step(t) =>
      var c := s.pcs[t].c;
      HomesWithConn(s.conns, s.permits, s.eps.Keys, c, ThreadStep(s, t, c).conns[c]);
    case BeginAccept(e, p) => HomesWithPermit(s.conns, s.permits, s.eps.Keys, p, Permit(e, true));
    case DropPermit(p) => HomesWithPermit(s.conns, s.permits, s.eps.Keys, p, s.permits[p].(live := false));
    case Close(_, _) =>
  }

  lemma SameEndpoints(s: State, event: Event)
    requires Enabled(s, event)
    ensures Apply(s, event).eps.Keys == s.eps.Keys
  {
  }

  lemma GaugePreserved(s: State, event: Event)
    requires Inv(s) && Enabled(s, event)
    ensures Apply(s, event).gauge == Sum(CountedConns(Apply(s, event).conns))
  {
    hide EpFits, Homes;
    match event
    case Claim(_, e, c) => CountMoved(s.conns, c, Conn(e, false, false, true, false));
    case Step(t) => GaugeStep(s, t, s.pcs[t].c);
    case _ =>
  }

  lemma GaugeStep(s: State, t: Tid, c: ConnId)
    requires Inv(s) && Enabled(s, Step(t)) && s.pcs[t].c == c
    ensures ThreadStep(s, t, c).gauge == Sum(CountedConns(ThreadStep(s, t, c).conns))
  {
    hide EpFits, Homes, SlotsOf, PermitsOf, CountedConns;
    assert PcFits(s.conns, s.pcs[t]);
    if !s.pcs[t].Swap? || !s.conns[c].released {
      CountMoved(s.conns, c, ThreadStep(s, t, c).conns[c]);
    }
  }

  lemma Preserved(s: State, event: Event)
    requires Inv(s) && Enabled(s, event)
    ensures Inv(Apply(s, event))
  {
    FlowPreserved(s, event);
    HomesPreserved(s, event);
    SameEndpoints(s, event);
    forall e <- Apply(s, event).eps
      ensures EpFits(Apply(s, event), e)
    {
      EpPreserved(s, event, e);
    }
    GaugePreserved(s, event);
  }

  lemma {:induction false} EveryState(run: seq<State>, events: seq<Event>, i: nat)
    requires IsRun(run, events) && i < |run|
    ensures Inv(run[i])
    decreases i
  {
    if i == 0 {
      forall e <- run[0].eps
        ensures EpFits(run[0], e)
      {
        SumOfZeros(SlotsOf(run[0].conns, e));
        SumOfZeros(PermitsOf(run[0].permits, e));
      }
      SumOfZeros(CountedConns(run[0].conns));
    } else {
      EveryState(run, events, i - 1);
      assert Next(run[i - 1], events[i - 1], run[i - 1 + 1]);
      Preserved(run[i - 1], events[i - 1]);
    }
  }

  // ----- the promises

  /** Each endpoint's counters are its connections claimed and not yet through their release
      step, and its live accept permits; both stay within their limits; the global gauge is
      the connections counted in and not yet out. */
  lemma CountersAreClaims(run: seq<State>, events: seq<Event>, i: nat)
    requires IsRun(run, events) && i < |run|
    ensures forall e <- run[i].eps ::
              && run[i].eps[e].active == Sum(SlotsOf(run[i].conns, e)) <= run[i].eps[e].maxConnections
              && run[i].eps[e].pending == Sum(PermitsOf(run[i].permits, e)) <= run[i].eps[e].maxAccepts
    ensures run[i].gauge == Sum(CountedConns(run[i].conns))
  {
    EveryState(run, events, i);
    assert forall e <- run[i].eps :: EpFits(run[i], e);
  }

  /** No release is ever cut off at zero, so none is silently lost. */
  lemma NeverUnderflows(run: seq<State>, events: seq<Event>, i: nat)
    requires IsRun(run, events) && i < |events|
    ensures match events[i]
            case Step(t) =>
              && t in run[i].pcs
              && (run[i].pcs[t].Release? ==>
                    && run[i].pcs[t].c in run[i].conns && run[i].conns[run[i].pcs[t].c].ep in run[i].eps
                    && run[i].eps[run[i].conns[run[i].pcs[t].c].ep].active >= 1)
              && (run[i].pcs[t].Uncount? ==> run[i].gauge >= 1)
            case DropPermit(p) =>
              p in run[i].permits && run[i].permits[p].ep in run[i].eps && run[i].eps[run[i].permits[p].ep].pending >= 1
            case _ => true
  {
    EveryState(run, events, i);
    assert Next(run[i], events[i], run[i + 1]);
    var s := run[i];
    match events[i]
    case Step(t) =>
      assert PcFits(s.conns, s.pcs[t]);
      var c := s.pcs[t].c;
      assert EpFits(s, s.conns[c].ep);
      SlotMoved(s.conns, c, s.conns[c], s.conns[c].ep);
      CountMoved(s.conns, c, s.conns[c]);
    case DropPermit(p) =>
      assert EpFits(s, s.permits[p].ep);
      PermitMoved(s.permits, p, s.permits[p], s.permits[p].ep);
    case _ =>
  }

  /** However many parties close a connection, its slot is released once: the slot of a
      connection given back is not given back again, and one is given back only after the
      flag was won. When nobody is working on a closed connection, it holds nothing. */
  lemma ReleasedOnce(run: seq<State>, events: seq<Event>, i: nat, c: ConnId)
    requires IsRun(run, events) && i < |run| && c in run[i].conns
    ensures var conn := run[i].conns[c];
            && (!conn.released ==> conn.holds)
            && (i < |events| && !conn.holds ==> c in run[i + 1].conns && !run[i + 1].conns[c].holds
                                                && run[i + 1].conns[c].released)
            && ((forall t <- run[i].pcs :: !Working(run[i].pcs[t], c)) ==>
                  conn.made && (if conn.released then !conn.holds && !conn.counted else conn.holds && conn.counted))
    ensures forall t <- run[i].pcs, u <- run[i].pcs |
              Working(run[i].pcs[t], c) && Working(run[i].pcs[u], c) :: t == u
  {
    EveryState(run, events, i);
    hide EpFits, Homes;
    assert ConnFits(run[i].conns[c]);
    if i < |events| {
      assert Next(run[i], events[i], run[i + 1]);
      if !run[i].conns[c].holds {
        GivenBackStays(run[i], events[i], c);
      }
    }
  }

  lemma GivenBackStays(s: State, event: Event, c: ConnId)
    requires Flow(s.conns, s.pcs) && Enabled(s, event) && c in s.conns && !s.conns[c].holds
    ensures var s' := Apply(s, event); c in s'.conns && !s'.conns[c].holds && s'.conns[c].released
  {
    assert ConnFits(s.conns[c]);
    if event.Step? {
      assert PcFits(s.conns, s.pcs[event.t]);
    }
  }

  // ----- what each request comes to

  /** A connection is admitted exactly while the endpoint has fewer than its limit, counted
      by the slots its connections hold; then the counter goes up by one, the connection
      holds a slot and its thread goes on to make it. A refusal changes nothing. */
  lemma ClaimGrantedIff(run: seq<State>, events: seq<Event>, i: nat, t: Tid, e: EpId, c: ConnId)
    requires IsRun(run, events) && i < |events| && events[i] == Claim(t, e, c)
    ensures e in run[i].eps && e in run[i + 1].eps && c !in run[i].conns
    ensures c in run[i + 1].conns <==> Sum(SlotsOf(run[i].conns, e)) < run[i].eps[e].maxConnections
    ensures if c in run[i + 1].conns then
              && run[i + 1].conns[c].ep == e && run[i + 1].conns[c].holds && !run[i + 1].conns[c].released
              && t in run[i + 1].pcs && run[i + 1].pcs[t] == Count(c)
              && run[i + 1].eps == run[i].eps[e := run[i].eps[e].(active := run[i].eps[e].active + 1)]
            else run[i + 1] == run[i]
  {
    EveryState(run, events, i);
    hide Homes, Flow, SlotsOf, PermitsOf, CountedConns;
    assert Next(run[i], events[i], run[i + 1]);
    assert EpFits(run[i], e);
  }

  /** And so with the accepts that wait at an endpoint. */
  lemma AcceptGrantedIff(run: seq<State>, events: seq<Event>, i: nat, e: EpId, p: PermitId)
    requires IsRun(run, events) && i < |events| && events[i] == BeginAccept(e, p)
    ensures e in run[i].eps && p !in run[i].permits
    ensures p in run[i + 1].permits <==> Sum(PermitsOf(run[i].permits, e)) < run[i].eps[e].maxAccepts
    ensures if p in run[i + 1].permits then
              && run[i + 1].permits[p] == Permit(e, true)
              && run[i + 1].eps == run[i].eps[e := run[i].eps[e].(pending := run[i].eps[e].pending + 1)]
            else run[i + 1] == run[i]
  {
    EveryState(run, events, i);
    hide Homes, Flow, SlotsOf, PermitsOf, CountedConns;
    assert Next(run[i], events[i], run[i + 1]);
    assert EpFits(run[i], e);
  }

  /** Of the parties that close a connection the first wins the flag and goes on to release
      its slot; each later one finds it closed and is through. */
  lemma FirstCloserWins(run: seq<State>, events: seq<Event>, i: nat, t: Tid, c: ConnId)
    requires IsRun(run, events) && i < |events| && events[i] == Step(t)
    requires t in run[i].pcs && run[i].pcs[t] == Swap(c)
    ensures c in run[i].conns && c in run[i + 1].conns && run[i + 1].conns[c].released
    ensures t in run[i + 1].pcs && run[i + 1].pcs[t] == if run[i].conns[c].released then Idle else Release(c)
  {
    assert Next(run[i], events[i], run[i + 1]);
  }

  /** The release frees one slot of the connection's own endpoint. */
  lemma ReleaseFreesSlot(run: seq<State>, events: seq<Event>, i: nat, t: Tid, c: ConnId)
    requires IsRun(run, events) && i < |events| && events[i] == Step(t)
    requires t in run[i].pcs && run[i].pcs[t] == Release(c)
    ensures c in run[i].conns && c in run[i + 1].conns && run[i].conns[c].ep in run[i].eps
    ensures run[i].conns[c].holds && !run[i + 1].conns[c].holds
    ensures var e := run[i].conns[c].ep;
            && run[i].eps[e].active >= 1
            && run[i + 1].eps == run[i].eps[e := run[i].eps[e].(active := run[i].eps[e].active - 1)]
  {
    hide Homes, SlotsOf, PermitsOf, CountedConns, EpFits;
    ReachableFlow(run, events, i);
    NeverUnderflows(run, events, i);
    hide Flow, Init;
    assert Next(run[i], events[i], run[i + 1]);
  }

  /** What every thread can count on. */
  lemma ReachableFlow(run: seq<State>, events: seq<Event>, i: nat)
    requires IsRun(run, events) && i < |run|
    ensures forall t <- run[i].pcs :: PcFits(run[i].conns, run[i].pcs[t])
    ensures forall c <- run[i].conns :: run[i].conns[c].ep in run[i].eps
  {
    hide IsRun, PcFits;
    EveryState(run, events, i);
  }

  /** Dropping a permit frees one accept. */
  lemma DropFreesAccept(run: seq<State>, events: seq<Event>, i: nat, p: PermitId)
    requires IsRun(run, events) && i < |events| && events[i] == DropPermit(p)
    ensures p in run[i].permits && p in run[i + 1].permits && run[i].permits[p].ep in run[i].eps
    ensures run[i].permits[p].live && !run[i + 1].permits[p].live
    ensures var e := run[i].permits[p].ep;
            && run[i].eps[e].pending >= 1
            && run[i + 1].eps == run[i].eps[e := run[i].eps[e].(pending := run[i].eps[e].pending - 1)]
  {
    NeverUnderflows(run, events, i);
    assert Next(run[i], events[i], run[i + 1]);
  }

  /** The steps a thread still has to make in its call. */
  function StepsLeft(pc: Pc): nat {
    match pc
    case Idle => 0
    case Count(_) => 2
    case Make(_) => 1
    case Swap(_) => 3
    case Release(_) => 2
    case Uncount(_) => 1
  }

  /** Nobody can be kept from finishing: a thread in a call can always take its next step,
      each brings it closer to the end, and no other event moves it. */
  lemma NeverStuck(run: seq<State>, events: seq<Event>, i: nat, t: Tid)
    requires IsRun(run, events) && i < |run| && t in run[i].pcs && !run[i].pcs[t].Idle?
    ensures Enabled(run[i], Step(t))
    ensures i < |events| ==>
              && t in run[i + 1].pcs
              && if events[i] == Step(t) then StepsLeft(run[i + 1].pcs[t]) < StepsLeft(run[i].pcs[t])
                 else run[i + 1].pcs[t] == run[i].pcs[t]
  {
    ReachableFlow(run, events, i);
    hide Init;
    assert PcFits(run[i].conns, run[i].pcs[t]);
    if i < |events| {
      assert Next(run[i], events[i], run[i + 1]);
      hide PcFits, IsRun;
      EventMoves(run[i], events[i], t);
    }
  }

  lemma EventMoves(s: State, event: Event, t: Tid)
    requires Enabled(s, event) && t in s.pcs && !s.pcs[t].Idle?
    ensures var s' := Apply(s, event);
            && t in s'.pcs
            && if event == Step(t) then StepsLeft(s'.pcs[t]) < StepsLeft(s.pcs[t]) else s'.pcs[t] == s.pcs[t]
  {
  }
}
