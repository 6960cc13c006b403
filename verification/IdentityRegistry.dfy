/** The registry of live endpoint identities: `endpoint_bind_start` with every place where it
    gives a name back, and `release_identity`, in `native/iroh_beam_nif/src/endpoint.rs`, for
    any number of binds, of callers cancelling them and of parties releasing an endpoint. */
module IdentityRegistry {
  import opened Numbers
  import opened Options
  import opened Sums
  import O = Operation

  type Tid(!new, ==) = nat
  type BindId(!new, ==) = nat
  type Id(!new, ==) = nat

  /** What can end a bind before its caller has an endpoint. */
  datatype Failure = BuilderFailed | CallerGone | BindFailed | BindPanicked | BindCancelled

  datatype Reply = Bound | DuplicateIdentity | Failed(why: Failure)

  /** What the spawned bind task came to, as the selection sees it. */
  datatype Came = WithEndpoint | WithError | WithPanic | Stopped

  /** The steps of `release_identity`. */
  datatype Release = SwapFlag | RemoveName | CountDown

  /** The next step of a bind. In `Aborting` its own task takes a resource apart again whose
      owner had gone. */
  datatype Stage =
    | Building
    | Monitoring
    | Selecting
    | Exchanging(came: Came)
    | Releasing(answer: Option<Reply>)
    | CountingUp
    | Making
    | Owning
    | Aborting(next: Release)
    | Replying(reply: Reply)
    | Over

  /** The endpoint resource of a bind, by its `released` flag. */
  datatype Resource = NoResource | Live | Released

  /** One call of `endpoint_bind_start`. `phase`, `notifyDue` and `permit` are those of its
      operation, which others can reach once it is `launched`; `resource` is what it made.
      `reserved`, `removals`, `counted`, `wins` and `told` are history: whether it got the
      name, how often it or its resource removed a name, whether it is in the endpoint gauge,
      the calls of `cancel` that returned true, and the reply. */
  datatype Bind = Bind(id: Id, reserved: bool, stage: Stage,
                       phase: O.Phase, launched: bool, notifyDue: bool, permit: bool,
                       resource: Resource, removals: nat, counted: bool, wins: nat, told: Option<Reply>)

  /** A party inside `release_identity`: close, abort, owner down or drop. */
  datatype Pc = Idle | In(b: BindId, next: Release)

  /** `ids` is ACTIVE_IDENTITIES, `endpoints` ACTIVE_ENDPOINTS. */
  datatype State = State(ids: set<Id>, endpoints: nat, binds: map<BindId, Bind>, pcs: map<Tid, Pc>)

  datatype Event =
    | Reserve(b: BindId, id: Id)
    | Build(b: BindId, ok: bool)
    | MonitorCaller(b: BindId, alive: bool)
    | Cancel(b: BindId)
    | Notify(b: BindId)
    | BindEnds(b: BindId, came: Came)
    | SeeCancelled(b: BindId)
    | Exchange(b: BindId)
    | ReleaseReserved(b: BindId)
    | CountUp(b: BindId)
    | MakeResource(b: BindId)
    | MonitorOwner(b: BindId, alive: bool)
    | AbortStep(b: BindId)
    | Send(b: BindId)
    | BeginRelease(b: BindId, t: Tid)
    | ReleaseStep(t: Tid)

  function NewBind(id: Id, reserved: bool): Bind {
    Bind(id, reserved, if reserved then Building else Replying(DuplicateIdentity),
         O.Running, false, false, false, NoResource, 0, false, 0, None)
  }

  /** Others can reach the resource once it has a living owner or the task is done with it. */
  predicate Shared(bind: Bind) {
    bind.resource != NoResource && (bind.stage.Replying? || bind.stage.Over?)
  }

  ghost predicate BindEnabled(bind: Bind, event: Event) {
    match event
    case Build(_, _) => bind.stage.Building?
    case MonitorCaller(_, _) => bind.stage.Monitoring?
    case Cancel(_) => bind.launched
    case Notify(_) => bind.notifyDue
    case BindEnds(_, came) => bind.stage.Selecting? && !came.Stopped?
    case SeeCancelled(_) => bind.stage.Selecting? && bind.permit
    case Exchange(_) => bind.stage.Exchanging?
    case ReleaseReserved(_) => bind.stage.Releasing?
    case CountUp(_) => bind.stage.CountingUp?
    case MakeResource(_) => bind.stage.Making?
    case MonitorOwner(_, _) => bind.stage.Owning?
    case AbortStep(_) => bind.stage.Aborting?
    case Send(_) => bind.stage.Replying?
    case BeginRelease(_, _) => Shared(bind)
    case _ => false
  }

  ghost predicate Enabled(s: State, event: Event) {
    match event
    case Reserve(b, _) => b !in s.binds
    case BeginRelease(b, t) => b in s.binds && Shared(s.binds[b]) && t in s.pcs && s.pcs[t].Idle?
    case ReleaseStep(t) => t in s.pcs && s.pcs[t].In? && s.pcs[t].b in s.binds
    case _ => event.b in s.binds && BindEnabled(s.binds[event.b], event)
  }

  /** What follows the exchange of the operation's state. */
  function AfterExchange(came: Came): Stage {
    match came
    case WithEndpoint => CountingUp
    case WithError => Releasing(Some(Failed(BindFailed)))
    case WithPanic => Releasing(Some(Failed(BindPanicked)))
    case Stopped => Releasing(Some(Failed(BindCancelled)))
  }

  /** One step of `release_identity` on the bind, and the step after it. */
  function ReleaseOf(bind: Bind, next: Release): (Bind, Option<Release>) {
    match next
    case SwapFlag =>
      if bind.resource == Released then (bind, None) else (bind.(resource := Released), Some(RemoveName))
    case RemoveName => (bind.(removals := bind.removals + 1), Some(CountDown))
    case CountDown => (bind.(counted := false), None)
  }

  /** The effect of an event on its own bind. */
  function BindStep(bind: Bind, event: Event): Bind {
    match event
    case Build(_, ok) => bind.(stage := if ok then Monitoring else Releasing(Some(Failed(BuilderFailed))))
    case MonitorCaller(_, alive) =>
      bind.(launched := alive, stage := if alive then Selecting else Releasing(Some(Failed(CallerGone))))
    case Cancel(_) =>
      if bind.phase.Running? then bind.(phase := O.Cancelled, notifyDue := true, wins := bind.wins + 1) else bind
    case Notify(_) => bind.(notifyDue := false, permit := true)
    case BindEnds(_, came) => bind.(stage := Exchanging(came))
    case SeeCancelled(_) => bind.(permit := false, stage := Exchanging(Stopped))
    case Exchange(_) =>
      if bind.stage.Exchanging? && bind.phase.Running?
      then bind.(phase := O.Completed, stage := AfterExchange(bind.stage.came))
      else bind.(stage := Releasing(None))
    case ReleaseReserved(_) =>
      bind.(removals := bind.removals + 1,
            stage := match bind.stage
                     case Releasing(Some(reply)) => Replying(reply)
                     case _ => Over)
    case CountUp(_) => bind.(counted := true, stage := Making)
    case MakeResource(_) => bind.(resource := Live, stage := Owning)
    case MonitorOwner(_, alive) => bind.(stage := if alive then Replying(Bound) else Aborting(SwapFlag))
    case AbortStep(_) =>
      if bind.stage.Aborting? then
        var (bind', next) := ReleaseOf(bind, bind.stage.next);
        bind'.(stage := match next case Some(step) => Aborting(step) case None => Replying(Failed(CallerGone)))
      else bind
    case Send(_) => if bind.stage.Replying? then bind.(told := Some(bind.stage.reply), stage := Over) else bind
    case _ => bind
  }

  /** What `release_identity` does to the two globals. */
  ghost function Globals(s: State, id: Id, next: Release): State {
    match next
    case SwapFlag => s
    case RemoveName => s.(ids := s.ids - {id})
    case CountDown => s.(endpoints := Minus(s.endpoints, 1))
  }

  /** What an event of a bind does to the two globals. */
  ghost function GlobalsAfter(s: State, bind: Bind, event: Event): State {
    if event.ReleaseReserved? then Globals(s, bind.id, RemoveName)
    else if event.CountUp? then s.(endpoints := s.endpoints + 1)
    else if event.AbortStep? && bind.stage.Aborting? then Globals(s, bind.id, bind.stage.next)
    else s
  }

  ghost function Apply(s: State, event: Event): State
    requires Enabled(s, event)
  {
    if event.Reserve? then
      s.(ids := s.ids + {event.id}, binds := s.binds[event.b := NewBind(event.id, event.id !in s.ids)])
    else if event.BeginRelease? then s.(pcs := s.pcs[event.t := In(event.b, SwapFlag)])
    else if event.ReleaseStep? then PartyStep(s, event.t)
    else
      var bind := s.binds[event.b];
      GlobalsAfter(s, bind, event).(binds := s.binds[event.b := BindStep(bind, event)])
  }

  ghost function PartyStep(s: State, t: Tid): State
    requires t in s.pcs && s.pcs[t].In? && s.pcs[t].b in s.binds
  {
    var b, next := s.pcs[t].b, s.pcs[t].next;
    var (bind, more) := ReleaseOf(s.binds[b], next);
    Globals(s, bind.id, next)
    .(binds := s.binds[b := bind], pcs := s.pcs[t := match more case Some(step) => In(b, step) case None => Idle])
  }

  ghost predicate Next(s: State, event: Event, s': State) {
    Enabled(s, event) && s' == Apply(s, event)
  }

  ghost predicate Init(s: State) {
    s.ids == {} && s.endpoints == 0 && s.binds == map[] && forall t <- s.pcs :: s.pcs[t].Idle?
  }

  ghost predicate IsRun(run: seq<State>, events: seq<Event>) {
    && |run| == |events| + 1
    && Init(run[0])
    && forall i | 0 <= i < |events| :: Next(run[i], events[i], run[i + 1])
  }

  // ----- the invariant of one bind

  /** It got its name and nobody has given it back. */
  ghost predicate Holds(bind: Bind) {
    bind.reserved && bind.removals == 0
  }

  /** Nothing has come of it yet. */
  ghost predicate Plain(bind: Bind) {
    bind.reserved && bind.resource == NoResource && bind.removals == 0 && !bind.counted
  }

  /** The name is back and the resource, if there was one, is out of the gauge. */
  ghost predicate GivenBack(bind: Bind) {
    bind.reserved && bind.removals == 1 && !bind.counted && bind.resource != Live
  }

  ghost predicate ResourceFits(bind: Bind) {
    bind.resource != NoResource ==>
      && bind.reserved && bind.removals <= 1
      && (bind.resource == Live ==> bind.removals == 0)
      && (bind.removals == 0 ==> bind.counted)
  }

  ghost predicate ReplyFits(bind: Bind, reply: Reply) {
    && !bind.phase.Cancelled?
    && match reply
       case Bound => bind.resource != NoResource
       case DuplicateIdentity => !bind.reserved && bind.resource == NoResource && bind.removals == 0 && !bind.counted
       case Failed(why) => GivenBack(bind) && why != BindCancelled
  }

  ghost predicate StageFits(bind: Bind) {
    match bind.stage
    case Building => Plain(bind) && !bind.launched
    case Monitoring => Plain(bind) && !bind.launched
    case Selecting => Plain(bind) && bind.launched && !bind.phase.Completed?
    case Exchanging(came) =>
      Plain(bind) && bind.launched && !bind.phase.Completed? && (came.Stopped? ==> bind.phase.Cancelled?)
    case Releasing(answer) =>
      && Plain(bind)
      && (match answer
          case None => bind.phase.Cancelled?
          case Some(Failed(why)) => why != BindCancelled && (bind.launched ==> bind.phase.Completed?)
          case _ => false)
    case CountingUp => Plain(bind) && bind.launched && bind.phase.Completed?
    case Making =>
      && bind.reserved && bind.launched && bind.phase.Completed?
      && bind.resource == NoResource && bind.removals == 0 && bind.counted
    case Owning => bind.launched && bind.resource == Live && bind.counted && bind.phase.Completed?
    case Aborting(next) =>
      && bind.launched && bind.phase.Completed? && bind.counted
      && bind.resource == (if next.SwapFlag? then Live else Released)
      && bind.removals == (if next.CountDown? then 1 else 0)
    case Replying(reply) => ReplyFits(bind, reply) && (bind.launched ==> bind.phase.Completed?)
    case Over =>
      match bind.told
      case Some(reply) => ReplyFits(bind, reply) && (bind.launched ==> bind.phase.Completed?)
      case None => GivenBack(bind) && bind.resource == NoResource && bind.phase.Cancelled?
  }

  ghost predicate BindFits(bind: Bind) {
    && StageFits(bind) && ResourceFits(bind)
    && (!bind.launched ==> bind.phase.Running?)
    && bind.wins == (if bind.phase.Cancelled? then 1 else 0)
    && (bind.notifyDue || bind.permit ==> bind.phase.Cancelled?)
    && (bind.told.Some? ==> bind.stage.Over?)
  }

  lemma BindKept(bind: Bind, event: Event)
    requires BindFits(bind) && BindEnabled(bind, event)
    ensures BindFits(BindStep(bind, event)) && BindStep(bind, event).id == bind.id
    ensures Holds(BindStep(bind, event)) <==>
              Holds(bind) && !event.ReleaseReserved? && !(event.AbortStep? && bind.stage.next.RemoveName?)
    ensures (event.ReleaseReserved? || (event.AbortStep? && bind.stage.next.RemoveName?)) ==> Holds(bind)
    ensures BindStep(bind, event).counted ==
            ((bind.counted || event.CountUp?) && !(event.AbortStep? && bind.stage.next.CountDown?))
  {
  }

  lemma ReleaseKept(bind: Bind, next: Release)
    requires BindFits(bind) && Shared(bind) && Due(bind, next)
    ensures var (bind', more) := ReleaseOf(bind, next);
            && BindFits(bind') && Shared(bind') && bind'.id == bind.id
            && (more.Some? ==> Due(bind', more.value))
            && (Holds(bind') <==> Holds(bind) && !next.RemoveName?)
            && (next.RemoveName? ==> Holds(bind))
            && (bind'.counted <==> bind.counted && !next.CountDown?)
            && (next.CountDown? ==> bind.counted)
  {
  }

  /** When a step of `release_identity` comes. */
  ghost predicate Due(bind: Bind, next: Release) {
    match next
    case SwapFlag => true
    case RemoveName => bind.resource == Released && bind.removals == 0
    case CountDown => bind.removals == 1 && bind.counted
  }

  /** The bind's own steps leave a shared resource to the parties. */
  lemma SharedUntouched(bind: Bind, event: Event)
    requires BindFits(bind) && BindEnabled(bind, event) && Shared(bind)
    ensures var bind' := BindStep(bind, event);
            && Shared(bind')
            && (bind'.resource, bind'.removals, bind'.counted) == (bind.resource, bind.removals, bind.counted)
  {
  }

  lemma NewlyShared(bind: Bind, event: Event)
    requires BindFits(bind) && BindEnabled(bind, event) && !Shared(bind) && Shared(BindStep(bind, event))
    ensures BindStep(bind, event).resource == Live || !BindStep(bind, event).counted
  {
  }

  // ----- the invariant of all of them

  ghost predicate PcFits(binds: map<BindId, Bind>, pc: Pc) {
    pc.In? ==> pc.b in binds && Shared(binds[pc.b]) && Due(binds[pc.b], pc.next)
  }

  ghost predicate PastFlag(pc: Pc, b: BindId) {
    pc.In? && !pc.next.SwapFlag? && pc.b == b
  }

  ghost predicate OnePastFlag(pcs: map<Tid, Pc>) {
    forall t <- pcs, u <- pcs, b: BindId | PastFlag(pcs[t], b) && PastFlag(pcs[u], b) :: t == u
  }

  ghost predicate Unfinished(bind: Bind) {
    Shared(bind) && bind.resource == Released && bind.counted
  }

  ghost predicate Finishing(pcs: map<Tid, Pc>, b: BindId) {
    exists t :: t in pcs && PastFlag(pcs[t], b)
  }

  /** A released resource still counted has a party on its way to finish the release. */
  ghost predicate ReleaseUnderWay(binds: map<BindId, Bind>, pcs: map<Tid, Pc>) {
    forall b <- binds | Unfinished(binds[b]) :: Finishing(pcs, b)
  }

  ghost predicate Parties(binds: map<BindId, Bind>, pcs: map<Tid, Pc>) {
    (forall t <- pcs :: PcFits(binds, pcs[t])) && OnePastFlag(pcs) && ReleaseUnderWay(binds, pcs)
  }

  /** The registry is exactly the names held, and no name is held twice. */
  ghost predicate Names(ids: set<Id>, binds: map<BindId, Bind>) {
    && (forall b <- binds | Holds(binds[b]) :: binds[b].id in ids)
    && (forall id <- ids :: exists b :: b in binds && Holds(binds[b]) && binds[b].id == id)
    && (forall b <- binds, c <- binds | Holds(binds[b]) && Holds(binds[c]) && b != c :: binds[b].id != binds[c].id)
  }

  ghost function Counts(binds: map<BindId, Bind>): map<BindId, nat> {
    map b | b in binds :: if binds[b].counted then 1 else 0
  }

  ghost predicate AllFit(binds: map<BindId, Bind>) {
    forall b <- binds :: BindFits(binds[b])
  }

  ghost predicate Inv(s: State) {
    && AllFit(s.binds) && Parties(s.binds, s.pcs) && Names(s.ids, s.binds)
    && s.endpoints == Sum(Counts(s.binds))
  }

  lemma NameAdded(ids: set<Id>, binds: map<BindId, Bind>, b: BindId, bind: Bind)
    requires Names(ids, binds) && b !in binds && Holds(bind) && bind.id !in ids
    ensures Names(ids + {bind.id}, binds[b := bind])
  {
    hide Holds;
    var binds' := binds[b := bind];
    forall id <- ids + {bind.id}
      ensures exists c :: c in binds' && Holds(binds'[c]) && binds'[c].id == id
    {
      if id in ids {
        var c :| c in binds && Holds(binds[c]) && binds[c].id == id;
        assert binds'[c] == binds[c];
      } else {
        assert binds'[b] == bind;
      }
    }
  }

  /** A name leaves the registry only by the one bind that holds it. */
  lemma NameRemoved(ids: set<Id>, binds: map<BindId, Bind>, b: BindId, bind: Bind)
    requires Names(ids, binds) && b in binds && Holds(binds[b]) && !Holds(bind)
    ensures Names(ids - {binds[b].id}, binds[b := bind])
  {
    hide Holds;
    var binds' := binds[b := bind];
    forall id <- ids - {binds[b].id}
      ensures exists c :: c in binds' && Holds(binds'[c]) && binds'[c].id == id
    {
      var c :| c in binds && Holds(binds[c]) && binds[c].id == id;
      assert binds'[c] == binds[c];
    }
  }

  lemma NamesKept(ids: set<Id>, binds: map<BindId, Bind>, b: BindId, bind: Bind)
    requires Names(ids, binds)
    requires if b in binds then bind.id == binds[b].id && (Holds(bind) <==> Holds(binds[b])) else !Holds(bind)
    ensures Names(ids, binds[b := bind])
  {
    hide Holds;
    var binds' := binds[b := bind];
    forall id <- ids
      ensures exists c :: c in binds' && Holds(binds'[c]) && binds'[c].id == id
    {
      var c :| c in binds && Holds(binds[c]) && binds[c].id == id;
      assert Holds(binds'[c]) && binds'[c].id == id;
    }
  }

  lemma CountMoved(binds: map<BindId, Bind>, b: BindId, bind: Bind)
    ensures Sum(Counts(binds[b := bind])) == Sum(Counts(binds)) + (if bind.counted then 1 else 0)
                                             - (if b in binds && binds[b].counted then 1 else 0)
    ensures b in binds && binds[b].counted ==> Sum(Counts(binds)) >= 1
  {
    var v := if bind.counted then 1 else 0;
    SumSet(Counts(binds), b, v);
    assert Counts(binds[b := bind]) == Counts(binds)[b := v];
  }

  /** Nobody is at a bind that is not shared. */
  lemma PartiesElsewhere(binds: map<BindId, Bind>, pcs: map<Tid, Pc>, b: BindId, bind: Bind)
    requires Parties(binds, pcs) && (b in binds ==> !Shared(binds[b]))
    requires !Unfinished(bind)
    ensures Parties(binds[b := bind], pcs)
  {
    hide Shared, Due, PastFlag;
    var binds' := binds[b := bind];
    forall t <- pcs ensures PcFits(binds', pcs[t]) {
      assert PcFits(binds, pcs[t]);
    }
    forall c <- binds' | Unfinished(binds'[c]) ensures Finishing(pcs, c) {
      assert c != b && Unfinished(binds[c]);
    }
  }

  lemma PartiesUnmoved(binds: map<BindId, Bind>, pcs: map<Tid, Pc>, b: BindId, bind: Bind)
    requires Parties(binds, pcs) && b in binds && Shared(binds[b]) && Shared(bind)
    requires (bind.resource, bind.removals, bind.counted) == (binds[b].resource, binds[b].removals, binds[b].counted)
    ensures Parties(binds[b := bind], pcs)
  {
    hide PastFlag;
    var binds' := binds[b := bind];
    forall t <- pcs ensures PcFits(binds', pcs[t]) {
      assert PcFits(binds, pcs[t]);
    }
    forall c <- binds' | Unfinished(binds'[c]) ensures Finishing(pcs, c) {
      assert Unfinished(binds[c]);
    }
  }

  lemma PartyEnters(binds: map<BindId, Bind>, pcs: map<Tid, Pc>, t: Tid, b: BindId)
    requires Parties(binds, pcs) && t in pcs && pcs[t].Idle? && b in binds && Shared(binds[b])
    ensures Parties(binds, pcs[t := In(b, SwapFlag)])
  {
    hide Shared;
    var pcs' := pcs[t := In(b, SwapFlag)];
    forall c <- binds | Unfinished(binds[c]) ensures Finishing(pcs', c) {
      var u :| u in pcs && PastFlag(pcs[u], c);
      assert PastFlag(pcs'[u], c);
    }
  }

  /** One party's step: nobody else is past the flag of its bind. */
  lemma PartyMoves(binds: map<BindId, Bind>, pcs: map<Tid, Pc>, t: Tid)
    requires Parties(binds, pcs) && t in pcs && pcs[t].In? && AllFit(binds)
    ensures var b, next := pcs[t].b, pcs[t].next;
            && b in binds && Shared(binds[b])
            && var (bind, more) := ReleaseOf(binds[b], next);
               Parties(binds[b := bind], pcs[t := match more case Some(step) => In(b, step) case None => Idle])
  {
    assert PcFits(binds, pcs[t]);
    var b, next := pcs[t].b, pcs[t].next;
    var (bind, more) := ReleaseOf(binds[b], next);
    ReleaseKept(binds[b], next);
    var binds', pcs' := binds[b := bind], pcs[t := match more case Some(step) => In(b, step) case None => Idle];
    forall u <- pcs' ensures PcFits(binds', pcs'[u]) {
      if u != t {
        OthersKept(binds, pcs, t, u);
      }
    }
    forall u <- pcs', v <- pcs', c: BindId | PastFlag(pcs'[u], c) && PastFlag(pcs'[v], c) ensures u == v {
      OnlyOne(binds, pcs, t, pcs', u, v, c);
    }
    forall c <- binds' | Unfinished(binds'[c]) ensures Finishing(pcs', c) {
      if c == b {
        StillFinishing(binds, pcs, t, pcs');
      } else {
        var u :| u in pcs && PastFlag(pcs[u], c);
        assert PastFlag(pcs'[u], c);
      }
    }
  }

  lemma OthersKept(binds: map<BindId, Bind>, pcs: map<Tid, Pc>, t: Tid, u: Tid)
    requires Parties(binds, pcs) && t in pcs && pcs[t].In? && u in pcs && u != t && AllFit(binds)
    ensures pcs[t].b in binds
    ensures PcFits(binds[pcs[t].b := ReleaseOf(binds[pcs[t].b], pcs[t].next).0], pcs[u])
  {
    assert PcFits(binds, pcs[t]) && PcFits(binds, pcs[u]);
    var b := pcs[t].b;
    ReleaseKept(binds[b], pcs[t].next);
    if PastFlag(pcs[u], b) {
      assert !PastFlag(pcs[t], b);
    }
  }

  lemma OnlyOne(binds: map<BindId, Bind>, pcs: map<Tid, Pc>, t: Tid, pcs': map<Tid, Pc>, u: Tid, v: Tid, c: BindId)
    requires Parties(binds, pcs) && t in pcs && pcs[t].In? && pcs[t].b in binds && AllFit(binds)
    requires var (bind, more) := ReleaseOf(binds[pcs[t].b], pcs[t].next);
             pcs' == pcs[t := match more case Some(step) => In(pcs[t].b, step) case None => Idle]
    requires u in pcs && v in pcs && PastFlag(pcs'[u], c) && PastFlag(pcs'[v], c)
    ensures u == v
  {
    assert PcFits(binds, pcs[t]) && PcFits(binds, pcs[u]) && PcFits(binds, pcs[v]);
    assert BindFits(binds[pcs[t].b]);
    assert u != t ==> PastFlag(pcs[u], c);
    assert v != t ==> PastFlag(pcs[v], c);
    assert PastFlag(pcs[u], c) && PastFlag(pcs[v], c) ==> u == v;
  }

  lemma StillFinishing(binds: map<BindId, Bind>, pcs: map<Tid, Pc>, t: Tid, pcs': map<Tid, Pc>)
    requires Parties(binds, pcs) && t in pcs && pcs[t].In? && pcs[t].b in binds && AllFit(binds)
    requires var (bind, more) := ReleaseOf(binds[pcs[t].b], pcs[t].next);
             && Unfinished(bind)
             && pcs' == pcs[t := match more case Some(step) => In(pcs[t].b, step) case None => Idle]
    ensures Finishing(pcs', pcs[t].b)
  {
    var b := pcs[t].b;
    assert PcFits(binds, pcs[t]);
    if PastFlag(pcs'[t], b) {
    } else {
      assert Unfinished(binds[b]);
      var u :| u in pcs && PastFlag(pcs[u], b);
      assert PastFlag(pcs'[u], b);
    }
  }

  // ----- every event keeps it

  lemma ReserveKeeps(s: State, b: BindId, id: Id)
    requires Inv(s) && b !in s.binds
    ensures Inv(Apply(s, Reserve(b, id)))
  {
    hide Parties, Names, Counts;
    var bind := NewBind(id, id !in s.ids);
    PartiesElsewhere(s.binds, s.pcs, b, bind);
    CountMoved(s.binds, b, bind);
    ReserveNames(s.ids, s.binds, b, id);
  }

  lemma ReserveNames(ids: set<Id>, binds: map<BindId, Bind>, b: BindId, id: Id)
    requires Names(ids, binds) && b !in binds
    ensures Names(ids + {id}, binds[b := NewBind(id, id !in ids)])
  {
    hide Names;
    if id in ids {
      assert ids + {id} == ids;
      NamesKept(ids, binds, b, NewBind(id, false));
    } else {
      NameAdded(ids, binds, b, NewBind(id, true));
    }
  }

  ghost predicate OwnEvent(event: Event) {
    !event.Reserve? && !event.BeginRelease? && !event.ReleaseStep?
  }

  lemma OwnEventParties(s: State, event: Event)
    requires Inv(s) && Enabled(s, event) && OwnEvent(event)
    ensures Parties(s.binds[event.b := BindStep(s.binds[event.b], event)], s.pcs)
  {
    hide Parties, BindStep, Names;
    var bind := s.binds[event.b];
    if Shared(bind) {
      SharedUntouched(bind, event);
      PartiesUnmoved(s.binds, s.pcs, event.b, BindStep(bind, event));
    } else {
      if Shared(BindStep(bind, event)) {
        NewlyShared(bind, event);
      }
      PartiesElsewhere(s.binds, s.pcs, event.b, BindStep(bind, event));
    }
  }

  /** What an event of a bind removes and counts. */
  lemma OwnEventGlobals(s: State, event: Event)
    requires Inv(s) && Enabled(s, event) && OwnEvent(event)
    ensures var bind, s' := s.binds[event.b], Apply(s, event);
            && Names(s'.ids, s'.binds) && s'.endpoints == Sum(Counts(s'.binds))
            && s'.binds == s.binds[event.b := BindStep(bind, event)] && s'.pcs == s.pcs
  {
    hide Names, Counts, StageFits, ResourceFits;
    hide Parties, BindStep, Holds;
    var bind := s.binds[event.b];
    BindKept(bind, event);
    CountMoved(s.binds, event.b, BindStep(bind, event));
    if event.ReleaseReserved? || (event.AbortStep? && bind.stage.next.RemoveName?) {
      NameRemoved(s.ids, s.binds, event.b, BindStep(bind, event));
    } else {
      NamesKept(s.ids, s.binds, event.b, BindStep(bind, event));
    }
    if event.CountUp? || (event.AbortStep? && bind.stage.next.CountDown?) {
      CountsHere(bind, event);
    }
  }

  lemma CountsHere(bind: Bind, event: Event)
    requires BindFits(bind) && BindEnabled(bind, event)
    ensures event.CountUp? ==> !bind.counted
    ensures event.AbortStep? ==> bind.counted
  {
  }

  lemma OwnEventKeeps(s: State, event: Event)
    requires Inv(s) && Enabled(s, event) && OwnEvent(event)
    ensures Inv(Apply(s, event))
  {
    hide Parties, Names, BindStep, BindFits, Apply;
    OwnEventParties(s, event);
    OwnEventGlobals(s, event);
    assert BindFits(BindStep(s.binds[event.b], event)) by { BindKept(s.binds[event.b], event); }
  }

  lemma PartyStepKeeps(s: State, t: Tid)
    requires Inv(s) && Enabled(s, ReleaseStep(t))
    ensures Inv(Apply(s, ReleaseStep(t)))
  {
    hide ResourceFits, StageFits, Names, Counts;
    var b, next := s.pcs[t].b, s.pcs[t].next;
    PartyMoves(s.binds, s.pcs, t);
    assert PcFits(s.binds, s.pcs[t]);
    hide Parties, ReleaseOf, Holds, Shared, BindFits;
    ReleaseKept(s.binds[b], next);
    var bind := ReleaseOf(s.binds[b], next).0;
    CountMoved(s.binds, b, bind);
    if next.RemoveName? {
      NameRemoved(s.ids, s.binds, b, bind);
    } else {
      NamesKept(s.ids, s.binds, b, bind);
    }
  }

  lemma Preserved(s: State, event: Event)
    requires Inv(s) && Enabled(s, event)
    ensures Inv(Apply(s, event))
  {
    if event.Reserve? {
      ReserveKeeps(s, event.b, event.id);
    } else if event.BeginRelease? {
      hide Names, AllFit;
      PartyEnters(s.binds, s.pcs, event.t, event.b);
    } else if event.ReleaseStep? {
      PartyStepKeeps(s, event.t);
    } else {
      OwnEventKeeps(s, event);
    }
  }

  lemma StepAt(run: seq<State>, events: seq<Event>, i: nat)
    requires IsRun(run, events) && i < |events|
    ensures Next(run[i], events[i], run[i + 1])
  {
  }

  lemma {:induction false} EveryState(run: seq<State>, events: seq<Event>, i: nat)
    requires IsRun(run, events) && i < |run|
    ensures Inv(run[i])
    decreases i
  {
    if i == 0 {
      SumOfZeros(Counts(run[0].binds));
    } else {
      hide Inv, Enabled, Apply;
      EveryState(run, events, i - 1);
      StepAt(run, events, i - 1);
      Preserved(run[i - 1], events[i - 1]);
    }
  }

  // ----- the promises

  /** At every moment the registry is the disjoint union of the names of the binds under way
      and of the endpoints that have not yet done their removal. */
  lemma RegistryIsWhatIsHeld(run: seq<State>, events: seq<Event>, i: nat)
    requires IsRun(run, events) && i < |run|
    ensures run[i].ids == set b | b in run[i].binds && Holds(run[i].binds[b]) :: run[i].binds[b].id
    ensures forall b <- run[i].binds, c <- run[i].binds |
              b != c && Holds(run[i].binds[b]) && Holds(run[i].binds[c]) :: run[i].binds[b].id != run[i].binds[c].id
  {
    hide Holds, AllFit, Parties;
    EveryState(run, events, i);
  }

  /** The one step by which a bind gives its name back. */
  ghost predicate GivesBack(s: State, event: Event, b: BindId) {
    || (event.ReleaseReserved? && event.b == b)
    || (event.AbortStep? && event.b == b && b in s.binds && s.binds[b].stage == Aborting(RemoveName))
    || (event.ReleaseStep? && event.t in s.pcs && s.pcs[event.t] == In(b, RemoveName))
  }

  /** No step takes another party's name away: what a bind holds after a step that is not
      its own removal it held before, and its name is still registered. */
  lemma NobodyElseReleases(run: seq<State>, events: seq<Event>, i: nat, b: BindId)
    requires IsRun(run, events) && i < |events| && b in run[i].binds && Holds(run[i].binds[b])
    ensures b in run[i + 1].binds
    ensures if GivesBack(run[i], events[i], b)
            then !Holds(run[i + 1].binds[b]) && run[i + 1].ids == run[i].ids - {run[i].binds[b].id}
            else Holds(run[i + 1].binds[b]) && run[i + 1].binds[b].id in run[i + 1].ids
  {
    hide StageFits, ResourceFits, Counts;
    hide Holds, Parties;
    EveryState(run, events, i);
    EveryState(run, events, i + 1);
    StepAt(run, events, i);
    var s, event := run[i], events[i];
    if event.ReleaseStep? {
      PartyHolds(s, event.t, b);
    } else if OwnEvent(event) && event.b == b {
      hide BindStep, BindFits;
      BindKept(s.binds[b], event);
    }
  }

  lemma PartyHolds(s: State, t: Tid, b: BindId)
    requires Inv(s) && Enabled(s, ReleaseStep(t)) && b in s.binds
    ensures Holds(PartyStep(s, t).binds[b]) <==> Holds(s.binds[b]) && s.pcs[t] != In(b, RemoveName)
  {
    assert PcFits(s.binds, s.pcs[t]);
    ReleaseKept(s.binds[s.pcs[t].b], s.pcs[t].next);
  }

  /** Every bind that got the name gives it back at most once, by whichever of its release
      sites, and has given it back exactly once when it is over without an endpoint, or when
      its endpoint was released and the party that won the flag is through; one that was
      refused gives nothing back. */
  lemma ReleasedOnce(run: seq<State>, events: seq<Event>, i: nat, b: BindId)
    requires IsRun(run, events) && i < |run| && b in run[i].binds
    ensures var bind := run[i].binds[b];
            && bind.removals <= 1 && (!bind.reserved ==> bind.removals == 0)
            && (bind.stage.Over? && bind.resource == NoResource && bind.reserved ==> bind.removals == 1)
            && (bind.resource == Live ==> bind.removals == 0)
            && (bind.resource == Released && Shared(bind) && (forall t <- run[i].pcs :: !PastFlag(run[i].pcs[t], b)) ==>
                  bind.removals == 1 && !bind.counted)
  {
    hide Names;
    EveryState(run, events, i);
    assert BindFits(run[i].binds[b]);
    assert Unfinished(run[i].binds[b]) ==> Finishing(run[i].pcs, b);
  }

  /** Release before reply: whoever has been told that its bind failed, or is about to be,
      no longer holds the name; so when its next bind is refused, it is another's bind that
      holds it. */
  lemma ToldFailureHoldsNothing(run: seq<State>, events: seq<Event>, i: nat, b: BindId)
    requires IsRun(run, events) && i < |run| && b in run[i].binds
    requires var bind := run[i].binds[b];
             (bind.told.Some? && bind.told.value.Failed?) || (bind.stage.Replying? && bind.stage.reply.Failed?)
    ensures !Holds(run[i].binds[b]) && !run[i].binds[b].counted
  {
    hide Names, Parties;
    EveryState(run, events, i);
    assert BindFits(run[i].binds[b]);
  }

  /** A name is refused exactly while somebody holds it, and not somebody told of failure. */
  lemma RefusedIffHeld(run: seq<State>, events: seq<Event>, i: nat)
    requires IsRun(run, events) && i < |events| && events[i].Reserve?
    ensures var b, id := events[i].b, events[i].id;
            && b in run[i + 1].binds
            && (!run[i + 1].binds[b].reserved <==>
                  exists c :: c in run[i].binds && Holds(run[i].binds[c]) && run[i].binds[c].id == id)
            && (forall c <- run[i].binds | run[i].binds[c].told.Some? && run[i].binds[c].told.value.Failed? ::
                  !Holds(run[i].binds[c]))
  {
    EveryState(run, events, i);
    StepAt(run, events, i);
    forall c <- run[i].binds | run[i].binds[c].told.Some? && run[i].binds[c].told.value.Failed?
      ensures !Holds(run[i].binds[c])
    {
      ToldFailureHoldsNothing(run, events, i, c);
    }
  }

  /** Of the reply and the cancellation one wins: a cancelled bind tells nobody, leaves no
      endpoint, and holds its name until it is over; any other tells its caller once. */
  lemma CancelledOrTold(run: seq<State>, events: seq<Event>, i: nat, b: BindId)
    requires IsRun(run, events) && i < |run| && b in run[i].binds
    ensures var bind := run[i].binds[b];
            && (bind.wins == 1 <==> bind.phase.Cancelled?) && bind.wins <= 1
            && (bind.phase.Cancelled? ==>
                  bind.told.None? && bind.resource == NoResource && (Holds(bind) <==> !bind.stage.Over?))
            && (bind.stage.Over? && !bind.phase.Cancelled? ==> bind.told.Some?)
            && bind.told != Some(Failed(BindCancelled))
  {
    hide Names, Parties;
    EveryState(run, events, i);
    assert BindFits(run[i].binds[b]);
  }

  /** ACTIVE_ENDPOINTS is the number of endpoints counted in and not yet out, and is positive
      whenever one counts down. */
  lemma EndpointGauge(run: seq<State>, events: seq<Event>, i: nat)
    requires IsRun(run, events) && i < |run|
    ensures run[i].endpoints == Sum(Counts(run[i].binds))
    ensures forall t <- run[i].pcs :: run[i].pcs[t].In? && run[i].pcs[t].next.CountDown? ==> run[i].endpoints >= 1
    ensures forall b <- run[i].binds :: run[i].binds[b].stage.Aborting? ==> run[i].endpoints >= 1
    ensures forall b <- run[i].binds :: run[i].binds[b].resource == Live ==> run[i].binds[b].counted
  {
    hide Names, Shared, StageFits;
    EveryState(run, events, i);
    forall t <- run[i].pcs | run[i].pcs[t].In? && run[i].pcs[t].next.CountDown?
      ensures run[i].endpoints >= 1
    {
      assert PcFits(run[i].binds, run[i].pcs[t]);
      CountMoved(run[i].binds, run[i].pcs[t].b, run[i].binds[run[i].pcs[t].b]);
    }
    forall b <- run[i].binds | run[i].binds[b].stage.Aborting?
      ensures run[i].endpoints >= 1
    {
      CountsHere(run[i].binds[b], AbortStep(b));
      CountMoved(run[i].binds, b, run[i].binds[b]);
    }
  }

  // ----- what a caller is told

  ghost predicate Happened(events: seq<Event>, i: nat, event: Event) {
    exists k :: 0 <= k < i && k < |events| && events[k] == event
  }

  /** What must have happened for a reply to be given. */
  ghost predicate Grounds(events: seq<Event>, i: nat, b: BindId, reply: Reply) {
    match reply
    case Bound => Happened(events, i, BindEnds(b, WithEndpoint)) && Happened(events, i, MonitorOwner(b, true))
    case DuplicateIdentity => true
    case Failed(BuilderFailed) => Happened(events, i, Build(b, false))
    case Failed(CallerGone) =>
      || Happened(events, i, MonitorCaller(b, false))
      || (Happened(events, i, BindEnds(b, WithEndpoint)) && Happened(events, i, MonitorOwner(b, false)))
    case Failed(BindFailed) => Happened(events, i, BindEnds(b, WithError))
    case Failed(BindPanicked) => Happened(events, i, BindEnds(b, WithPanic))
    case Failed(BindCancelled) => false
  }

  ghost predicate StageGrounds(events: seq<Event>, i: nat, b: BindId, bind: Bind) {
    match bind.stage
    case Exchanging(came) => came.Stopped? || Happened(events, i, BindEnds(b, came))
    case Releasing(Some(reply)) => Grounds(events, i, b, reply)
    case CountingUp => Happened(events, i, BindEnds(b, WithEndpoint))
    case Making => Happened(events, i, BindEnds(b, WithEndpoint))
    case Owning => Happened(events, i, BindEnds(b, WithEndpoint))
    case Aborting(_) => Happened(events, i, BindEnds(b, WithEndpoint)) && Happened(events, i, MonitorOwner(b, false))
    case Replying(reply) => Grounds(events, i, b, reply)
    case Over => bind.told.Some? ==> Grounds(events, i, b, bind.told.value)
    case _ => true
  }

  lemma HappenedLater(events: seq<Event>, i: nat, event: Event)
    ensures Happened(events, i, event) ==> Happened(events, i + 1, event)
    ensures i < |events| && events[i] == event ==> Happened(events, i + 1, event)
  {
  }

  lemma GroundsLater(events: seq<Event>, i: nat, b: BindId, bind: Bind)
    requires StageGrounds(events, i, b, bind)
    ensures StageGrounds(events, i + 1, b, bind)
  {
    hide Happened;
    HappenedLater(events, i, BindEnds(b, WithEndpoint));
    HappenedLater(events, i, BindEnds(b, WithError));
    HappenedLater(events, i, BindEnds(b, WithPanic));
    HappenedLater(events, i, BindEnds(b, Stopped));
    HappenedLater(events, i, MonitorOwner(b, true));
    HappenedLater(events, i, MonitorOwner(b, false));
    HappenedLater(events, i, MonitorCaller(b, false));
    HappenedLater(events, i, Build(b, false));
  }

  /** A bind's own event gives the grounds of its next stage. */
  lemma StepGrounds(events: seq<Event>, i: nat, b: BindId, bind: Bind)
    requires i < |events| && OwnEvent(events[i]) && events[i].b == b
    requires BindFits(bind) && BindEnabled(bind, events[i]) && StageGrounds(events, i + 1, b, bind)
    ensures StageGrounds(events, i + 1, b, BindStep(bind, events[i]))
  {
    hide Happened, ResourceFits;
    HappenedLater(events, i, events[i]);
  }

  lemma PartyLeavesStage(bind: Bind, next: Release)
    ensures var bind' := ReleaseOf(bind, next).0; bind'.stage == bind.stage && bind'.told == bind.told
  {
  }

  lemma GroundsKept(events: seq<Event>, i: nat, s: State, s': State, b: BindId)
    requires i < |events| && Inv(s) && Next(s, events[i], s') && b in s'.binds
    requires b in s.binds ==> StageGrounds(events, i, b, s.binds[b])
    ensures StageGrounds(events, i + 1, b, s'.binds[b])
  {
    hide Names, Parties, BindFits, BindEnabled, BindStep, StageGrounds;
    if b !in s.binds {
      NewGrounds(events, i + 1, b, events[i].id, events[i].id !in s.ids);
    } else {
      GroundsLater(events, i, b, s.binds[b]);
      if OwnEvent(events[i]) && events[i].b == b {
        StepGrounds(events, i, b, s.binds[b]);
      } else if events[i].ReleaseStep? {
        PartyLeavesStage(s.binds[s.pcs[events[i].t].b], s.pcs[events[i].t].next);
        SameGrounds(events, i + 1, b, s.binds[b], s'.binds[b]);
      }
    }
  }

  lemma NewGrounds(events: seq<Event>, i: nat, b: BindId, id: Id, reserved: bool)
    ensures StageGrounds(events, i, b, NewBind(id, reserved))
  {
  }

  lemma SameGrounds(events: seq<Event>, i: nat, b: BindId, bind: Bind, bind': Bind)
    requires StageGrounds(events, i, b, bind) && bind'.stage == bind.stage && bind'.told == bind.told
    ensures StageGrounds(events, i, b, bind')
  {
  }

  lemma {:induction false} EveryStageHasGrounds(run: seq<State>, events: seq<Event>, i: nat, b: BindId)
    requires IsRun(run, events) && i < |run| && b in run[i].binds
    ensures StageGrounds(events, i, b, run[i].binds[b])
    decreases i
  {
    hide Inv, StageGrounds, Enabled, Apply;
    if i > 0 {
      EveryState(run, events, i - 1);
      StepAt(run, events, i - 1);
      if b in run[i - 1].binds {
        EveryStageHasGrounds(run, events, i - 1, b);
      }
      GroundsKept(events, i - 1, run[i - 1], run[i], b);
    }
  }

  /** The reply says what happened: an endpoint only when one was bound and its owner was
      there, and each failure only on its own cause. */
  lemma ReplyHasGrounds(run: seq<State>, events: seq<Event>, i: nat, b: BindId)
    requires IsRun(run, events) && i < |run| && b in run[i].binds && run[i].binds[b].told.Some?
    ensures run[i].binds[b].told == Some(DuplicateIdentity) <==> !run[i].binds[b].reserved
    ensures match run[i].binds[b].told.value
            case Bound => Happened(events, i, BindEnds(b, WithEndpoint)) && Happened(events, i, MonitorOwner(b, true))
            case DuplicateIdentity => true
            case Failed(BuilderFailed) => Happened(events, i, Build(b, false))
            case Failed(CallerGone) =>
              || Happened(events, i, MonitorCaller(b, false))
              || (Happened(events, i, BindEnds(b, WithEndpoint)) && Happened(events, i, MonitorOwner(b, false)))
            case Failed(BindFailed) => Happened(events, i, BindEnds(b, WithError))
            case Failed(BindPanicked) => Happened(events, i, BindEnds(b, WithPanic))
            case Failed(BindCancelled) => false
  {
    hide Names, Parties, Happened;
    EveryState(run, events, i);
    EveryStageHasGrounds(run, events, i, b);
    assert BindFits(run[i].binds[b]);
  }

  /** How many of its own steps a bind has at most before it. */
  function StepsLeft(stage: Stage): nat {
    match stage
    case Building => 12
    case Monitoring => 11
    case Selecting => 10
    case Exchanging(_) => 9
    case CountingUp => 8
    case Making => 7
    case Owning => 6
    case Aborting(SwapFlag) => 5
    case Aborting(RemoveName) => 4
    case Aborting(CountDown) => 3
    case Releasing(_) => 2
    case Replying(_) => 1
    case Over => 0
  }

  ghost predicate OwnStep(event: Event) {
    OwnEvent(event) && !event.Cancel? && !event.Notify?
  }

  /** A bind that is not over is never stuck: some step of its own is possible, whatever
      others do, and each brings its end closer. */
  lemma NeverStuck(run: seq<State>, events: seq<Event>, i: nat, b: BindId)
    requires IsRun(run, events) && i < |run| && b in run[i].binds
    ensures !run[i].binds[b].stage.Over? ==> exists e: Event :: OwnStep(e) && e.b == b && Enabled(run[i], e)
    ensures i < |events| ==>
              && b in run[i + 1].binds
              && StepsLeft(run[i + 1].binds[b].stage)
                 + (if OwnStep(events[i]) && events[i].b == b then 1 else 0) <= StepsLeft(run[i].binds[b].stage)
  {
    hide Names, Parties, BindFits;
    EveryState(run, events, i);
    var bind := run[i].binds[b];
    if !bind.stage.Over? {
      var e := StepOf(bind, b);
      assert OwnStep(e) && e.b == b && Enabled(run[i], e);
    }
    if i < |events| {
      StepAt(run, events, i);
      if OwnEvent(events[i]) && events[i].b == b {
        StepCloser(bind, events[i]);
      } else if events[i].ReleaseStep? {
        PartyLeavesStage(run[i].binds[run[i].pcs[events[i].t].b], run[i].pcs[events[i].t].next);
      }
    }
  }

  lemma StepOf(bind: Bind, b: BindId) returns (e: Event)
    requires !bind.stage.Over?
    ensures OwnStep(e) && e.b == b && BindEnabled(bind, e)
  {
    match bind.stage
    case Building => e := Build(b, true);
    case Monitoring => e := MonitorCaller(b, true);
    case Selecting => e := BindEnds(b, WithError);
    case Exchanging(_) => e := Exchange(b);
    case Releasing(_) => e := ReleaseReserved(b);
    case CountingUp => e := CountUp(b);
    case Making => e := MakeResource(b);
    case Owning => e := MonitorOwner(b, true);
    case Aborting(_) => e := AbortStep(b);
    case Replying(_) => e := Send(b);
  }

  lemma StepCloser(bind: Bind, event: Event)
    requires BindFits(bind) && BindEnabled(bind, event)
    ensures StepsLeft(BindStep(bind, event).stage) + (if OwnStep(event) then 1 else 0) <= StepsLeft(bind.stage)
  {
  }

  // ----- a released endpoint

  lemma Then(run: seq<State>, events: seq<Event>, event: Event, next: State)
    returns (run': seq<State>, events': seq<Event>)
    requires IsRun(run, events) && Next(run[|events|], event, next)
    ensures IsRun(run', events') && |run'| == |events'| + 1
    ensures run'[|events'|] == next && events' == events + [event] && run' == run + [next]
  {
    hide Next;
    run', events' := run + [next], events + [event];
    forall i | 0 <= i < |events'|
      ensures Next(run'[i], events'[i], run'[i + 1])
    {
      if i < |events| {
        StepAt(run, events, i);
      }
    }
  }

  /** Its name is still held exactly while some party has yet to remove it. */
  lemma HeldWhileRemoving(s: State, b: BindId)
    requires Inv(s) && b in s.binds && Shared(s.binds[b]) && s.binds[b].resource == Released
    ensures Holds(s.binds[b]) <==> exists t :: t in s.pcs && s.pcs[t] == In(b, RemoveName)
  {
    hide Names, StageFits;
    if t :| t in s.pcs && s.pcs[t] == In(b, RemoveName) {
      assert PcFits(s.binds, s.pcs[t]) && BindFits(s.binds[b]);
    }
    if Holds(s.binds[b]) {
      assert BindFits(s.binds[b]) && Unfinished(s.binds[b]);
      var t :| t in s.pcs && PastFlag(s.pcs[t], b);
      assert PcFits(s.binds, s.pcs[t]);
    }
  }

  /** Shared and released stay so. */
  lemma StaysReleased(s: State, event: Event, b: BindId)
    requires Inv(s) && Enabled(s, event) && b in s.binds && Shared(s.binds[b]) && s.binds[b].resource == Released
    ensures var s' := Apply(s, event); b in s'.binds && Shared(s'.binds[b]) && s'.binds[b].resource == Released
  {
    hide Names, Parties, StageFits, ResourceFits;
    if OwnEvent(event) && event.b == b {
      hide BindStep, BindFits;
      SharedUntouched(s.binds[b], event);
    }
  }

  lemma {:induction false} ReleasedForGood(run: seq<State>, events: seq<Event>, i: nat, j: nat, b: BindId)
    requires IsRun(run, events) && i <= j < |run| && b in run[i].binds
    requires Shared(run[i].binds[b]) && run[i].binds[b].resource == Released
    ensures b in run[j].binds && Shared(run[j].binds[b]) && run[j].binds[b].resource == Released
    decreases j - i
  {
    hide Inv, Enabled, Apply, Shared;
    if i < j {
      ReleasedForGood(run, events, i, j - 1, b);
      EveryState(run, events, j - 1);
      StepAt(run, events, j - 1);
      StaysReleased(run[j - 1], events[j - 1], b);
    }
  }

  lemma ThroughMeansReleased(s: State, t: Tid)
    requires Inv(s) && Enabled(s, ReleaseStep(t)) && Apply(s, ReleaseStep(t)).pcs[t].Idle?
    ensures var s', b := Apply(s, ReleaseStep(t)), s.pcs[t].b;
            b in s'.binds && Shared(s'.binds[b]) && s'.binds[b].resource == Released
  {
    hide Names, StageFits;
    assert PcFits(s.binds, s.pcs[t]) && BindFits(s.binds[s.pcs[t].b]);
  }

  /** A party that returns from `release_identity` may have lost the flag to one that has yet
      to remove the name: from then on the name is held exactly while some party is at that
      step. */
  lemma HeldAfterReleaseIff(run: seq<State>, events: seq<Event>, i: nat, j: nat, t: Tid)
    requires IsRun(run, events) && i < |events| && i < j < |run| && events[i] == ReleaseStep(t)
    requires t in run[i].pcs && run[i].pcs[t].In? && t in run[i + 1].pcs && run[i + 1].pcs[t].Idle?
    ensures var b := run[i].pcs[t].b;
            && b in run[j].binds
            && (Holds(run[j].binds[b]) <==> exists u :: u in run[j].pcs && run[j].pcs[u] == In(b, RemoveName))
  {
    hide Inv, Enabled, Apply, Shared, Holds;
    var b := run[i].pcs[t].b;
    EveryState(run, events, i);
    StepAt(run, events, i);
    ThroughMeansReleased(run[i], t);
    ReleasedForGood(run, events, i + 1, j, b);
    EveryState(run, events, j);
    HeldWhileRemoving(run[j], b);
  }

  /** An endpoint that was made and handed to its owner, with two parties about to release
      it. */
  ghost function Handed(id: Id, resource: Resource, first: Pc, second: Pc): State {
    var bind := NewBind(id, true).(stage := Over, phase := O.Completed, launched := true, resource := resource,
                                   counted := true, told := Some(Bound));
    State({id}, 1, map[0 := bind], map[0 := first, 1 := second])
  }

  lemma Launched(id: Id) returns (run: seq<State>, events: seq<Event>)
    ensures IsRun(run, events) && |run| == 4 && |events| == 3 && events[0] == Reserve(0, id)
    ensures run[3] == State({id}, 0, map[0 := NewBind(id, true).(stage := Selecting, launched := true)],
                            map[0 := Idle, 1 := Idle])
  {
    var s := State({}, 0, map[], map[0 := Idle, 1 := Idle]);
    run, events := [s], [];
    assert IsRun(run, events);
    hide IsRun;
    assert {} + {id} == {id};
    var bind := NewBind(id, true);
    s := s.(ids := {id}, binds := map[0 := bind]);
    run, events := Then(run, events, Reserve(0, id), s);
    bind := bind.(stage := Monitoring);
    s := s.(binds := map[0 := bind]);
    run, events := Then(run, events, Build(0, true), s);
    bind := bind.(stage := Selecting, launched := true);
    s := s.(binds := map[0 := bind]);
    run, events := Then(run, events, MonitorCaller(0, true), s);
  }

  lemma Made(id: Id) returns (run: seq<State>, events: seq<Event>)
    ensures IsRun(run, events) && |run| == 6 && |events| == 5 && events[0] == Reserve(0, id)
    ensures var bind := NewBind(id, true).(stage := CountingUp, phase := O.Completed, launched := true);
            run[5] == State({id}, 0, map[0 := bind], map[0 := Idle, 1 := Idle])
  {
    hide IsRun;
    run, events := Launched(id);
    var s := run[3];
    var bind := s.binds[0].(stage := Exchanging(WithEndpoint));
    s := s.(binds := map[0 := bind]);
    run, events := Then(run, events, BindEnds(0, WithEndpoint), s);
    bind := bind.(stage := CountingUp, phase := O.Completed);
    s := s.(binds := map[0 := bind]);
    run, events := Then(run, events, Exchange(0), s);
  }

  lemma HandedOver(id: Id) returns (run: seq<State>, events: seq<Event>)
    ensures IsRun(run, events) && |run| == 10 && |events| == 9 && events[0] == Reserve(0, id)
    ensures run[9] == Handed(id, Live, Idle, Idle)
  {
    hide IsRun;
    run, events := Made(id);
    var s := run[5];
    var bind := s.binds[0].(counted := true, stage := Making);
    s := s.(endpoints := 1, binds := map[0 := bind]);
    run, events := Then(run, events, CountUp(0), s);
    bind := bind.(resource := Live, stage := Owning);
    s := s.(binds := map[0 := bind]);
    run, events := Then(run, events, MakeResource(0), s);
    bind := bind.(stage := Replying(Bound));
    s := s.(binds := map[0 := bind]);
    run, events := Then(run, events, MonitorOwner(0, true), s);
    bind := bind.(stage := Over, told := Some(Bound));
    s := s.(binds := map[0 := bind]);
    run, events := Then(run, events, Send(0), s);
  }

  /** So a release that has returned need not have freed the name: here the second of two
      parties is through, the first is not, and the next bind of the name is refused. */
  lemma ReleasedMayStillHold(id: Id) returns (run: seq<State>, events: seq<Event>)
    ensures IsRun(run, events) && |run| == 15 && |events| == 14
    ensures events[9..] == [BeginRelease(0, 0), BeginRelease(0, 1), ReleaseStep(0), ReleaseStep(1), Reserve(1, id)]
    ensures run[13].pcs.Keys == {0, 1} && run[13].pcs[1].Idle?
    ensures run[14].binds.Keys == {0, 1} && !run[14].binds[1].reserved
  {
    hide IsRun;
    run, events := HandedOver(id);
    run, events := Then(run, events, BeginRelease(0, 0), Handed(id, Live, In(0, SwapFlag), Idle));
    run, events := Then(run, events, BeginRelease(0, 1), Handed(id, Live, In(0, SwapFlag), In(0, SwapFlag)));
    run, events := Then(run, events, ReleaseStep(0), Handed(id, Released, In(0, RemoveName), In(0, SwapFlag)));
    var s := Handed(id, Released, In(0, RemoveName), Idle);
    run, events := Then(run, events, ReleaseStep(1), s);
    s := s.(ids := {id} + {id}, binds := s.binds[1 := NewBind(id, false)]);
    run, events := Then(run, events, Reserve(1, id), s);
  }

  // ----- a cancelled bind

  /** Not so for a caller that cancelled: `cancel` returns true at once, the name comes back
      later, and a bind in between is refused although its caller's first one is over. */
  lemma CancelledMayStillHold(id: Id) returns (run: seq<State>, events: seq<Event>)
    ensures IsRun(run, events) && |run| == |events| + 1
    ensures events == [Reserve(0, id), Build(0, true), MonitorCaller(0, true), Cancel(0), Reserve(1, id)]
    ensures run[5].binds.Keys == {0, 1} && run[5].binds[0].wins == 1 && !run[5].binds[1].reserved
  {
    var s := State({}, 0, map[], map[]);
    run, events := [s], [];
    assert IsRun(run, events);
    hide IsRun;
    var bind := NewBind(id, true);
    s := State({} + {id}, 0, map[0 := bind], map[]);
    run, events := Then(run, events, Reserve(0, id), s);
    s := s.(binds := map[0 := bind.(stage := Monitoring)]);
    run, events := Then(run, events, Build(0, true), s);
    s := s.(binds := map[0 := bind.(stage := Selecting, launched := true)]);
    run, events := Then(run, events, MonitorCaller(0, true), s);
    bind := bind.(stage := Selecting, launched := true, phase := O.Cancelled, notifyDue := true, wins := 1);
    s := s.(binds := map[0 := bind]);
    run, events := Then(run, events, Cancel(0), s);
    s := State({id} + {id}, 0, map[0 := bind, 1 := NewBind(id, false)], map[]);
    run, events := Then(run, events, Reserve(1, id), s);
  }
}
