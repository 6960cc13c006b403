/** Creating the identity file once, by any number of racing callers in any number of
    processes, some of which may crash: `identity_load_or_create`, `create_identity` and
    `read_key` in `native/iroh_beam_nif/src/identity.rs`. One step is one file-system call;
    nobody else writes or deletes the files involved. */
module KeyFile {
  import opened Bytes
  import opened Options

  const KEY_SIZE: nat := 32

  type Tid(!new, ==) = nat
  type Pid(!new, ==) = nat
  type InodeId(!new, ==) = nat

  /** The identity path, and the temporary names beside it. */
  datatype Name = Target | Temp(pid: Pid, sequence: nat)

  datatype File = Regular(data: Binary) | Special

  datatype Result = Key(key: Binary) | IoError | InvalidFormat

  /** What follows the removal of the temporary file. */
  datatype After = Return(result: Result) | ReadExisting

  /** The next call of a caller. */
  datatype Pc =
    | Exists
    | Metadata
    | ReadFile
    | Generate
    | Number(key: Binary)
    | Create(key: Binary, name: Name)
    | Write(key: Binary, name: Name, file: InodeId, written: nat)
    | Link(key: Binary, name: Name)
    | Unlink(name: Name, after: After)
    | Done(result: Result)
    | Crashed

  datatype Caller = Caller(pid: Pid, pc: Pc)

  /** Directory entries name inodes, so that a hard link shares its file. `counters` is the
      TEMP_COUNTER of each process. */
  datatype State = State(entries: map<Name, InodeId>, files: map<InodeId, File>,
                         counters: map<Pid, nat>, callers: map<Tid, Caller>)

  /** Each event carries the choices of the system: what a call that may fail does. */
  datatype Event =
    | LookExists(t: Tid, sees: bool)
    | LookMetadata(t: Tid, ok: bool)
    | LookFile(t: Tid, ok: bool)
    | MakeKey(t: Tid, dirOk: bool, key: Binary)
    | TakeNumber(t: Tid)
    | CreateTemp(t: Tid, ok: bool, file: InodeId)
    | WriteSome(t: Tid, n: nat)
    | WriteFails(t: Tid)
    | Sync(t: Tid, ok: bool)
    | HardLink(t: Tid, ok: bool)
    | Remove(t: Tid, ok: bool)
    | Crash(t: Tid)

  function Published(s: State): Option<File> {
    if Target in s.entries && s.entries[Target] in s.files then Some(s.files[s.entries[Target]]) else None
  }

  function Go(s: State, t: Tid, pc: Pc): State
    requires t in s.callers
  {
    s.(callers := s.callers[t := s.callers[t].(pc := pc)])
  }

  function PcAfter(after: After): Pc {
    match after case Return(result) => Done(result) case ReadExisting => Metadata
  }

  ghost predicate Enabled(s: State, event: Event) {
    && event.t in s.callers
    && s.callers[event.t].pid in s.counters
    && var pc := s.callers[event.t].pc;
       match event
       case LookExists(_, sees) => pc.Exists? && (sees ==> Target in s.entries)
       case LookMetadata(_, _) => pc.Metadata?
       case LookFile(_, _) => pc.ReadFile?
       case MakeKey(_, _, key) => pc.Generate? && |key| == KEY_SIZE
       case TakeNumber(_) => pc.Number?
       case CreateTemp(_, _, file) => pc.Create? && file !in s.files
       case WriteSome(_, n) =>
         pc.Write? && 1 <= n <= |pc.key| - pc.written && pc.file in s.files && s.files[pc.file].Regular?
       case WriteFails(_) => pc.Write?
       case Sync(_, _) => pc.Write? && pc.written == |pc.key|
       case HardLink(_, _) => pc.Link?
       case Remove(_, _) => pc.Unlink?
       case Crash(_) => !pc.Done?
  }

  ghost function Apply(s: State, event: Event): State
    requires Enabled(s, event)
  {
    var t := event.t;
    var pc := s.callers[t].pc;
    match event
    case LookExists(_, sees) => Go(s, t, if sees then Metadata else Generate)
    case LookMetadata(_, ok) =>
      Go(s, t, match Published(s)
               case Some(Regular(data)) =>
                 if !ok then Done(IoError) else if |data| == KEY_SIZE then ReadFile else Done(InvalidFormat)
               case Some(Special) => Done(if ok then InvalidFormat else IoError)
               case None => Done(IoError))
    case LookFile(_, ok) =>
      Go(s, t, match Published(s)
               case Some(Regular(data)) =>
                 Done(if !ok then IoError else if |data| == KEY_SIZE then Key(data) else InvalidFormat)
               case _ => Done(IoError))
    case MakeKey(_, dirOk, key) => Go(s, t, if dirOk then Number(key) else Done(IoError))
    case TakeNumber(_) =>
      var pid := s.callers[t].pid;
      Go(s, t, Create(pc.key, Temp(pid, s.counters[pid]))).(counters := s.counters[pid := s.counters[pid] + 1])
    case CreateTemp(_, ok, file) =>
      if !ok || pc.name in s.entries then Go(s, t, Done(IoError))
      else
        Go(s, t, Write(pc.key, pc.name, file, 0))
        .(entries := s.entries[pc.name := file], files := s.files[file := Regular([])])
    case WriteSome(_, n) =>
      Go(s, t, pc.(written := pc.written + n))
      .(files := s.files[pc.file := Regular(s.files[pc.file].data + pc.key[pc.written..pc.written + n])])
    case WriteFails(_) => Go(s, t, Unlink(pc.name, Return(IoError)))
    case Sync(_, ok) => Go(s, t, if ok then Link(pc.key, pc.name) else Unlink(pc.name, Return(IoError)))
    case HardLink(_, ok) =>
      if Target in s.entries then Go(s, t, Unlink(pc.name, if ok then ReadExisting else Return(IoError)))
      else if ok && pc.name in s.entries then
        Go(s, t, Unlink(pc.name, Return(Key(pc.key)))).(entries := s.entries[Target := s.entries[pc.name]])
      else Go(s, t, Unlink(pc.name, Return(IoError)))
    case Remove(_, ok) =>
      Go(s, t, PcAfter(pc.after)).(entries := if ok then s.entries - {pc.name} else s.entries)
    case Crash(_) => Go(s, t, Crashed)
  }

  ghost predicate Next(s: State, event: Event, s': State) {
    Enabled(s, event) && s' == Apply(s, event)
  }

  /** At the start the path may hold nothing, a key or anything else, and crashed processes
      may have left temporary files. */
  ghost predicate Init(s: State) {
    && (forall name <- s.entries :: s.entries[name] in s.files)
    && forall t <- s.callers :: s.callers[t].pc.Exists? && s.callers[t].pid in s.counters
  }

  ghost predicate IsRun(run: seq<State>, events: seq<Event>) {
    && |run| == |events| + 1
    && Init(run[0])
    && forall i | 0 <= i < |events| :: Next(run[i], events[i], run[i + 1])
  }

  // ----- the invariant

  predicate Named(pc: Pc) {
    pc.Create? || pc.Write? || pc.Link? || pc.Unlink?
  }

  /** A file under a name that no other name shares. */
  ghost predicate Private(s: State, name: Name, data: Binary) {
    && name in s.entries && s.entries[name] in s.files && s.files[s.entries[name]] == Regular(data)
    && forall other <- s.entries | other != name :: s.entries[other] != s.entries[name]
  }

  ghost predicate Returns(s: State, result: Result) {
    result.Key? ==> |result.key| == KEY_SIZE && Published(s) == Some(Regular(result.key))
  }

  ghost predicate CallerFits(s: State, caller: Caller) {
    && caller.pid in s.counters
    && (Named(caller.pc) ==> caller.pc.name.Temp? && caller.pc.name.pid == caller.pid
                             && caller.pc.name.sequence < s.counters[caller.pid])
    && match caller.pc
       case Number(key) => |key| == KEY_SIZE
       case Create(key, _) => |key| == KEY_SIZE
       case Write(key, name, file, written) =>
         && |key| == KEY_SIZE && written <= KEY_SIZE
         && Private(s, name, key[..written]) && s.entries[name] == file
       case Link(key, name) => |key| == KEY_SIZE && Private(s, name, key)
       case Unlink(_, Return(result)) => Returns(s, result)
       case Done(result) => Returns(s, result)
       case _ => true
  }

  /** No two callers work under one temporary name. */
  ghost predicate OwnNames(callers: map<Tid, Caller>) {
    forall t <- callers, u <- callers | t != u && Named(callers[t].pc) && Named(callers[u].pc) ::
      callers[t].pc.name != callers[u].pc.name
  }

  ghost predicate Inv(s: State, original: Option<File>) {
    && (forall name <- s.entries :: s.entries[name] in s.files)
    && (forall t <- s.callers :: CallerFits(s, s.callers[t]))
    && OwnNames(s.callers)
    && match original
       case Some(file) => Published(s) == Some(file)
       case None => Published(s).Some? ==> Published(s).value.Regular? && |Published(s).value.data| == KEY_SIZE
  }

  /** What a step of `t` may do to everybody else's files: nothing to names other than its
      own temporary one and, once, the target; nothing to files already under another name. */
  ghost predicate Harmless(s: State, s': State, own: Name) {
    && (forall name <- s.entries | name != own && name != Target ::
          name in s'.entries && s'.entries[name] == s.entries[name])
    && (forall name <- s'.entries | name != own && name != Target :: name in s.entries)
    && (forall name <- s.entries | name != own :: s.entries[name] in s.files && s.entries[name] in s'.files
                                                 && s'.files[s.entries[name]] == s.files[s.entries[name]])
    && (Target in s.entries ==> Target in s'.entries && s'.entries[Target] == s.entries[Target])
    && (Target in s'.entries && Target !in s.entries ==> own in s.entries && s'.entries[Target] == s.entries[own])
    && (own in s'.entries && own !in s.entries ==> s'.entries[own] !in s.files)
    && (own in s'.entries && own in s.entries ==> s'.entries[own] == s.entries[own])
    && (forall pid <- s.counters :: pid in s'.counters && s.counters[pid] <= s'.counters[pid])
  }

  lemma PrivateKept(s: State, s': State, own: Name, name: Name, data: Binary)
    requires Harmless(s, s', own) && Private(s, name, data) && name != own && name.Temp? && own.Temp?
    requires forall n <- s.entries :: s.entries[n] in s.files
    ensures Private(s', name, data) && s'.entries[name] == s.entries[name]
  {
  }

  lemma PublishedKept(s: State, s': State, own: Name)
    requires Harmless(s, s', own) && own.Temp? && forall n <- s.entries :: s.entries[n] in s.files
    ensures Published(s).Some? ==> Published(s') == Published(s)
  {
  }

  lemma CallerKept(s: State, s': State, own: Name, caller: Caller)
    requires Harmless(s, s', own) && own.Temp? && (forall n <- s.entries :: s.entries[n] in s.files)
    requires CallerFits(s, caller) && (Named(caller.pc) ==> caller.pc.name != own)
    ensures CallerFits(s', caller)
  {
    PublishedKept(s, s', own);
    match caller.pc
    case Write(key, name, _, written) => PrivateKept(s, s', own, name, key[..written]);
    case Link(key, name) => PrivateKept(s, s', own, name, key);
    case _ =>
  }

  // ----- every step keeps it

  ghost predicate Files(s: State) {
    forall name <- s.entries :: s.entries[name] in s.files
  }

  lemma StepIsHarmless(s: State, event: Event, s': State, own: Name)
    requires Next(s, event, s') && Files(s) && CallerFits(s, s.callers[event.t]) && own.Temp?
    requires Named(s.callers[event.t].pc) ==> own == s.callers[event.t].pc.name
    ensures Harmless(s, s', own) && Files(s')
  {
    match event
    case CreateTemp(_, _, _) =>
    case WriteSome(_, _) =>
    case HardLink(_, _) =>
    case Remove(_, _) =>
    case _ =>
  }

  lemma OwnWrite(s: State, event: Event, s': State)
    requires Next(s, event, s') && event.WriteSome? && Files(s) && CallerFits(s, s.callers[event.t])
    ensures CallerFits(s', s'.callers[event.t])
  {
    var pc, n := s.callers[event.t].pc, event.n;
    assert pc.key[..pc.written] + pc.key[pc.written..pc.written + n] == pc.key[..pc.written + n];
  }

  lemma OwnLink(s: State, event: Event, s': State)
    requires Next(s, event, s') && event.HardLink? && Files(s) && CallerFits(s, s.callers[event.t])
    ensures CallerFits(s', s'.callers[event.t])
  {
  }

  /** The stepping caller itself. */
  lemma OwnStep(s: State, event: Event, s': State)
    requires Next(s, event, s') && Files(s) && CallerFits(s, s.callers[event.t])
    requires Published(s).Some? ==> Published(s') == Published(s)
    ensures CallerFits(s', s'.callers[event.t])
  {
    var pc := s.callers[event.t].pc;
    if event.WriteSome? {
      OwnWrite(s, event, s');
    } else if event.HardLink? {
      OwnLink(s, event, s');
    } else if event.Sync? {
      assert pc.key[..pc.written] == pc.key;
    }
  }

  lemma NamesStayOwn(s: State, event: Event, s': State)
    requires Next(s, event, s') && OwnNames(s.callers) && forall t <- s.callers :: CallerFits(s, s.callers[t])
    ensures OwnNames(s'.callers)
  {
    var pc, pc' := s.callers[event.t].pc, s'.callers[event.t].pc;
    if event.TakeNumber? {
      forall u <- s.callers | u != event.t && Named(s.callers[u].pc) ensures s.callers[u].pc.name != pc'.name {
        assert CallerFits(s, s.callers[u]);
      }
    } else {
      assert Named(pc') ==> Named(pc) && pc.name == pc'.name;
    }
  }

  /** A temporary name that is not this caller's. */
  function Elsewhere(caller: Caller): (name: Name)
    ensures name.Temp? && (Named(caller.pc) ==> name != caller.pc.name)
  {
    if Named(caller.pc) && caller.pc.name == Temp(0, 0) then Temp(0, 1) else Temp(0, 0)
  }

  /** Every other caller. */
  lemma OtherStep(s: State, event: Event, s': State, u: Tid)
    requires Next(s, event, s') && Files(s) && OwnNames(s.callers)
    requires CallerFits(s, s.callers[event.t])
    requires u in s.callers && u != event.t && CallerFits(s, s.callers[u])
    ensures CallerFits(s', s.callers[u])
  {
    var pc := s.callers[event.t].pc;
    var own := if Named(pc) then pc.name else Elsewhere(s.callers[u]);
    StepIsHarmless(s, event, s', own);
    CallerKept(s, s', own, s.callers[u]);
  }

  /** What one step does to the published file: nothing, or it publishes a complete key. */
  lemma PublishedStep(s: State, event: Event, s': State)
    requires Next(s, event, s') && Files(s) && CallerFits(s, s.callers[event.t])
    ensures Published(s).Some? ==> Published(s') == Published(s)
    ensures Published(s).None? && Published(s').Some? ==>
              Published(s').value.Regular? && |Published(s').value.data| == KEY_SIZE
  {
    var pc := s.callers[event.t].pc;
    var own := if Named(pc) then pc.name else Temp(0, 0);
    StepIsHarmless(s, event, s', own);
    PublishedKept(s, s', own);
    if event.HardLink? {
    } else {
      assert Target in s'.entries ==> Target in s.entries;
    }
  }

  lemma InvKept(s: State, event: Event, s': State, original: Option<File>)
    requires Inv(s, original) && Next(s, event, s')
    ensures Inv(s', original)
  {
    var pc := s.callers[event.t].pc;
    StepIsHarmless(s, event, s', if Named(pc) then pc.name else Temp(0, 0));
    PublishedStep(s, event, s');
    OwnStep(s, event, s');
    NamesStayOwn(s, event, s');
    forall u <- s'.callers ensures CallerFits(s', s'.callers[u]) {
      if u != event.t {
        OtherStep(s, event, s', u);
      }
    }
  }

  lemma StepAt(run: seq<State>, events: seq<Event>, i: nat)
    requires IsRun(run, events) && i < |events|
    ensures Next(run[i], events[i], run[i + 1])
  {
  }

  lemma {:induction false} EveryState(run: seq<State>, events: seq<Event>, i: nat)
    requires IsRun(run, events) && i < |run|
    ensures Inv(run[i], Published(run[0]))
  {
    if i > 0 {
      EveryState(run, events, i - 1);
      assert Next(run[i - 1], events[i - 1], run[i - 1 + 1]);
      InvKept(run[i - 1], events[i - 1], run[i], Published(run[0]));
    }
  }

  // ----- what callers may rely on

  /** Once published, a file is never replaced, changed or removed. */
  lemma {:induction false} PublishedForGood(run: seq<State>, events: seq<Event>, i: nat, j: nat)
    requires IsRun(run, events) && i <= j < |run| && Published(run[i]).Some?
    ensures Published(run[j]) == Published(run[i])
    decreases j - i
  {
    if i < j {
      PublishedForGood(run, events, i, j - 1);
      EveryState(run, events, j - 1);
      assert Next(run[j - 1], events[j - 1], run[j - 1 + 1]);
      PublishedStep(run[j - 1], events[j - 1], run[j]);
    }
  }

  /** Where there was nothing, nobody ever sees anything but nothing or a whole key. */
  lemma NeverPartial(run: seq<State>, events: seq<Event>, i: nat)
    requires IsRun(run, events) && i < |run| && Published(run[0]) == None && Published(run[i]).Some?
    ensures Published(run[i]).value.Regular? && |Published(run[i]).value.data| == KEY_SIZE
  {
    EveryState(run, events, i);
  }

  /** Every caller that succeeds, whichever way it went, holds the published key, from the
      moment it returns to the end of the run. */
  lemma SuccessIsThePublishedKey(run: seq<State>, events: seq<Event>, i: nat, j: nat, t: Tid, key: Binary)
    requires IsRun(run, events) && i <= j < |run| && t in run[i].callers
    requires run[i].callers[t].pc == Done(Key(key))
    ensures |key| == KEY_SIZE && Published(run[j]) == Some(Regular(key))
  {
    EveryState(run, events, i);
    assert CallerFits(run[i], run[i].callers[t]);
    PublishedForGood(run, events, i, j);
  }

  /** Any two callers that succeed, at any two moments, agree. */
  lemma AllAgree(run: seq<State>, events: seq<Event>, i: nat, j: nat, t: Tid, u: Tid)
    requires IsRun(run, events) && i < |run| && j < |run| && t in run[i].callers && u in run[j].callers
    requires run[i].callers[t].pc.Done? && run[i].callers[t].pc.result.Key?
    requires run[j].callers[u].pc.Done? && run[j].callers[u].pc.result.Key?
    ensures run[i].callers[t].pc.result == run[j].callers[u].pc.result
  {
    SuccessIsThePublishedKey(run, events, i, |run| - 1, t, run[i].callers[t].pc.result.key);
    SuccessIsThePublishedKey(run, events, j, |run| - 1, u, run[j].callers[u].pc.result.key);
  }

  /** What was at the path before stays, and only a 32-byte regular file there lets anybody
      succeed, with exactly its bytes. */
  lemma OriginalIsKept(run: seq<State>, events: seq<Event>, i: nat, t: Tid)
    requires IsRun(run, events) && i < |run| && Published(run[0]).Some? && t in run[i].callers
    ensures Published(run[i]) == Published(run[0])
    ensures run[i].callers[t].pc.Done? && run[i].callers[t].pc.result.Key? ==>
              Published(run[0]) == Some(Regular(run[i].callers[t].pc.result.key))
              && |run[i].callers[t].pc.result.key| == KEY_SIZE
  {
    EveryState(run, events, i);
    assert CallerFits(run[i], run[i].callers[t]);
  }

  // ----- errors have a cause

  /** No call fails in this step; a crash is nobody's failed call. */
  ghost predicate Unfailing(event: Event) {
    match event
    case LookMetadata(_, ok) => ok
    case LookFile(_, ok) => ok
    case MakeKey(_, dirOk, _) => dirOk
    case CreateTemp(_, ok, _) => ok
    case WriteFails(_) => false
    case Sync(_, ok) => ok
    case HardLink(_, ok) => ok
    case _ => true
  }

  ghost predicate WholeKey(file: Option<File>) {
    file.Some? && file.value.Regular? && |file.value.data| == KEY_SIZE
  }

  /** No file is in the way of a number some process has yet to take. */
  ghost predicate NumbersFree(s: State) {
    forall name <- s.entries | name.Temp? && name.pid in s.counters :: name.sequence < s.counters[name.pid]
  }

  /** A caller on its way to success. */
  ghost predicate OnTrack(s: State, pc: Pc) {
    match pc
    case Metadata => WholeKey(Published(s))
    case ReadFile => WholeKey(Published(s))
    case Create(_, name) => name !in s.entries
    case Unlink(_, ReadExisting) => WholeKey(Published(s))
    case Unlink(_, Return(result)) => result.Key?
    case Done(result) => result.Key?
    case _ => true
  }

  ghost predicate Smooth(s: State) {
    && (Target in s.entries ==> WholeKey(Published(s)))
    && NumbersFree(s)
    && forall t <- s.callers :: OnTrack(s, s.callers[t].pc)
  }

  lemma OwnStaysOnTrack(s: State, event: Event, s': State)
    requires Next(s, event, s') && Unfailing(event) && Smooth(s) && Files(s) && CallerFits(s, s.callers[event.t])
    ensures OnTrack(s', s'.callers[event.t].pc)
  {
    assert OnTrack(s, s.callers[event.t].pc);
    match event
    case CreateTemp(_, _, _) =>
    case HardLink(_, _) =>
    case Remove(_, _) =>
    case _ =>
  }

  lemma OtherStaysOnTrack(s: State, event: Event, s': State, u: Tid)
    requires Next(s, event, s') && Files(s) && CallerFits(s, s.callers[event.t]) && OwnNames(s.callers)
    requires u in s.callers && u != event.t && OnTrack(s, s.callers[u].pc) && CallerFits(s, s.callers[u])
    ensures OnTrack(s', s.callers[u].pc)
  {
    PublishedStep(s, event, s');
    if event.CreateTemp? {
      assert Named(s.callers[event.t].pc);
    }
  }

  lemma NumbersStayFree(s: State, event: Event, s': State)
    requires Next(s, event, s') && NumbersFree(s) && CallerFits(s, s.callers[event.t])
    ensures NumbersFree(s')
  {
  }

  lemma SmoothKept(s: State, event: Event, s': State, original: Option<File>)
    requires Inv(s, original) && Next(s, event, s') && Unfailing(event) && Smooth(s)
    ensures Smooth(s')
  {
    PublishedStep(s, event, s');
    StepIsHarmless(s, event, s', if Named(s.callers[event.t].pc) then s.callers[event.t].pc.name else Temp(0, 0));
    NumbersStayFree(s, event, s');
    OwnStaysOnTrack(s, event, s');
    forall u <- s'.callers ensures OnTrack(s', s'.callers[u].pc) {
      if u != event.t {
        OtherStaysOnTrack(s, event, s', u);
      }
    }
  }

  ghost predicate ClearPath(s: State) {
    (Published(s).Some? ==> WholeKey(Published(s))) && NumbersFree(s)
  }

  lemma StartsSmooth(s: State)
    requires Init(s) && ClearPath(s)
    ensures Smooth(s)
  {
  }

  lemma {:induction false} StaysSmooth(run: seq<State>, events: seq<Event>, i: nat)
    requires IsRun(run, events) && i < |run| && forall k | 0 <= k < i :: Unfailing(events[k])
    requires ClearPath(run[0])
    ensures Smooth(run[i])
  {
    if i == 0 {
      StartsSmooth(run[0]);
    } else {
      StaysSmooth(run, events, i - 1);
      EveryState(run, events, i - 1);
      StepAt(run, events, i - 1);
      SmoothKept(run[i - 1], events[i - 1], run[i], Published(run[0]));
    }
  }

  /** Nobody returns an error unless a call failed, the path held something else from the
      start, or a leftover file stood in the way: losing the race is not an error. */
  lemma OnlyFailuresFail(run: seq<State>, events: seq<Event>, i: nat, t: Tid)
    requires IsRun(run, events) && i < |run| && forall k | 0 <= k < i :: Unfailing(events[k])
    requires ClearPath(run[0]) && t in run[i].callers && run[i].callers[t].pc.Done?
    ensures run[i].callers[t].pc.result.Key?
  {
    StaysSmooth(run, events, i);
    assert OnTrack(run[i], run[i].callers[t].pc);
  }

  // ----- a file that is no key

  /** A caller on its way to refusing the file at the path. */
  ghost predicate Refusing(s: State, pc: Pc) {
    match pc
    case ReadFile => false
    case Create(_, name) => name !in s.entries
    case Unlink(_, after) => after == ReadExisting
    case Done(result) => result == InvalidFormat
    case _ => true
  }

  ghost predicate AllRefuse(s: State) {
    && Published(s).Some? && !WholeKey(Published(s))
    && NumbersFree(s)
    && forall t <- s.callers :: Refusing(s, s.callers[t].pc)
  }

  lemma OwnStaysRefusing(s: State, event: Event, s': State)
    requires Next(s, event, s') && Unfailing(event) && AllRefuse(s) && Files(s) && CallerFits(s, s.callers[event.t])
    ensures Refusing(s', s'.callers[event.t].pc)
  {
    assert Refusing(s, s.callers[event.t].pc);
    match event
    case CreateTemp(_, _, _) =>
    case HardLink(_, _) =>
    case Remove(_, _) =>
    case _ =>
  }

  lemma OtherStaysRefusing(s: State, event: Event, s': State, u: Tid)
    requires Next(s, event, s') && CallerFits(s, s.callers[event.t]) && OwnNames(s.callers)
    requires u in s.callers && u != event.t && Refusing(s, s.callers[u].pc) && CallerFits(s, s.callers[u])
    ensures Refusing(s', s.callers[u].pc)
  {
    if event.CreateTemp? {
      assert Named(s.callers[event.t].pc);
    }
  }

  lemma AllRefuseKept(s: State, event: Event, s': State, original: Option<File>)
    requires Inv(s, original) && Next(s, event, s') && Unfailing(event) && AllRefuse(s)
    ensures AllRefuse(s')
  {
    PublishedStep(s, event, s');
    NumbersStayFree(s, event, s');
    OwnStaysRefusing(s, event, s');
    forall u <- s'.callers ensures Refusing(s', s'.callers[u].pc) {
      if u != event.t {
        OtherStaysRefusing(s, event, s', u);
      }
    }
  }

  lemma {:induction false} StaysRefused(run: seq<State>, events: seq<Event>, i: nat)
    requires IsRun(run, events) && i < |run| && forall k | 0 <= k < i :: Unfailing(events[k])
    requires Published(run[0]).Some? && !WholeKey(Published(run[0])) && NumbersFree(run[0])
    ensures AllRefuse(run[i])
  {
    if i > 0 {
      StaysRefused(run, events, i - 1);
      EveryState(run, events, i - 1);
      StepAt(run, events, i - 1);
      AllRefuseKept(run[i - 1], events[i - 1], run[i], Published(run[0]));
    }
  }

  /** With anything else than a regular file of 32 bytes at the path and no failed call, every
      caller is told that the format is invalid, also one that did not see the file at first. */
  lemma WrongFileIsInvalidFormat(run: seq<State>, events: seq<Event>, i: nat, t: Tid)
    requires IsRun(run, events) && i < |run| && forall k | 0 <= k < i :: Unfailing(events[k])
    requires Published(run[0]).Some? && !WholeKey(Published(run[0])) && NumbersFree(run[0])
    requires t in run[i].callers && run[i].callers[t].pc.Done?
    ensures run[i].callers[t].pc.result == InvalidFormat
  {
    StaysRefused(run, events, i);
    assert Refusing(run[i], run[i].callers[t].pc);
  }

  // ----- no temporary file is left

  ghost predicate Removes(run: seq<State>, events: seq<Event>, j: nat, t: Tid, name: Name)
    requires |run| == |events| + 1
  {
    && j < |events| && events[j].Remove? && events[j].t == t
    && t in run[j].callers && Named(run[j].callers[t].pc) && run[j].callers[t].pc.name == name
  }

  /** The caller has created its temporary file and not yet removed it. */
  ghost predicate Created(pc: Pc, name: Name) {
    (pc.Write? || pc.Link? || pc.Unlink?) && pc.name == name
  }

  lemma CreatedStep(s: State, event: Event, s': State, t: Tid, name: Name)
    requires Next(s, event, s') && t in s.callers && (Created(s.callers[t].pc, name) || s.callers[t].pc.Crashed?)
    ensures t in s'.callers
    ensures Created(s'.callers[t].pc, name) || s'.callers[t].pc.Crashed? ||
            (event.Remove? && event.t == t && Created(s.callers[t].pc, name))
  {
  }

  lemma {:induction false} CreatedUntilRemoved(run: seq<State>, events: seq<Event>, k: nat, i: nat, t: Tid, name: Name)
    requires IsRun(run, events) && k <= i < |run| && t in run[k].callers && Created(run[k].callers[t].pc, name)
    ensures t in run[i].callers
    ensures Created(run[i].callers[t].pc, name) || run[i].callers[t].pc.Crashed? ||
            exists j :: k <= j < i && Removes(run, events, j, t, name)
    decreases i
  {
    hide Apply, Enabled, Init;
    if k < i {
      CreatedUntilRemoved(run, events, k, i - 1, t, name);
      StepAt(run, events, i - 1);
      if Created(run[i - 1].callers[t].pc, name) || run[i - 1].callers[t].pc.Crashed? {
        CreatedStep(run[i - 1], events[i - 1], run[i], t, name);
        assert events[i - 1].Remove? && events[i - 1].t == t && Created(run[i - 1].callers[t].pc, name)
               ==> Removes(run, events, i - 1, t, name);
      } else {
        CallersStay(run[i - 1], events[i - 1], run[i]);
      }
    }
  }

  lemma CallersStay(s: State, event: Event, s': State)
    requires Next(s, event, s')
    ensures s'.callers.Keys == s.callers.Keys
  {
  }

  /** A name whose number has been taken, that nobody works under and that is not there. */
  ghost predicate Gone(s: State, name: Name) {
    && name.Temp? && name !in s.entries
    && name.pid in s.counters && name.sequence < s.counters[name.pid]
    && forall t <- s.callers | Named(s.callers[t].pc) :: s.callers[t].pc.name != name
  }

  lemma GoneStep(s: State, event: Event, s': State, name: Name)
    requires Next(s, event, s') && Gone(s, name)
    ensures Gone(s', name)
  {
    var pc, pc' := s.callers[event.t].pc, s'.callers[event.t].pc;
    assert Named(pc') ==> pc'.name != name;
  }

  lemma {:induction false} GoneForGood(run: seq<State>, events: seq<Event>, i: nat, j: nat, name: Name)
    requires IsRun(run, events) && i <= j < |run| && Gone(run[i], name)
    ensures Gone(run[j], name)
    decreases j
  {
    hide Apply, Enabled, Init;
    if i < j {
      GoneForGood(run, events, i, j - 1, name);
      StepAt(run, events, j - 1);
      GoneStep(run[j - 1], events[j - 1], run[j], name);
    }
  }

  lemma RemovedIsGone(s: State, event: Event, s': State, original: Option<File>)
    requires Inv(s, original) && Next(s, event, s') && event.Remove? && event.ok
    ensures Gone(s', s.callers[event.t].pc.name)
  {
    assert CallerFits(s, s.callers[event.t]);
    assert s.callers[event.t].pc.Unlink?;
  }

  /** A caller that has created its temporary file does not return before it has asked for its
      removal; where that was granted, nothing is ever found under the name again. */
  lemma TemporaryIsRemoved(run: seq<State>, events: seq<Event>, k: nat, i: nat, t: Tid, name: Name) returns (j: nat)
    requires IsRun(run, events) && k <= i < |run|
    requires t in run[k].callers && run[k].callers[t].pc.Write? && run[k].callers[t].pc.name == name
    requires t in run[i].callers && run[i].callers[t].pc.Done?
    ensures k <= j < i && Removes(run, events, j, t, name)
    ensures events[j].ok ==> forall m | j < m < |run| :: name !in run[m].entries
  {
    CreatedUntilRemoved(run, events, k, i, t, name);
    j :| k <= j < i && Removes(run, events, j, t, name);
    if events[j].ok {
      EveryState(run, events, j);
      StepAt(run, events, j);
      RemovedIsGone(run[j], events[j], run[j + 1], Published(run[0]));
      forall m | j < m < |run| ensures name !in run[m].entries {
        GoneForGood(run, events, j + 1, m, name);
      }
    }
  }

  // ----- which error

  /** A caller that reads the file it found, or is through. */
  ghost predicate Reading(pc: Pc) {
    pc.Metadata? || pc.ReadFile? || pc.Done? || pc.Crashed?
  }

  lemma SeesNow(s: State, event: Event, s': State)
    requires Next(s, event, s') && event.LookExists? && event.sees
    ensures event.t in s'.callers && Reading(s'.callers[event.t].pc)
  {
  }

  lemma ReadingStep(s: State, event: Event, s': State, t: Tid)
    requires Next(s, event, s') && t in s.callers && Reading(s.callers[t].pc)
    ensures t in s'.callers && Reading(s'.callers[t].pc)
  {
  }

  /** A caller that has found the file never makes a key of its own. */
  lemma {:induction false} SeenIsNeverMade(run: seq<State>, events: seq<Event>, i: nat, j: nat)
    requires IsRun(run, events) && i < j < |run| && events[i].LookExists? && events[i].sees
    ensures events[i].t in run[j].callers && Reading(run[j].callers[events[i].t].pc)
    decreases j
  {
    hide Apply, Enabled, Init, Reading;
    StepAt(run, events, j - 1);
    if i < j - 1 {
      SeenIsNeverMade(run, events, i, j - 1);
      ReadingStep(run[j - 1], events[j - 1], run[j], events[i].t);
    } else {
      SeesNow(run[i], events[i], run[j]);
    }
  }

  /** Some call of this caller has failed. */
  ghost predicate Failing(pc: Pc) {
    pc == Done(IoError) || pc.Crashed? || (pc.Unlink? && pc.after == Return(IoError))
  }

  lemma {:induction false} StaysFailing(run: seq<State>, events: seq<Event>, i: nat, j: nat)
    requires IsRun(run, events) && i < j < |run| && !Unfailing(events[i])
    ensures events[i].t in run[j].callers && Failing(run[j].callers[events[i].t].pc)
    decreases j
  {
    hide Apply, Enabled, Init, Failing, Unfailing;
    StepAt(run, events, j - 1);
    if i < j - 1 {
      StaysFailing(run, events, i, j - 1);
      FailingStep(run[j - 1], events[j - 1], run[j], events[i].t);
    } else {
      FailsNow(run[i], events[i], run[j]);
    }
  }

  lemma FailsNow(s: State, event: Event, s': State)
    requires Next(s, event, s') && !Unfailing(event)
    ensures event.t in s'.callers && Failing(s'.callers[event.t].pc)
  {
  }

  lemma FailingStep(s: State, event: Event, s': State, t: Tid)
    requires Next(s, event, s') && t in s.callers && Failing(s.callers[t].pc)
    ensures t in s'.callers && Failing(s'.callers[t].pc)
  {
  }

  /** A caller one of whose calls failed - the removal aside, whose failure is ignored - is
      told of an input or output error, whatever the others do. */
  lemma FailedCallFails(run: seq<State>, events: seq<Event>, i: nat, j: nat)
    requires IsRun(run, events) && i < j < |run| && !Unfailing(events[i])
    requires events[i].t in run[j].callers && run[j].callers[events[i].t].pc.Done?
    ensures run[j].callers[events[i].t].pc.result == IoError
  {
    StaysFailing(run, events, i, j);
  }

  ghost predicate FaultsAreThere(s: State) {
    && (Target in s.entries ==> WholeKey(Published(s)))
    && forall t <- s.callers :: s.callers[t].pc != Done(InvalidFormat) && !UnlinksInvalid(s.callers[t].pc)
  }

  ghost predicate UnlinksInvalid(pc: Pc) {
    pc.Unlink? && pc.after == Return(InvalidFormat)
  }

  lemma FaultStep(s: State, event: Event, s': State, original: Option<File>)
    requires Inv(s, original) && Next(s, event, s') && FaultsAreThere(s)
    ensures FaultsAreThere(s')
  {
    OwnComplaint(s, event, s');
    hide Apply, Enabled, CallerFits, OwnNames, Harmless;
    PublishedKeyKept(s, event, s', original);
    CallersStay(s, event, s');
    OthersUnmoved(s, event, s');
  }

  lemma OthersUnmoved(s: State, event: Event, s': State)
    requires Next(s, event, s')
    ensures forall t <- s.callers | t != event.t :: t in s'.callers && s'.callers[t] == s.callers[t]
  {
  }

  lemma OwnComplaint(s: State, event: Event, s': State)
    requires Next(s, event, s') && FaultsAreThere(s)
    ensures event.t in s'.callers
    ensures s'.callers[event.t].pc != Done(InvalidFormat) && !UnlinksInvalid(s'.callers[event.t].pc)
  {
    assert !UnlinksInvalid(s.callers[event.t].pc);
  }

  lemma PublishedKeyKept(s: State, event: Event, s': State, original: Option<File>)
    requires Inv(s, original) && Next(s, event, s') && (Target in s.entries ==> WholeKey(Published(s)))
    ensures Target in s'.entries ==> WholeKey(Published(s'))
  {
    PublishedStep(s, event, s');
    hide Apply, Enabled;
    StepIsHarmless(s, event, s', if Named(s.callers[event.t].pc) then s.callers[event.t].pc.name else Temp(0, 0));
  }

  lemma {:induction false} NoFaultNoComplaint(run: seq<State>, events: seq<Event>, i: nat)
    requires IsRun(run, events) && i < |run| && (Published(run[0]).Some? ==> WholeKey(Published(run[0])))
    ensures FaultsAreThere(run[i])
  {
    if i > 0 {
      NoFaultNoComplaint(run, events, i - 1);
      EveryState(run, events, i - 1);
      StepAt(run, events, i - 1);
      FaultStep(run[i - 1], events[i - 1], run[i], Published(run[0]));
    }
  }

  /** And the format is called invalid only where it is. */
  lemma InvalidMeansWrongFile(run: seq<State>, events: seq<Event>, i: nat, t: Tid)
    requires IsRun(run, events) && i < |run| && t in run[i].callers
    requires run[i].callers[t].pc == Done(InvalidFormat)
    ensures Published(run[0]).Some? && !WholeKey(Published(run[0]))
  {
    if Published(run[0]).Some? ==> WholeKey(Published(run[0])) {
      NoFaultNoComplaint(run, events, i);
    }
  }
}
