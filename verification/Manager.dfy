/** The headless connection manager (headless/src/manager.rs) as a state machine. One
  * action is one section under the runtime lock, one file operation or one effect on
  * the engine process, so that everything between two of them may be interleaved with
  * every other task, and a crash may strike between any two.
  */
module Manager {
  import opened Wrappers
  import opened Admission

  type Profile = string
  type Attempt = string
  type Task = nat

  const MAX_GENERATION: nat := 0xffff_ffff_ffff_ffff

  datatype Status = Starting | Connecting | Connected | Disconnecting | Disconnected | Failed

  /** restored: made from the run journal by restore_recovery. */
  datatype Control = Control(
    generation: nat,
    desired: bool,
    active: bool,
    cleanupFailed: bool,
    reconnectBlocked: bool,
    process: bool,
    restored: bool)

  datatype Instance = Instance(id: Attempt, status: Status, ended: bool)

  /** Where a supervisor stands in supervise and run_once. */
  datatype Place =
    | Head
    | Announcing
    | Waiting
    | Renaming
    | Entering           // run_once, before the run record
    | Journaled          // the run record is on disk
    | Abandoning         // no lease, about to remove the record
    | Leased             // holding the lease, or none is needed
    | Unstarting         // spawn failed, about to finish the lease
    | UnstartedForget    // ... and then to remove the record
    | Spawned            // the child exists
    | Persisted          // its identity is on disk and it has been let go
    | Running            // the child is published and its events are read
    | Exited             // child waited for, streams drained, workers joined
    | Reaped             // its outcome is in the control
    | Finishing          // cleanup confirmed, about to finish the lease
    | Forgetting         // ... and then to remove the record
    | Doubting           // about to require recovery
    | Returned           // run_once is over
    | Deciding(giveUp: bool)
    | Marking            // about to publish a disconnect and end
    | Failing            // about to publish a failure and end

  datatype Supervisor = Supervisor(
    profile: Profile, generation: nat, attempt: Attempt, retry: bool, at: Place)

  /** What a stop leads to; commands of one profile run one after the other. */
  datatype Follow = Nothing | Delete | Reconnect

  datatype Command = Stop(follow: Follow) | Removing | Resuming

  datatype Record = Record(profile: Profile, generation: nat)

  /** What outlives the manager's process. runs, lease: on disk. alive: children that
    * may be running. unclean: attempts whose child was started and whose network
    * cleanup the engine has not completed. tainted: those whose engine reported a
    * failure.
    */
  datatype World = World(
    authority: bool,
    runs: map<Attempt, Record>,
    lease: Option<Attempt>,
    alive: set<Attempt>,
    unclean: set<Attempt>,
    tainted: set<Attempt>)

  /** used: every attempt id so far. */
  datatype State = State(
    up: bool,
    shuttingDown: bool,
    controls: map<Profile, Control>,
    instances: map<Profile, Instance>,
    supervisors: map<Task, Supervisor>,
    commands: map<Profile, Command>,
    world: World,
    used: set<Attempt>)

  /** A file change goes through, or fails without or with its effect. */
  datatype Fate = Goes | FailsUndone | FailsDone

  /** What the environment contributes to one step of a supervisor. */
  datatype Env = Env(
    fate: Fate,
    early: bool,        // run_once fails before the record; the child has no pid
    unreadable: bool,   // the lease record cannot be inspected
    waited: bool,       // waiting for the child succeeded
    complete: bool,     // both output streams were drained
    forced: bool,       // the child was killed
    pending: bool,      // the engine left network changes unaccounted for
    retryable: bool,    // the exit code allows a retry
    nativeIdle: bool,   // no native transaction is outstanding
    again: bool,        // the profile asks for automatic reconnects
    freshId: Attempt)

  datatype Action =
    | Connect(p: Profile, origin: StartOrigin, owners: seq<ConnectionOwner>, task: Task, id: Attempt)
    | BeginStop(p: Profile, follow: Follow)
    | PollStop(p: Profile)
    | AbortStop(p: Profile)
    | Remove(p: Profile, removed: bool)
    | Evict(p: Profile)
    | Shutdown
    | AuthUndelivered(p: Profile)
    | EngineEvent(t: Task, failed: bool, blocks: bool, stops: bool, status: Option<Status>)
    | Advance(t: Task, env: Env)
    | Crash
    | Restart
    | Acknowledge(a: Attempt)

  // ---- ownership

  predicate IsOwner(c: Control) {
    c.desired || c.active || c.process || c.cleanupFailed
  }

  /** The classification that admission sees. */
  function Ownership(c: Control, view: Option<Instance>): Option<OwnershipState> {
    if c.cleanupFailed then Some(RecoveryRequired)
    else if !(c.active || c.process || c.desired) then None
    else if !c.desired || (view.Some? && view.value.status == Disconnecting) then Some(Stopping)
    else if view.Some? then Some(Healthy)
    else Some(StartingReservation)
  }

  function View(s: State, p: Profile): Option<Instance> {
    if p in s.instances then Some(s.instances[p]) else None
  }

  /** The owners as collected from the map of controls, in whatever order. */
  predicate Enumerates(owners: seq<ConnectionOwner>, s: State) {
    && (forall o :: o in owners ==>
          && o.profile in s.controls
          && Ownership(s.controls[o.profile], View(s, o.profile)) == Some(o.state)
          && o.instance == if o.profile in s.instances then Some(s.instances[o.profile].id) else None)
    && (forall p :: p in s.controls && IsOwner(s.controls[p]) ==> exists o :: o in owners && o.profile == p)
    && (forall i, j :: 0 <= i < j < |owners| ==> owners[i].profile != owners[j].profile)
  }

  function Facts(s: State, p: Profile, owners: seq<ConnectionOwner>): ConnectFacts {
    ConnectFacts(p, true, s.shuttingDown, false, false, false, false, owners)
  }

  // ---- commands

  function NextGeneration(s: State, p: Profile): nat {
    var g := if p in s.controls then s.controls[p].generation else 0;
    if g < MAX_GENERATION then g + 1 else g
  }

  function ReserveConnection(s: State, p: Profile, task: Task, id: Attempt): State {
    var g := NextGeneration(s, p);
    s.(controls := s.controls[p := Control(g, true, true, false, false, false, false)],
       instances := s.instances[p := Instance(id, Starting, false)],
       supervisors := s.supervisors[task := Supervisor(p, g, id, false, Head)],
       used := s.used + {id})
  }

  predicate MayConnect(s: State, p: Profile) {
    p !in s.commands || s.commands[p] == Resuming
  }

  function DoConnect(s: State, p: Profile, origin: StartOrigin, owners: seq<ConnectionOwner>,
                     task: Task, id: Attempt): State
  {
    if s.up && MayConnect(s, p) && Enumerates(owners, s) && task !in s.supervisors && id !in s.used then
      var idle := s.(commands := s.commands - {p});
      if Admit(Facts(s, p, owners), origin) == Success(Reserve) then ReserveConnection(idle, p, task, id) else idle
    else s
  }

  function Followed(s: State, p: Profile, follow: Follow): State {
    s.(commands := match follow
                   case Nothing => s.commands - {p}
                   case Delete => s.commands[p := Removing]
                   case Reconnect => s.commands[p := Resuming])
  }

  /** disconnect_inner up to the wait. */
  function DoBeginStop(s: State, p: Profile, follow: Follow): State {
    if !s.up || p in s.commands then s
    else if p !in s.controls then Followed(s, p, follow)
    else
      var asked := s.(controls := s.controls[p := s.controls[p].(desired := false)],
                      commands := s.commands[p := Stop(follow)]);
      if p in s.instances && !s.instances[p].ended then
        asked.(instances := s.instances[p := s.instances[p].(status := Disconnecting)])
      else asked
  }

  predicate IsActive(s: State, p: Profile) {
    p in s.controls && (s.controls[p].desired || s.controls[p].active || s.controls[p].process)
  }

  function DoPollStop(s: State, p: Profile): State {
    if p in s.commands && s.commands[p].Stop? && !IsActive(s, p) then Followed(s, p, s.commands[p].follow) else s
  }

  function DoAbortStop(s: State, p: Profile): State {
    if p in s.commands && s.commands[p].Stop? then s.(commands := s.commands - {p}) else s
  }

  /** The end of delete_profile_inner. */
  function DoRemove(s: State, p: Profile, removed: bool): State {
    if p in s.commands && s.commands[p] == Removing then
      var done := s.(commands := s.commands - {p});
      if removed then done.(controls := s.controls - {p}, instances := s.instances - {p}) else done
    else s
  }

  /** The retention of terminal instances. */
  function DoEvict(s: State, p: Profile): State {
    if s.up && p in s.instances && s.instances[p].ended && !(p in s.controls && IsOwner(s.controls[p])) then
      s.(controls := s.controls - {p}, instances := s.instances - {p})
    else s
  }

  function DoShutdown(s: State): State {
    if s.up then
      s.(shuttingDown := true,
         controls := map p | p in s.controls :: s.controls[p].(desired := false))
    else s
  }

  function DoAuthUndelivered(s: State, p: Profile): State {
    if s.up && p in s.controls then
      s.(controls := s.controls[p := s.controls[p].(desired := false, reconnectBlocked := true)])
    else s
  }

  // ---- events of a running engine

  function DoEngineEvent(s: State, t: Task, failed: bool, blocks: bool, stops: bool, status: Option<Status>): State {
    if t in s.supervisors && s.supervisors[t].at == Running then
      var a := s.supervisors[t].attempt;
      var told := s.(world := if failed then s.world.(tainted := s.world.tainted + {a}) else s.world);
      var p := s.supervisors[t].profile;
      if p in s.instances && s.instances[p].id == a && p in s.controls then
        var c := s.controls[p];
        var i := s.instances[p];
        told.(controls := s.controls[p := c.(cleanupFailed := c.cleanupFailed || failed,
                                              reconnectBlocked := c.reconnectBlocked || failed || blocks,
                                              desired := c.desired && !stops)],
              instances := if status.Some? && i.status != Disconnecting && !i.ended
                           then s.instances[p := i.(status := status.value)] else s.instances)
      else told
    else s
  }

  // ---- the supervisor

  function Move(s: State, t: Task, at: Place): State
    requires t in s.supervisors
  {
    s.(supervisors := s.supervisors[t := s.supervisors[t].(at := at)])
  }

  function End(s: State, t: Task): State {
    s.(supervisors := s.supervisors - {t})
  }

  predicate IsCurrent(s: State, w: Supervisor) {
    w.profile in s.controls && s.controls[w.profile].desired && s.controls[w.profile].generation == w.generation
  }

  predicate ControlMatches(s: State, w: Supervisor) {
    w.profile in s.controls && s.controls[w.profile].generation == w.generation
  }

  predicate InstanceMatches(s: State, w: Supervisor) {
    w.profile in s.instances && s.instances[w.profile].id == w.attempt
  }

  function WithControl(s: State, p: Profile, c: Control): State {
    s.(controls := s.controls[p := c])
  }

  function WithInstance(s: State, p: Profile, i: Instance): State {
    s.(instances := s.instances[p := i])
  }

  function MarkDisconnected(s: State, w: Supervisor): State {
    var p := w.profile;
    if !InstanceMatches(s, w) then s
    else if p in s.controls && s.controls[p].process then s
    else if p in s.controls && s.controls[p].cleanupFailed then
      WithInstance(s, p, s.instances[p].(status := Failed))
    else
      var quiet := if p in s.controls
                   then WithControl(s, p, s.controls[p].(active := false, desired := false)) else s;
      WithInstance(quiet, p, s.instances[p].(status := Disconnected, ended := true))
  }

  function FinishFailed(s: State, w: Supervisor): State {
    var p := w.profile;
    if !InstanceMatches(s, w) then s
    else
      var held := p in s.controls && (s.controls[p].process || s.controls[p].cleanupFailed);
      var quiet := if p in s.controls
                   then WithControl(s, p, s.controls[p].(desired := false, active := held)) else s;
      WithInstance(quiet, p, s.instances[p].(status := Failed, ended := s.instances[p].ended || !held))
  }

  function RetainRecovery(s: State, w: Supervisor): State {
    if ControlMatches(s, w) then
      WithControl(s, w.profile, s.controls[w.profile].(cleanupFailed := true, reconnectBlocked := true))
    else s
  }

  function AfterFinish(s: State, t: Task, fate: Fate, next: Place): State
    requires t in s.supervisors
  {
    if !s.world.authority then Move(s, t, next)
    else
      var done := if fate == FailsUndone then s else s.(world := s.world.(lease := None));
      Move(done, t, if fate == Goes then next else Doubting)
  }

  function AfterForget(s: State, t: Task, fate: Fate, failed: Place): State
    requires t in s.supervisors
  {
    var runs := s.world.runs - {s.supervisors[t].attempt};
    var done := if fate == FailsUndone then s else s.(world := s.world.(runs := runs));
    Move(done, t, if fate == Goes then Returned else failed)
  }

  function AfterAcquire(s: State, t: Task, fate: Fate, unreadable: bool): State
    requires t in s.supervisors
  {
    var a := s.supervisors[t].attempt;
    if !s.world.authority then Move(s, t, Leased)
    else
      var tried := if s.world.lease.None? && fate != FailsUndone then s.(world := s.world.(lease := Some(a))) else s;
      if s.world.lease.None? && fate == Goes then Move(tried, t, Leased)
      else Move(tried, t, if unreadable || tried.world.lease == Some(a) then Doubting else Abandoning)
  }

  /** Publishing the child. */
  function Publish(s: State, t: Task): State
    requires t in s.supervisors
  {
    var w := s.supervisors[t];
    var p := w.profile;
    if p !in s.controls then Move(s, t, Returned)
    else
      var cancelled := !IsCurrent(s, w);
      var published := WithControl(s, p, s.controls[p].(process := true, cleanupFailed := false));
      Move(if InstanceMatches(s, w)
           then WithInstance(published, p, s.instances[p].(status := if cancelled then Disconnecting else Connecting))
           else published, t, Running)
  }

  /** Recording the end of the child. */
  function Reap(s: State, t: Task, e: Env): State
    requires t in s.supervisors
  {
    var w := s.supervisors[t];
    var dirty := !e.complete || e.forced || e.pending;
    var known := if dirty || w.attempt in s.world.tainted then s
                 else s.(world := s.world.(unclean := s.world.unclean - {w.attempt}));
    if ControlMatches(s, w) then
      var c := s.controls[w.profile];
      var failed := c.cleanupFailed || dirty;
      Move(WithControl(known, w.profile,
                       c.(process := false, cleanupFailed := failed,
                          reconnectBlocked := c.reconnectBlocked || failed || !e.retryable)), t, Reaped)
    else Move(known, t, Reaped)
  }

  function DoAdvance(s: State, t: Task, e: Env): State
    requires t in s.supervisors
  {
    var w := s.supervisors[t];
    var a := w.attempt;
    match w.at
    case Head => Move(s, t, if !IsCurrent(s, w) then Marking else if w.retry then Announcing else Entering)
    case Announcing =>
      Move(if InstanceMatches(s, w)
           then WithInstance(s, w.profile, s.instances[w.profile].(status := Starting)) else s, t, Waiting)
    case Waiting => Move(s, t, if IsCurrent(s, w) then Renaming else Marking)
    case Renaming =>
      if !InstanceMatches(s, w) then End(s, t)
      else if e.freshId in s.used then s
      else
        WithInstance(s, w.profile, s.instances[w.profile].(id := e.freshId, ended := false))
        .(supervisors := s.supervisors[t := w.(attempt := e.freshId, at := Entering)],
          used := s.used + {e.freshId})
    case Entering =>
      if e.early then Move(s, t, Returned)
      else
        var runs := s.world.runs[a := Record(w.profile, w.generation)];
        var tried := if e.fate == FailsUndone then s else s.(world := s.world.(runs := runs));
        Move(tried, t, if e.fate == Goes then Journaled else Returned)
    case Journaled => AfterAcquire(s, t, e.fate, e.unreadable)
    case Abandoning => AfterForget(s, t, e.fate, Returned)
    case Leased =>
      if e.fate == Goes then
        Move(s.(world := s.world.(alive := s.world.alive + {a}, unclean := s.world.unclean + {a})), t, Spawned)
      else Move(s, t, Unstarting)
    case Unstarting => AfterFinish(s, t, e.fate, UnstartedForget)
    case UnstartedForget => AfterForget(s, t, e.fate, Doubting)
    case Spawned => Move(s, t, if e.early then Returned else if e.fate == Goes then Persisted else Doubting)
    case Persisted => Publish(s, t)
    case Running =>
      if e.waited then Move(s.(world := s.world.(alive := s.world.alive - {a})), t, Exited) else Move(s, t, Returned)
    case Exited => Reap(s, t, e)
    case Reaped =>
      Move(s, t, if ControlMatches(s, w) && !s.controls[w.profile].cleanupFailed && e.nativeIdle
                 then Finishing else Returned)
    case Finishing => AfterFinish(s, t, e.fate, Forgetting)
    case Forgetting => AfterForget(s, t, e.fate, Doubting)
    case Doubting => Move(RetainRecovery(s, w), t, Returned)
    case Returned =>
      Move(s, t, Deciding(!e.again || (w.profile in s.controls && s.controls[w.profile].reconnectBlocked)))
    case Deciding(giveUp) =>
      if !IsCurrent(s, w) then Move(s, t, Marking)
      else if giveUp then Move(s, t, Failing)
      else s.(supervisors := s.supervisors[t := w.(retry := true, at := Head)])
    case Marking => End(MarkDisconnected(s, w), t)
    case Failing => End(FinishFailed(s, w), t)
  }

  // ---- crash and restart

  /** The process is gone; disk and children stay. */
  function DoCrash(s: State): State {
    s.(up := false, shuttingDown := false, controls := map[], instances := map[],
       supervisors := map[], commands := map[])
  }

  predicate OneRecordPerProfile(runs: map<Attempt, Record>) {
    forall a, b :: a in runs && b in runs && runs[a].profile == runs[b].profile ==> a == b
  }

  /** restore_recovery: every record becomes a control that requires recovery. Two
    * records of one profile keep the manager from starting.
    */
  function DoRestart(s: State): State {
    var runs := s.world.runs;
    if s.up || !OneRecordPerProfile(runs) then s
    else
      s.(up := true,
         controls := map a | a in runs ::
                       runs[a].profile := Control(runs[a].generation, false, true, true, true, false, true),
         instances := map a | a in runs :: runs[a].profile := Instance(a, Failed, false))
  }

  /** The operator's offline statement that an attempt's child and network changes are
    * gone; only possible while no manager runs.
    */
  function DoAcknowledge(s: State, a: Attempt): State {
    var w := s.world;
    if s.up || a !in w.runs then s
    else
      s.(world := w.(runs := w.runs - {a}, lease := if w.lease == Some(a) then None else w.lease,
                     alive := w.alive - {a}, unclean := w.unclean - {a}))
  }

  // ---- runs

  function Next(s: State, action: Action): State {
    match action
    case Connect(p, origin, owners, task, id) => DoConnect(s, p, origin, owners, task, id)
    case BeginStop(p, follow) => DoBeginStop(s, p, follow)
    case PollStop(p) => DoPollStop(s, p)
    case AbortStop(p) => DoAbortStop(s, p)
    case Remove(p, removed) => DoRemove(s, p, removed)
    case Evict(p) => DoEvict(s, p)
    case Shutdown => DoShutdown(s)
    case AuthUndelivered(p) => DoAuthUndelivered(s, p)
    case EngineEvent(t, failed, blocks, stops, status) => DoEngineEvent(s, t, failed, blocks, stops, status)
    case Advance(t, env) => if t in s.supervisors then DoAdvance(s, t, env) else s
    case Crash => DoCrash(s)
    case Restart => DoRestart(s)
    case Acknowledge(a) => DoAcknowledge(s, a)
  }

  function Run(s: State, actions: seq<Action>): State
    decreases |actions|
  {
    if actions == [] then s else Run(Next(s, actions[0]), actions[1..])
  }

  /** A machine on which no manager has run yet. */
  function Fresh(authority: bool): State {
    State(false, false, map[], map[], map[], map[], World(authority, map[], None, {}, {}, {}), {})
  }

  // ---- the invariant

  predicate InDoubt(w: World, a: Attempt) {
    a in w.alive || a in w.unclean
  }

  predicate Untouched(w: World, a: Attempt) {
    !InDoubt(w, a) && a !in w.tainted
  }

  predicate HoldsLease(w: World, a: Attempt) {
    w.authority ==> w.lease == Some(a)
  }

  /** Whatever may still be running or unclean is in the run journal, and under the
    * machine-wide lease it is the one attempt that holds the lease.
    */
  predicate DoubtIsJournaled(w: World) {
    forall a :: a in w.alive + w.unclean ==> a in w.runs && HoldsLease(w, a)
  }

  predicate WorldIds(w: World, used: set<Attempt>) {
    && w.runs.Keys + w.tainted + w.alive + w.unclean <= used
    && (w.lease.Some? ==> w.lease.value in used)
  }

  /** What is known at each place of a supervisor about its attempt. */
  predicate PlaceOk(w: World, v: Supervisor, cleanupFailed: bool) {
    var a := v.attempt;
    match v.at
    case Head => !cleanupFailed && (!v.retry ==> Untouched(w, a))
    case Announcing => !cleanupFailed
    case Waiting => !cleanupFailed
    case Renaming => !cleanupFailed
    case Entering => !cleanupFailed && Untouched(w, a)
    case Journaled => !cleanupFailed && a in w.runs && Untouched(w, a)
    case Abandoning => !InDoubt(w, a)
    case Leased => !cleanupFailed && a in w.runs && Untouched(w, a) && HoldsLease(w, a)
    case Unstarting => !InDoubt(w, a) && HoldsLease(w, a)
    case UnstartedForget => !InDoubt(w, a)
    case Spawned => !cleanupFailed && a !in w.tainted && HoldsLease(w, a)
    case Persisted => !cleanupFailed && a !in w.tainted && HoldsLease(w, a)
    case Running => (a in w.tainted ==> cleanupFailed) && HoldsLease(w, a)
    case Exited => a !in w.alive && (a in w.tainted ==> cleanupFailed) && HoldsLease(w, a)
    case Reaped => a !in w.alive && (a in w.unclean ==> cleanupFailed) && HoldsLease(w, a)
    case Finishing => !InDoubt(w, a) && HoldsLease(w, a)
    case Forgetting => !InDoubt(w, a)
    case Doubting => true
    case Returned => true
    case Deciding(giveUp) => !giveUp ==> !cleanupFailed
    case Marking => true
    case Failing => true
  }

  predicate ControlOk(c: Control) {
    && (c.desired || c.process || c.cleanupFailed ==> c.active)
    && (c.restored ==> c.cleanupFailed)
    && (c.cleanupFailed ==> c.reconnectBlocked)
  }

  predicate ControlsOk(controls: map<Profile, Control>) {
    forall p :: p in controls ==> ControlOk(controls[p])
  }

  /** Two active controls are one, or both stand for attempts of an earlier process. */
  predicate OneOwner(controls: map<Profile, Control>) {
    forall p, q :: p in controls && q in controls && controls[p].active && controls[q].active ==>
      p == q || (controls[p].restored && controls[q].restored)
  }

  predicate SupervisorOk(s: State, v: Supervisor) {
    && ControlMatches(s, v) && InstanceMatches(s, v)
    && s.controls[v.profile].active && !s.controls[v.profile].restored
    && v.attempt in s.used
    && PlaceOk(s.world, v, s.controls[v.profile].cleanupFailed)
  }

  predicate SupervisorsOk(s: State) {
    && (forall t, u :: t in s.supervisors && u in s.supervisors ==> t == u)
    && (forall t :: t in s.supervisors ==> SupervisorOk(s, s.supervisors[t]))
  }

  predicate InstancesOk(s: State) {
    forall p :: p in s.instances ==> s.instances[p].id in s.used
  }

  predicate CommandsOk(s: State) {
    forall p :: p in s.commands && s.commands[p] == Removing && p in s.controls ==> !IsOwner(s.controls[p])
  }

  predicate DownIsEmpty(s: State) {
    !s.up ==> s.controls == map[] && s.instances == map[] && s.supervisors == map[] && s.commands == map[]
  }

  predicate Inv(s: State) {
    && ControlsOk(s.controls) && OneOwner(s.controls) && SupervisorsOk(s)
    && DoubtIsJournaled(s.world) && WorldIds(s.world, s.used)
    && InstancesOk(s) && CommandsOk(s) && DownIsEmpty(s)
  }

  lemma FreshInv(authority: bool)
    ensures Inv(Fresh(authority))
  {
  }

  // ---- how the invariant is kept

  /** A command that only lowers the wish for a connection. */
  lemma LoweredKeeps(s: State, p: Profile, c: Control, commands: map<Profile, Command>)
    requires Inv(s) && p in s.controls && s.up
    requires c == s.controls[p].(desired := false, reconnectBlocked := c.reconnectBlocked)
    requires s.controls[p].reconnectBlocked ==> c.reconnectBlocked
    requires forall q :: q in commands && commands[q] == Removing ==> q in s.commands && s.commands[q] == Removing
    ensures Inv(s.(controls := s.controls[p := c], commands := commands))
  {
    hide PlaceOk;
    hide DoubtIsJournaled;
    hide WorldIds;
    var s' := s.(controls := s.controls[p := c], commands := commands);
    assert forall t :: t in s'.supervisors ==> SupervisorOk(s, s.supervisors[t]) && SupervisorOk(s', s.supervisors[t]);
  }

  lemma StatusKeeps(s: State, p: Profile, status: Status)
    requires Inv(s) && p in s.instances
    ensures Inv(s.(instances := s.instances[p := s.instances[p].(status := status)]))
  {
    hide PlaceOk;
    hide DoubtIsJournaled;
    hide WorldIds;
    var s' := s.(instances := s.instances[p := s.instances[p].(status := status)]);
    assert forall t :: t in s'.supervisors ==> SupervisorOk(s, s.supervisors[t]) && SupervisorOk(s', s.supervisors[t]);
  }

  lemma CommandsKeep(s: State, commands: map<Profile, Command>)
    requires Inv(s) && s.up
    requires forall p :: p in commands && commands[p] == Removing && p in s.controls ==> !IsOwner(s.controls[p])
    ensures Inv(s.(commands := commands))
  {
    hide PlaceOk;
    hide DoubtIsJournaled;
    hide WorldIds;
    var s' := s.(commands := commands);
    assert forall t :: t in s'.supervisors ==> SupervisorOk(s, s.supervisors[t]) && SupervisorOk(s', s.supervisors[t]);
  }

  /** Dropping a profile that owns nothing. */
  lemma DropKeeps(s: State, p: Profile)
    requires Inv(s) && (p in s.controls ==> !IsOwner(s.controls[p]))
    ensures Inv(s.(controls := s.controls - {p}, instances := s.instances - {p}))
  {
    hide PlaceOk;
    hide DoubtIsJournaled;
    hide WorldIds;
    var s' := s.(controls := s.controls - {p}, instances := s.instances - {p});
    assert forall t :: t in s'.supervisors ==> SupervisorOk(s, s.supervisors[t]) && SupervisorOk(s', s.supervisors[t]);
  }

  /** One step of a supervisor that goes on: it may change its own control, its own
    * instance and the world.
    */
  lemma StepKeeps(s: State, t: Task, c: Control, i: Instance, v: Supervisor, world: World, used: set<Attempt>)
    requires Inv(s) && t in s.supervisors
    requires v.profile == s.supervisors[t].profile && v.generation == s.supervisors[t].generation
    requires c.active && !c.restored && c.generation == v.generation && ControlOk(c)
    requires i.id == v.attempt && v.attempt in used && s.used <= used
    requires PlaceOk(world, v, c.cleanupFailed) && DoubtIsJournaled(world) && WorldIds(world, used)
    ensures Inv(s.(controls := s.controls[v.profile := c], instances := s.instances[v.profile := i],
                   supervisors := s.supervisors[t := v], world := world, used := used))
  {
    hide PlaceOk;
    hide DoubtIsJournaled;
    hide WorldIds;
    assert SupervisorOk(s, s.supervisors[t]);
  }

  /** The last step of a supervisor. */
  lemma EndKeeps(s: State, t: Task, c: Control, i: Instance)
    requires Inv(s) && t in s.supervisors
    requires ControlOk(c) && !c.restored && i.id == s.supervisors[t].attempt
    ensures Inv(s.(controls := s.controls[s.supervisors[t].profile := c],
                   instances := s.instances[s.supervisors[t].profile := i],
                   supervisors := s.supervisors - {t}))
  {
    hide PlaceOk;
    hide DoubtIsJournaled;
    hide WorldIds;
    assert SupervisorOk(s, s.supervisors[t]);
  }

  lemma SameUpdate<K, V>(m: map<K, V>, k: K)
    requires k in m
    ensures m[k := m[k]] == m
  {
  }

  /** A step that only moves the supervisor and changes the world. */
  lemma MoveKeeps(s: State, t: Task, at: Place, world: World)
    requires Inv(s) && t in s.supervisors
    requires
      var p := s.supervisors[t].profile;
      PlaceOk(world, s.supervisors[t].(at := at), p in s.controls && s.controls[p].cleanupFailed)
    requires DoubtIsJournaled(world) && WorldIds(world, s.used)
    ensures Inv(Move(s.(world := world), t, at))
  {
    hide PlaceOk;
    hide DoubtIsJournaled;
    hide WorldIds;
    var w := s.supervisors[t];
    assert SupervisorOk(s, w);
    SameUpdate(s.controls, w.profile);
    SameUpdate(s.instances, w.profile);
    StepKeeps(s, t, s.controls[w.profile], s.instances[w.profile], w.(at := at), world, s.used);
  }

  // ---- commands keep the invariant

  lemma NoOwnersMeansIdle(s: State, p: Profile, owners: seq<ConnectionOwner>, origin: StartOrigin)
    requires Inv(s) && Enumerates(owners, s) && Admit(Facts(s, p, owners), origin) == Success(Reserve)
    ensures forall q :: q in s.controls ==> !IsOwner(s.controls[q])
    ensures s.supervisors == map[]
  {
    hide Admit;
    hide PlaceOk;
    ReservedExactlyWithoutOwners(Facts(s, p, owners), origin);
    forall q | q in s.controls ensures !IsOwner(s.controls[q]) {
      assert IsOwner(s.controls[q]) ==> exists o :: o in owners && o.profile == q;
    }
    assert forall t :: t in s.supervisors ==> SupervisorOk(s, s.supervisors[t]);
  }

  lemma ReserveKeeps(s: State, p: Profile, task: Task, id: Attempt)
    requires Inv(s) && s.up && id !in s.used && s.supervisors == map[]
    requires p in s.commands ==> s.commands[p] != Removing
    requires forall q :: q in s.controls ==> !IsOwner(s.controls[q])
    ensures Inv(ReserveConnection(s, p, task, id))
  {
    hide DoubtIsJournaled;
    var s' := ReserveConnection(s, p, task, id);
    assert Untouched(s.world, id);
    assert SupervisorOk(s', s'.supervisors[task]);
    assert WorldIds(s'.world, s'.used);
  }

  lemma ConnectKeeps(s: State, p: Profile, origin: StartOrigin, owners: seq<ConnectionOwner>, task: Task, id: Attempt)
    requires Inv(s)
    ensures Inv(DoConnect(s, p, origin, owners, task, id))
  {
    hide Admit;
    hide Inv;
    hide Enumerates;
    hide ReserveConnection;
    if s.up && MayConnect(s, p) && Enumerates(owners, s) && task !in s.supervisors && id !in s.used {
      var idle := s.(commands := s.commands - {p});
      CommandsAre(s);
      CommandsKeep(s, s.commands - {p});
      if Admit(Facts(s, p, owners), origin) == Success(Reserve) {
        NoOwnersMeansIdle(s, p, owners, origin);
        ReserveKeeps(idle, p, task, id);
      }
    }
  }

  lemma CommandsAre(s: State)
    requires Inv(s)
    ensures CommandsOk(s)
  {
  }

  lemma FollowedKeeps(s: State, p: Profile, follow: Follow)
    requires Inv(s) && s.up && (p in s.controls ==> !IsOwner(s.controls[p]))
    ensures Inv(Followed(s, p, follow))
  {
    hide Inv;
    CommandsAre(s);
    CommandsKeep(s, Followed(s, p, follow).commands);
  }

  lemma OwnerIsActive(s: State, p: Profile)
    requires Inv(s) && p in s.controls
    ensures IsOwner(s.controls[p]) <==> s.controls[p].active
    ensures ControlOk(s.controls[p])
  {
  }

  lemma StopKeeps(s: State, p: Profile, follow: Follow)
    requires Inv(s)
    ensures Inv(DoBeginStop(s, p, follow))
  {
    hide Inv;
    if s.up && p !in s.commands {
      if p !in s.controls {
        FollowedKeeps(s, p, follow);
      } else {
        var c := s.controls[p].(desired := false);
        var commands := s.commands[p := Stop(follow)];
        LoweredKeeps(s, p, c, commands);
        var asked := s.(controls := s.controls[p := c], commands := commands);
        if p in s.instances && !s.instances[p].ended {
          StatusKeeps(asked, p, Disconnecting);
        }
      }
    }
  }

  lemma PollKeeps(s: State, p: Profile)
    requires Inv(s) && (p in s.commands ==> s.up)
    ensures Inv(DoPollStop(s, p)) && Inv(DoAbortStop(s, p))
  {
    hide Inv;
    CommandsAre(s);
    if p in s.commands && s.commands[p].Stop? {
      CommandsKeep(s, s.commands - {p});
      if !IsActive(s, p) {
        if p in s.controls {
          OwnerIsActive(s, p);
        }
        FollowedKeeps(s, p, s.commands[p].follow);
      }
    }
  }

  lemma RemoveKeeps(s: State, p: Profile, removed: bool)
    requires Inv(s) && (p in s.commands ==> s.up)
    ensures Inv(DoRemove(s, p, removed)) && Inv(DoEvict(s, p))
  {
    hide Inv;
    CommandsAre(s);
    if p in s.commands && s.commands[p] == Removing {
      CommandsKeep(s, s.commands - {p});
      DropKeeps(s.(commands := s.commands - {p}), p);
    }
    if p in s.controls ==> !IsOwner(s.controls[p]) {
      DropKeeps(s, p);
    }
  }

  lemma ShutdownKeeps(s: State)
    requires Inv(s)
    ensures Inv(DoShutdown(s))
  {
    hide PlaceOk;
    hide DoubtIsJournaled;
    hide WorldIds;
    var s' := DoShutdown(s);
    assert forall t :: t in s'.supervisors ==> SupervisorOk(s, s.supervisors[t]) && SupervisorOk(s', s.supervisors[t]);
  }

  lemma AuthUndeliveredKeeps(s: State, p: Profile)
    requires Inv(s)
    ensures Inv(DoAuthUndelivered(s, p))
  {
    hide Inv;
    if s.up && p in s.controls {
      LoweredKeeps(s, p, s.controls[p].(desired := false, reconnectBlocked := true), s.commands);
    }
  }

  lemma SupervisorIs(s: State, t: Task)
    requires Inv(s) && t in s.supervisors
    ensures s.up && SupervisorOk(s, s.supervisors[t])
    ensures ControlOk(s.controls[s.supervisors[t].profile])
    ensures DoubtIsJournaled(s.world) && WorldIds(s.world, s.used)
  {
  }

  lemma EventKeeps(s: State, t: Task, failed: bool, blocks: bool, stops: bool, status: Option<Status>)
    requires Inv(s)
    ensures Inv(DoEngineEvent(s, t, failed, blocks, stops, status))
  {
    hide Inv;
    if t in s.supervisors && s.supervisors[t].at == Running {
      SupervisorIs(s, t);
      var v := s.supervisors[t];
      var c := s.controls[v.profile];
      var i := s.instances[v.profile];
      var c' := c.(cleanupFailed := c.cleanupFailed || failed,
                   reconnectBlocked := c.reconnectBlocked || failed || blocks,
                   desired := c.desired && !stops);
      var i' := if status.Some? && i.status != Disconnecting && !i.ended then i.(status := status.value) else i;
      var world := if failed then s.world.(tainted := s.world.tainted + {v.attempt}) else s.world;
      SameUpdate(s.supervisors, t);
      SameUpdate(s.instances, v.profile);
      StepKeeps(s, t, c', i', v, world, s.used);
    }
  }

  // ---- process life keeps the invariant

  lemma LifeKeeps(s: State, a: Attempt)
    requires Inv(s)
    ensures Inv(DoCrash(s))
    ensures Inv(DoAcknowledge(s, a))
  {
  }

  lemma RestartKeeps(s: State)
    requires Inv(s)
    ensures Inv(DoRestart(s))
  {
    hide PlaceOk;
    hide DoubtIsJournaled;
    if !s.up && OneRecordPerProfile(s.world.runs) {
      var s' := DoRestart(s);
      assert s'.supervisors == map[] && s'.commands == map[];
    }
  }

  // ---- a supervisor keeps the invariant

  lemma StartKeeps(s: State, t: Task, e: Env)
    requires Inv(s) && t in s.supervisors
    requires s.supervisors[t].at in {Head, Announcing, Waiting, Renaming, Entering}
    ensures Inv(DoAdvance(s, t, e))
  {
    hide Inv;
    SupervisorIs(s, t);
    var v := s.supervisors[t];
    var c, i := s.controls[v.profile], s.instances[v.profile];
    match v.at
    case Head =>
      MoveKeeps(s, t, if !IsCurrent(s, v) then Marking else if v.retry then Announcing else Entering, s.world);
    case Announcing =>
      SameUpdate(s.controls, v.profile);
      StepKeeps(s, t, c, i.(status := Starting), v.(at := Waiting), s.world, s.used);
    case Waiting =>
      MoveKeeps(s, t, if IsCurrent(s, v) then Renaming else Marking, s.world);
    case Renaming =>
      if e.freshId !in s.used {
        SameUpdate(s.controls, v.profile);
        StepKeeps(s, t, c, i.(id := e.freshId, ended := false), v.(attempt := e.freshId, at := Entering),
                  s.world, s.used + {e.freshId});
      }
    case Entering =>
      if e.early {
        MoveKeeps(s, t, Returned, s.world);
      } else {
        var tried := if e.fate == FailsUndone then s.world
                     else s.world.(runs := s.world.runs[v.attempt := Record(v.profile, v.generation)]);
        MoveKeeps(s, t, if e.fate == Goes then Journaled else Returned, tried);
      }
    case _ =>
  }

  lemma ForgetKeeps(s: State, t: Task, fate: Fate, failed: Place)
    requires Inv(s) && t in s.supervisors && !InDoubt(s.world, s.supervisors[t].attempt)
    requires failed == Returned || failed == Doubting
    ensures Inv(AfterForget(s, t, fate, failed))
  {
    hide Inv;
    SupervisorIs(s, t);
    var a := s.supervisors[t].attempt;
    var world := if fate == FailsUndone then s.world else s.world.(runs := s.world.runs - {a});
    MoveKeeps(s, t, if fate == Goes then Returned else failed, world);
  }

  lemma FinishKeeps(s: State, t: Task, fate: Fate, next: Place)
    requires Inv(s) && t in s.supervisors && !InDoubt(s.world, s.supervisors[t].attempt)
    requires HoldsLease(s.world, s.supervisors[t].attempt)
    requires next == UnstartedForget || next == Forgetting
    ensures Inv(AfterFinish(s, t, fate, next))
  {
    hide Inv;
    SupervisorIs(s, t);
    if !s.world.authority {
      MoveKeeps(s, t, next, s.world);
    } else {
      var world := if fate == FailsUndone then s.world else s.world.(lease := None);
      MoveKeeps(s, t, if fate == Goes then next else Doubting, world);
    }
  }

  lemma AcquireKeeps(s: State, t: Task, fate: Fate, unreadable: bool)
    requires Inv(s) && t in s.supervisors && s.supervisors[t].at == Journaled
    ensures Inv(AfterAcquire(s, t, fate, unreadable))
  {
    hide Inv;
    SupervisorIs(s, t);
    var a := s.supervisors[t].attempt;
    if !s.world.authority {
      MoveKeeps(s, t, Leased, s.world);
    } else {
      var world := if s.world.lease.None? && fate != FailsUndone then s.world.(lease := Some(a)) else s.world;
      assert DoubtIsJournaled(world);
      if s.world.lease.None? && fate == Goes {
        MoveKeeps(s, t, Leased, world);
      } else {
        MoveKeeps(s, t, if unreadable || world.lease == Some(a) then Doubting else Abandoning, world);
      }
    }
  }

  lemma LaunchKeeps(s: State, t: Task, e: Env)
    requires Inv(s) && t in s.supervisors
    requires s.supervisors[t].at in {Journaled, Abandoning, Leased, Unstarting, UnstartedForget, Spawned}
    ensures Inv(DoAdvance(s, t, e))
  {
    hide Inv;
    SupervisorIs(s, t);
    var v := s.supervisors[t];
    var w := s.world;
    match v.at
    case Journaled => AcquireKeeps(s, t, e.fate, e.unreadable);
    case Abandoning => ForgetKeeps(s, t, e.fate, Returned);
    case Leased =>
      if e.fate == Goes {
        MoveKeeps(s, t, Spawned, w.(alive := w.alive + {v.attempt}, unclean := w.unclean + {v.attempt}));
      } else {
        MoveKeeps(s, t, Unstarting, w);
      }
    case Unstarting => FinishKeeps(s, t, e.fate, UnstartedForget);
    case UnstartedForget => ForgetKeeps(s, t, e.fate, Doubting);
    case Spawned => MoveKeeps(s, t, if e.early then Returned else if e.fate == Goes then Persisted else Doubting, w);
    case _ =>
  }

  lemma PublishKeeps(s: State, t: Task)
    requires Inv(s) && t in s.supervisors && s.supervisors[t].at == Persisted
    ensures Inv(Publish(s, t))
  {
    hide Inv;
    SupervisorIs(s, t);
    var v := s.supervisors[t];
    var c, i := s.controls[v.profile], s.instances[v.profile];
    StepKeeps(s, t, c.(process := true, cleanupFailed := false),
              i.(status := if IsCurrent(s, v) then Connecting else Disconnecting), v.(at := Running), s.world, s.used);
  }

  lemma ReapKeeps(s: State, t: Task, e: Env)
    requires Inv(s) && t in s.supervisors && s.supervisors[t].at == Exited
    ensures Inv(Reap(s, t, e))
  {
    hide Inv;
    SupervisorIs(s, t);
    var v := s.supervisors[t];
    var c := s.controls[v.profile];
    var dirty := !e.complete || e.forced || e.pending;
    var failed := c.cleanupFailed || dirty;
    var world := if dirty || v.attempt in s.world.tainted then s.world
                 else s.world.(unclean := s.world.unclean - {v.attempt});
    SameUpdate(s.instances, v.profile);
    StepKeeps(s, t, c.(process := false, cleanupFailed := failed,
                       reconnectBlocked := c.reconnectBlocked || failed || !e.retryable),
              s.instances[v.profile], v.(at := Reaped), world, s.used);
  }

  lemma RunKeeps(s: State, t: Task, e: Env)
    requires Inv(s) && t in s.supervisors
    requires s.supervisors[t].at in {Persisted, Running, Exited, Reaped, Finishing, Forgetting, Doubting}
    ensures Inv(DoAdvance(s, t, e))
  {
    hide Inv;
    SupervisorIs(s, t);
    var v := s.supervisors[t];
    var w := s.world;
    match v.at
    case Persisted => PublishKeeps(s, t);
    case Running =>
      if e.waited {
        MoveKeeps(s, t, Exited, w.(alive := w.alive - {v.attempt}));
      } else {
        MoveKeeps(s, t, Returned, w);
      }
    case Exited => ReapKeeps(s, t, e);
    case Reaped =>
      MoveKeeps(s, t, if !s.controls[v.profile].cleanupFailed && e.nativeIdle then Finishing else Returned, w);
    case Finishing => FinishKeeps(s, t, e.fate, Forgetting);
    case Forgetting => ForgetKeeps(s, t, e.fate, Doubting);
    case Doubting =>
      SameUpdate(s.instances, v.profile);
      StepKeeps(s, t, s.controls[v.profile].(cleanupFailed := true, reconnectBlocked := true),
                s.instances[v.profile], v.(at := Returned), w, s.used);
    case _ =>
  }

  lemma FinalKeeps(s: State, t: Task, e: Env)
    requires Inv(s) && t in s.supervisors
    requires s.supervisors[t].at.Deciding? || s.supervisors[t].at in {Returned, Marking, Failing}
    ensures Inv(DoAdvance(s, t, e))
  {
    hide Inv;
    SupervisorIs(s, t);
    var v := s.supervisors[t];
    var c, i := s.controls[v.profile], s.instances[v.profile];
    match v.at
    case Returned => MoveKeeps(s, t, Deciding(!e.again || c.reconnectBlocked), s.world);
    case Deciding(giveUp) =>
      if !IsCurrent(s, v) {
        MoveKeeps(s, t, Marking, s.world);
      } else if giveUp {
        MoveKeeps(s, t, Failing, s.world);
      } else {
        SameUpdate(s.controls, v.profile);
        SameUpdate(s.instances, v.profile);
        StepKeeps(s, t, c, i, v.(retry := true, at := Head), s.world, s.used);
      }
    case Marking =>
      SameUpdate(s.controls, v.profile);
      SameUpdate(s.instances, v.profile);
      var s' := MarkDisconnected(s, v);
      EndKeeps(s, t, s'.controls[v.profile], s'.instances[v.profile]);
      SameUpdate(s'.controls, v.profile);
      SameUpdate(s'.instances, v.profile);
    case Failing =>
      var s' := FinishFailed(s, v);
      EndKeeps(s, t, s'.controls[v.profile], s'.instances[v.profile]);
    case _ =>
  }

  lemma NextKeeps(s: State, action: Action)
    requires Inv(s)
    ensures Inv(Next(s, action))
  {
    hide Inv;
    UpIs(s);
    match action
    case Connect(p, origin, owners, task, id) => ConnectKeeps(s, p, origin, owners, task, id);
    case BeginStop(p, follow) => StopKeeps(s, p, follow);
    case PollStop(p) => PollKeeps(s, p);
    case AbortStop(p) => PollKeeps(s, p);
    case Remove(p, removed) => RemoveKeeps(s, p, removed);
    case Evict(p) => RemoveKeeps(s, p, true);
    case Shutdown => ShutdownKeeps(s);
    case AuthUndelivered(p) => AuthUndeliveredKeeps(s, p);
    case EngineEvent(t, failed, blocks, stops, status) => EventKeeps(s, t, failed, blocks, stops, status);
    case Advance(t, env) =>
      hide DoAdvance;
      if t in s.supervisors {
        var at := s.supervisors[t].at;
        if at in {Head, Announcing, Waiting, Renaming, Entering} {
          StartKeeps(s, t, env);
        } else if at in {Journaled, Abandoning, Leased, Unstarting, UnstartedForget, Spawned} {
          LaunchKeeps(s, t, env);
        } else if at in {Persisted, Running, Exited, Reaped, Finishing, Forgetting, Doubting} {
          RunKeeps(s, t, env);
        } else {
          FinalKeeps(s, t, env);
        }
      }
    case Crash => LifeKeeps(s, "");
    case Restart => RestartKeeps(s);
    case Acknowledge(a) => LifeKeeps(s, a);
  }

  lemma UpIs(s: State)
    requires Inv(s)
    ensures s.commands != map[] ==> s.up
  {
  }
}
