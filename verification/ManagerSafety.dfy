/** What holds in every run of the connection manager. */
module ManagerSafety {
  import opened Wrappers
  import opened Admission
  import opened Manager

  lemma {:induction false} RunKeeps(s: State, actions: seq<Action>)
    requires Inv(s)
    ensures Inv(Run(s, actions))
    decreases |actions|
  {
    hide Inv;
    hide Next;
    if actions != [] {
      NextKeeps(s, actions[0]);
      RunKeeps(Next(s, actions[0]), actions[1..]);
    }
  }

  // ---- ownership

  predicate LiveOwner(s: State, p: Profile) {
    p in s.controls && IsOwner(s.controls[p]) && !s.controls[p].restored
  }

  /** In every reachable state at most one profile that is not left over from an
    * earlier process owns the network, at most one supervisor is alive and it belongs
    * to that owner, and a failed cleanup keeps its control active.
    */
  lemma OneOwnerEver(authority: bool, actions: seq<Action>)
    ensures var s := Run(Fresh(authority), actions);
            && (forall p, q :: LiveOwner(s, p) && LiveOwner(s, q) ==> p == q)
            && (forall t, u :: t in s.supervisors && u in s.supervisors ==> t == u)
            && (forall t :: t in s.supervisors ==> LiveOwner(s, s.supervisors[t].profile))
            && (forall p :: p in s.controls && s.controls[p].cleanupFailed ==> s.controls[p].active)
  {
    hide Next;
    hide Run;
    var s := Run(Fresh(authority), actions);
    FreshInv(authority);
    RunKeeps(Fresh(authority), actions);
    forall t | t in s.supervisors ensures LiveOwner(s, s.supervisors[t].profile) {
      SupervisorIs(s, t);
    }
    forall p | p in s.controls ensures ControlOk(s.controls[p]) {
      OwnerIsActive(s, p);
    }
    forall p, q | LiveOwner(s, p) && LiveOwner(s, q) ensures p == q {
      OwnerIsActive(s, p);
      OwnerIsActive(s, q);
    }
  }

  /** p still has its control, and if that required recovery it still does. */
  predicate Persists(s: State, s': State, p: Profile)
    requires p in s.controls
  {
    && p in s'.controls
    && (s.controls[p].cleanupFailed ==>
          s'.controls[p].cleanupFailed && s'.controls[p].restored == s.controls[p].restored)
  }

  lemma CommandPersists(s: State, action: Action, p: Profile)
    requires Inv(s) && p in s.controls && IsOwner(s.controls[p])
    requires !action.Crash? && !action.Advance? && !action.Connect? && !action.Restart?
    ensures Persists(s, Next(s, action), p)
  {
    hide PlaceOk;
    hide Inv;
    CommandsAre(s);
  }

  lemma ConnectPersists(s: State, q: Profile, origin: StartOrigin, owners: seq<ConnectionOwner>,
                        task: Task, id: Attempt, p: Profile)
    requires Inv(s) && p in s.controls && IsOwner(s.controls[p])
    ensures Persists(s, DoConnect(s, q, origin, owners, task, id), p)
    ensures DoConnect(s, q, origin, owners, task, id).supervisors == s.supervisors
  {
    hide Inv;
    hide Admit;
    if Enumerates(owners, s) && Admit(Facts(s, q, owners), origin) == Success(Reserve) {
      NoOwnersMeansIdle(s, q, owners, origin);
      assert false;
    }
  }

  lemma QuietStart(s: State, t: Task, e: Env)
    requires t in s.supervisors
    requires s.supervisors[t].at in {Head, Announcing, Waiting, Renaming, Entering, Journaled, Abandoning}
    ensures DoAdvance(s, t, e).controls == s.controls
  {
    hide IsCurrent;
    hide InstanceMatches;
    match s.supervisors[t].at
    case Head =>
    case Announcing =>
    case Waiting =>
    case Renaming =>
    case Entering =>
    case Journaled =>
    case Abandoning =>
  }

  lemma QuietLaunch(s: State, t: Task, e: Env)
    requires t in s.supervisors
    requires s.supervisors[t].at in {Leased, Unstarting, UnstartedForget, Spawned, Running}
    ensures DoAdvance(s, t, e).controls == s.controls
  {
    match s.supervisors[t].at
    case Leased =>
    case Unstarting =>
    case UnstartedForget =>
    case Spawned =>
    case Running =>
  }

  lemma QuietEnd(s: State, t: Task, e: Env)
    requires t in s.supervisors
    requires s.supervisors[t].at in {Reaped, Finishing, Forgetting, Returned} || s.supervisors[t].at.Deciding?
    ensures DoAdvance(s, t, e).controls == s.controls
  {
    hide IsCurrent;
    hide ControlMatches;
    match s.supervisors[t].at
    case Reaped =>
    case Finishing =>
    case Forgetting =>
    case Returned =>
    case Deciding(_) =>
  }

  lemma AdvancePersists(s: State, t: Task, e: Env, p: Profile)
    requires Inv(s) && t in s.supervisors && p in s.controls && IsOwner(s.controls[p])
    ensures Persists(s, DoAdvance(s, t, e), p)
  {
    hide Inv;
    if s.supervisors[t].at !in {Persisted, Exited, Doubting, Marking, Failing} {
      hide DoAdvance;
      if s.supervisors[t].at in {Head, Announcing, Waiting, Renaming, Entering, Journaled, Abandoning} {
        QuietStart(s, t, e);
      } else if s.supervisors[t].at in {Leased, Unstarting, UnstartedForget, Spawned, Running} {
        QuietLaunch(s, t, e);
      } else {
        QuietEnd(s, t, e);
      }
    } else {
      SupervisorIs(s, t);
      match s.supervisors[t].at
      case Persisted =>
      case Exited =>
      case Doubting =>
      case Marking =>
      case Failing =>
    }
  }

  /** Neither deletion nor eviction nor anything else but the end of the process drops
    * an owner, and a failed cleanup is never forgotten.
    */
  lemma NeverDropped(s: State, action: Action, p: Profile)
    requires Inv(s) && p in s.controls && IsOwner(s.controls[p]) && !action.Crash?
    ensures Persists(s, Next(s, action), p)
  {
    hide Inv;
    hide DoAdvance;
    hide DoConnect;
    match action
    case Connect(q, origin, owners, task, id) => ConnectPersists(s, q, origin, owners, task, id, p);
    case Advance(t, env) =>
      if t in s.supervisors {
        AdvancePersists(s, t, env, p);
      }
    case Restart =>
      OwnersAreUp(s, p);
    case _ => CommandPersists(s, action, p);
  }

  lemma OwnersAreUp(s: State, p: Profile)
    requires Inv(s) && p in s.controls
    ensures s.up
  {
    hide SupervisorsOk;
  }

  // ---- recovery blocks every connect

  predicate RecoveryStands(s: State) {
    exists p :: p in s.controls && s.controls[p].restored
  }

  /** While one control restored from the journal stands, admission refuses every start
    * of every profile from every origin, whatever the order of the owners.
    */
  lemma RecoveryRefusesAll(s: State, p: Profile, owners: seq<ConnectionOwner>, origin: StartOrigin)
    requires Inv(s) && RecoveryStands(s) && Enumerates(owners, s)
    ensures Admit(Facts(s, p, owners), origin).Failure?
  {
    hide Inv;
    var q :| q in s.controls && s.controls[q].restored;
    OwnerIsActive(s, q);
    var o :| o in owners && o.profile == q;
    assert o.state == RecoveryRequired;
  }

  /** While a restored control stands there is no supervisor. */
  lemma RecoveryMeansNoSupervisor(s: State)
    requires Inv(s) && RecoveryStands(s)
    ensures s.supervisors == map[]
  {
    hide PlaceOk;
    var q :| q in s.controls && s.controls[q].restored;
    if s.supervisors != map[] {
      var t :| t in s.supervisors;
      SupervisorIs(s, t);
      assert false;
    }
  }

  lemma StandingStep(s: State, action: Action)
    requires Inv(s) && RecoveryStands(s) && !action.Crash?
    ensures RecoveryStands(Next(s, action)) && Next(s, action).world == s.world
  {
    hide Inv;
    hide DoAdvance;
    RecoveryMeansNoSupervisor(s);
    var q :| q in s.controls && s.controls[q].restored;
    OwnerIsActive(s, q);
    OwnersAreUp(s, q);
    NeverDropped(s, action, q);
    assert Next(s, action).controls[q].restored;
    match action
    case Connect(p, origin, owners, task, id) =>
      if Enumerates(owners, s) {
        RecoveryRefusesAll(s, p, owners, origin);
      }
    case _ =>
  }

  /** From then on, until the process ends, no engine is started and the journal keeps
    * every record.
    */
  lemma {:induction false} StandingRun(s: State, actions: seq<Action>)
    requires Inv(s) && RecoveryStands(s) && forall a :: a in actions ==> !a.Crash?
    ensures RecoveryStands(Run(s, actions)) && Inv(Run(s, actions))
    ensures Run(s, actions).world == s.world && Run(s, actions).supervisors == map[]
    decreases |actions|
  {
    hide Inv;
    hide Next;
    hide RecoveryStands;
    if actions == [] {
      RecoveryMeansNoSupervisor(s);
    } else {
      assert actions[0] in actions;
      StandingStep(s, actions[0]);
      NextKeeps(s, actions[0]);
      StandingRun(Next(s, actions[0]), actions[1..]);
    }
  }

  // ---- the journal

  /** In every reachable state, whatever child may be alive and whatever attempt is not
    * known to be clean has its run record on disk; with the machine-wide lease there
    * is at most one such attempt and it holds the lease.
    */
  lemma DoubtJournaledEver(authority: bool, actions: seq<Action>)
    ensures var w := Run(Fresh(authority), actions).world;
            && (forall a :: InDoubt(w, a) ==> a in w.runs)
            && (w.authority ==> forall a :: InDoubt(w, a) ==> w.lease == Some(a))
  {
    hide Next;
    hide Run;
    FreshInv(authority);
    RunKeeps(Fresh(authority), actions);
    DoubtOf(Run(Fresh(authority), actions));
  }

  lemma DoubtOf(s: State)
    requires Inv(s)
    ensures forall a :: InDoubt(s.world, a) ==> a in s.world.runs && HoldsLease(s.world, a)
  {
    hide SupervisorsOk;
    forall a | InDoubt(s.world, a) ensures a in s.world.runs && HoldsLease(s.world, a) {
      assert a in s.world.alive + s.world.unclean;
    }
  }

  lemma RestartRestores(s: State, a: Attempt)
    requires !s.up && a in s.world.runs && DoRestart(s).up
    ensures var p := s.world.runs[a].profile;
            p in DoRestart(s).controls && DoRestart(s).controls[p].restored
  {
  }

  /** A crash at any point of any run, then a restart: if a child may be alive or an
    * attempt is not known to be clean, either the manager refuses to come up, or no
    * connect of any profile is admitted and the record stays, whatever follows.
    */
  lemma CrashBlocksConnects(authority: bool, before: seq<Action>, after: seq<Action>, a: Attempt,
                            p: Profile, owners: seq<ConnectionOwner>, origin: StartOrigin)
    requires InDoubt(Run(Fresh(authority), before).world, a)
    requires forall x :: x in after ==> !x.Crash?
    ensures var restarted := Next(Next(Run(Fresh(authority), before), Crash), Restart);
            var s := Run(restarted, after);
            restarted.up ==>
              && a in s.world.runs && s.supervisors == map[]
              && (Enumerates(owners, s) ==> Admit(Facts(s, p, owners), origin).Failure?)
  {
    hide Run;
    hide Inv;
    hide Admit;
    hide Enumerates;
    var s0 := Run(Fresh(authority), before);
    FreshInv(authority);
    RunKeeps(Fresh(authority), before);
    DoubtOf(s0);
    NextKeeps(s0, Crash);
    var s1 := Next(s0, Crash);
    NextKeeps(s1, Restart);
    var s2 := Next(s1, Restart);
    if s2.up {
      RestartRestores(s1, a);
      assert RecoveryStands(s2);
      StandingRun(s2, after);
      var s := Run(s2, after);
      if Enumerates(owners, s) {
        RecoveryRefusesAll(s, p, owners, origin);
      }
    }
  }
}
