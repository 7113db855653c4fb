/** The count of blocking workers (headless/src/native_network.rs): Workers::run, the guard
  * that counts a worker down when it ends, and Workers::wait, interleaved in any order. A
  * caller that is aborted takes no step, so nothing here depends on it.
  */
module Workers {
  type Job = nat
  type Waiter = nat

  /** Where a call of wait stands. called: a notification has reached its future. */
  datatype Wait = Entering | Enabled(called: bool) | Parked(called: bool) | Returned

  /** counted: workers whose guard lives. notifying: those whose guard has counted down and
    * has not yet notified.
    */
  datatype State = State(running: nat, counted: set<Job>, notifying: set<Job>, past: set<Job>, waits: map<Waiter, Wait>)

  datatype Action =
    | Run(j: Job)
    | CountDown(j: Job)
    | Notify(j: Job)
    | Begin(w: Waiter)
    | Enable(w: Waiter)
    | Check(w: Waiter)
    | Wake(w: Waiter)

  function Called(wait: Wait): Wait {
    match wait
    case Enabled(_) => Enabled(true)
    case Parked(_) => Parked(true)
    case _ => wait
  }

  function Next(s: State, action: Action): State {
    match action
    case Run(j) =>
      if j in s.counted + s.notifying + s.past then s
      else s.(running := s.running + 1, counted := s.counted + {j})
    case CountDown(j) =>
      if j !in s.counted || s.running == 0 then s
      else s.(running := s.running - 1, counted := s.counted - {j}, notifying := s.notifying + {j})
    case Notify(j) =>
      if j !in s.notifying then s
      else
        s.(notifying := s.notifying - {j}, past := s.past + {j},
           waits := map w | w in s.waits :: Called(s.waits[w]))
    case Begin(w) => if w in s.waits then s else s.(waits := s.waits[w := Entering])
    case Enable(w) =>
      if w in s.waits && s.waits[w] == Entering then s.(waits := s.waits[w := Enabled(false)]) else s
    case Check(w) =>
      if w in s.waits && s.waits[w].Enabled? then
        s.(waits := s.waits[w := if s.running == 0 then Returned else Parked(s.waits[w].called)])
      else s
    case Wake(w) =>
      if w in s.waits && s.waits[w] == Parked(true) then s.(waits := s.waits[w := Entering]) else s
  }

  const NONE := State(0, {}, {}, {}, map[])

  function RunAll(actions: seq<Action>): State {
    if actions == [] then NONE else Next(RunAll(actions[..|actions| - 1]), actions[|actions| - 1])
  }

  predicate Counts(s: State) {
    s.running == |s.counted|
  }

  /** Whoever sleeps unnotified can still be woken. */
  predicate Wakeable(s: State) {
    forall w :: w in s.waits && s.waits[w] == Parked(false) ==> s.running > 0 || s.notifying != {}
  }

  predicate Inv(s: State) {
    Counts(s) && Wakeable(s)
  }

  lemma CountsKept(s: State, action: Action)
    requires Counts(s)
    ensures Counts(Next(s, action))
  {
    hide Called;
  }

  lemma JobsWake(s: State, action: Action)
    requires Wakeable(s) && (action.Run? || action.CountDown? || action.Notify?)
    ensures Wakeable(Next(s, action))
  {
    match action
    case Run(j) =>
    case CountDown(j) => assert j in s.notifying + {j};
    case Notify(j) =>
  }

  lemma WaitsWake(s: State, action: Action)
    requires Wakeable(s) && !action.Run? && !action.CountDown? && !action.Notify?
    ensures Wakeable(Next(s, action))
  {
    hide Called;
  }

  lemma NextKeeps(s: State, action: Action)
    requires Inv(s)
    ensures Inv(Next(s, action))
  {
    CountsKept(s, action);
    if action.Run? || action.CountDown? || action.Notify? {
      JobsWake(s, action);
    } else {
      WaitsWake(s, action);
    }
    hide Next, Counts, Wakeable;
  }

  lemma {:induction false} InvEver(actions: seq<Action>)
    ensures Inv(RunAll(actions))
  {
    if actions != [] {
      InvEver(actions[..|actions| - 1]);
      NextKeeps(RunAll(actions[..|actions| - 1]), actions[|actions| - 1]);
    }
  }

  /** In every interleaving a wait returns only in a state in which no worker is in flight. */
  lemma ReturnsOnlyIdle(actions: seq<Action>, action: Action, w: Waiter)
    requires w in Next(RunAll(actions), action).waits && Next(RunAll(actions), action).waits[w] == Returned
    requires w in RunAll(actions).waits ==> RunAll(actions).waits[w] != Returned
    ensures RunAll(actions).counted == {}
  {
    InvEver(actions);
    hide RunAll;
  }

  /** In every interleaving no wake-up is lost: a wait that sleeps without having been
    * notified sleeps while a worker is in flight or while one that has just ended has its
    * notification still to send.
    */
  lemma NoLostWakeUp(actions: seq<Action>, w: Waiter)
    requires w in RunAll(actions).waits && RunAll(actions).waits[w] == Parked(false)
    ensures RunAll(actions).counted != {} || RunAll(actions).notifying != {}
  {
    InvEver(actions);
    hide RunAll;
  }
}
