/** The per-profile command mailboxes (crates/manager-core/src/actor.rs): the callers of
  * dispatch, the shared map of mailboxes, and one worker for each mailbox, interleaved in
  * any order.
  */
module Actors {
  import opened Wrappers

  type Profile = string

  /** The identity of one call of dispatch and of its command. */
  type Command = nat

  const CHANNEL := 16

  datatype Worker = Waiting | Running(command: Command) | Expiring | Stopped

  /** A mailbox with its history: the commands admitted to it and those started. */
  datatype Mailbox = Mailbox(
    profile: Profile, queue: seq<Command>, worker: Worker, admitted: seq<Command>, started: seq<Command>)

  datatype Refusal = InvalidInput | CapacityReached | MailboxExpired

  /** Where a call of dispatch has got to; box is its mailbox. */
  datatype Caller =
    | Sending(box: nat)
    | Admitted(box: nat)
    | Finished(box: nat, ok: bool)  // answered by the command, or RecoveryRequired after a panic
    | Dropped(box: nat)             // answered ShuttingDown: the command was dropped with the queue
    | Refused(refusal: Refusal)     // the last two are answered ProfileBusy
    | Abandoned                     // given up by its caller before it was admitted

  datatype State = State(
    capacity: nat, boxes: seq<Mailbox>, current: map<Profile, nat>, callers: map<Command, Caller>)

  datatype Action =
    | Dispatch(command: Command, profile: Profile)
    | Send(command: Command)
    | Abandon(command: Command)
    | Take(box: nat)
    | Finish(box: nat, ok: bool)
    | Expire(box: nat)
    | Stop(box: nat)

  predicate ValidProfile(profile: Profile) {
    0 < |profile| <= 128 && '\0' !in profile && '\n' !in profile && '\r' !in profile
  }

  // ---- steps

  /** The mailboxes that survive the pruning. */
  function Open(boxes: seq<Mailbox>, current: map<Profile, nat>): map<Profile, nat> {
    map p | p in current && current[p] < |boxes| && boxes[current[p]].worker != Stopped :: current[p]
  }

  /** The section of dispatch under the lock. */
  function DoDispatch(s: State, command: Command, profile: Profile): State {
    if command in s.callers then s
    else if !ValidProfile(profile) then s.(callers := s.callers[command := Refused(InvalidInput)])
    else
      var open := Open(s.boxes, s.current);
      if profile in open then s.(current := open, callers := s.callers[command := Sending(open[profile])])
      else if |open| >= s.capacity then
        s.(current := open, callers := s.callers[command := Refused(CapacityReached)])
      else
        s.(boxes := s.boxes + [Mailbox(profile, [], Waiting, [], [])], current := open[profile := |s.boxes|],
           callers := s.callers[command := Sending(|s.boxes|)])
  }

  /** The command joins the queue of mailbox i. */
  function Admit(s: State, command: Command, i: nat): State
    requires i < |s.boxes|
  {
    var m := s.boxes[i];
    s.(boxes := s.boxes[i := m.(queue := m.queue + [command], admitted := m.admitted + [command])],
       callers := s.callers[command := Admitted(i)])
  }

  /** sender.send: it waits while the channel is full and fails once it is closed. */
  function DoSend(s: State, command: Command): State {
    if command !in s.callers || !s.callers[command].Sending? || s.callers[command].box >= |s.boxes| then s
    else
      var i := s.callers[command].box;
      var m := s.boxes[i];
      if m.worker == Stopped then s.(callers := s.callers[command := Refused(MailboxExpired)])
      else if |m.queue| >= CHANNEL then s
      else Admit(s, command, i)
  }

  function DoAbandon(s: State, command: Command): State {
    if command !in s.callers || !s.callers[command].Sending? then s
    else s.(callers := s.callers[command := Abandoned])
  }

  function DoTake(s: State, i: nat): State {
    if i >= |s.boxes| || s.boxes[i].worker != Waiting || s.boxes[i].queue == [] then s
    else
      var m := s.boxes[i];
      s.(boxes := s.boxes[i := m.(queue := m.queue[1..], worker := Running(m.queue[0]),
                                  started := m.started + [m.queue[0]])])
  }

  function DoFinish(s: State, i: nat, ok: bool): State {
    if i >= |s.boxes| || !s.boxes[i].worker.Running? then s
    else
      s.(boxes := s.boxes[i := s.boxes[i].(worker := Waiting)],
         callers := s.callers[s.boxes[i].worker.command := Finished(i, ok)])
  }

  /** The time limit on receiving runs out, which it does only on an empty queue. */
  function DoExpire(s: State, i: nat): State {
    if i >= |s.boxes| || s.boxes[i].worker != Waiting || s.boxes[i].queue != [] then s
    else s.(boxes := s.boxes[i := s.boxes[i].(worker := Expiring)])
  }

  function DropAll(callers: map<Command, Caller>, queue: seq<Command>, i: nat): map<Command, Caller> {
    map c | c in callers :: if c in queue then Dropped(i) else callers[c]
  }

  /** The worker ends: the channel is closed and what was sent meanwhile is dropped. */
  function DoStop(s: State, i: nat): State {
    if i >= |s.boxes| || s.boxes[i].worker != Expiring then s
    else
      s.(boxes := s.boxes[i := s.boxes[i].(worker := Stopped, queue := [])],
         callers := DropAll(s.callers, s.boxes[i].queue, i))
  }

  function Next(s: State, action: Action): State {
    match action
    case Dispatch(command, profile) => DoDispatch(s, command, profile)
    case Send(command) => DoSend(s, command)
    case Abandon(command) => DoAbandon(s, command)
    case Take(i) => DoTake(s, i)
    case Finish(i, ok) => DoFinish(s, i, ok)
    case Expire(i) => DoExpire(s, i)
    case Stop(i) => DoStop(s, i)
  }

  function Fresh(capacity: nat): State {
    State(capacity, [], map[], map[])
  }

  function Run(s: State, actions: seq<Action>): State {
    if actions == [] then s else Next(Run(s, actions[..|actions| - 1]), actions[|actions| - 1])
  }

  // ---- the invariant

  /** Within one mailbox: commands start in the order of their admission. */
  predicate InOrder(m: Mailbox) {
    && |m.queue| <= CHANNEL
    && (m.worker == Stopped ==> m.queue == [] && m.started <= m.admitted)
    && (m.worker != Stopped ==> m.admitted == m.started + m.queue)
    && (m.worker.Running? ==> m.started != [] && m.started[|m.started| - 1] == m.worker.command)
    && NoRepeats(m.admitted)
  }

  predicate NoRepeats(commands: seq<Command>) {
    forall j, k :: 0 <= j < k < |commands| ==> commands[j] != commands[k]
  }

  predicate Of(caller: Caller, i: nat) {
    (caller.Admitted? || caller.Finished? || caller.Dropped?) && caller.box == i
  }

  /** The commands of mailbox i and the answers to their callers. */
  predicate Linked(i: nat, m: Mailbox, callers: map<Command, Caller>) {
    && (forall c :: c in m.admitted ==> c in callers && Of(callers[c], i))
    && (forall c :: c in callers && Of(callers[c], i) ==> c in m.admitted)
    && (forall c :: c in m.started ==> c in callers && Of(callers[c], i) && !callers[c].Dropped?)
    && (forall c :: c in m.queue ==> c in callers && callers[c] == Admitted(i))
    && (m.worker.Running? ==> m.worker.command in callers && callers[m.worker.command] == Admitted(i))
    && (forall c :: c in callers && Of(callers[c], i) && callers[c].Finished? ==> c in m.started)
  }

  /** The map holds every mailbox whose worker has not stopped, under its profile. */
  predicate Mapped(capacity: nat, boxes: seq<Mailbox>, current: map<Profile, nat>) {
    && |current| <= capacity
    && (forall p :: p in current ==> current[p] < |boxes| && boxes[current[p]].profile == p)
    && (forall i :: 0 <= i < |boxes| && boxes[i].worker != Stopped ==>
          boxes[i].profile in current && current[boxes[i].profile] == i)
  }

  /** Every caller's mailbox exists. */
  predicate Placed(n: nat, callers: map<Command, Caller>) {
    forall c :: c in callers && !callers[c].Refused? && !callers[c].Abandoned? ==> callers[c].box < n
  }

  predicate AllOk(boxes: seq<Mailbox>, callers: map<Command, Caller>) {
    forall i :: 0 <= i < |boxes| ==> InOrder(boxes[i]) && Linked(i, boxes[i], callers)
  }

  predicate Inv(s: State) {
    Mapped(s.capacity, s.boxes, s.current) && Placed(|s.boxes|, s.callers) && AllOk(s.boxes, s.callers)
  }

  // ---- what each step keeps

  /** A caller moving between answers that are no business of mailbox i. */
  lemma LinkedApart(i: nat, m: Mailbox, callers: map<Command, Caller>, c: Command, caller: Caller)
    requires Linked(i, m, callers)
    requires c in callers ==> !Of(callers[c], i)
    requires !Of(caller, i)
    ensures Linked(i, m, callers[c := caller])
  {
    assert c !in m.admitted && c !in m.started;
  }

  lemma AllApart(boxes: seq<Mailbox>, callers: map<Command, Caller>, c: Command, caller: Caller)
    requires AllOk(boxes, callers)
    requires c in callers ==> callers[c].Sending?
    requires !caller.Admitted? && !caller.Finished? && !caller.Dropped?
    ensures AllOk(boxes, callers[c := caller])
  {
    forall i | 0 <= i < |boxes| ensures Linked(i, boxes[i], callers[c := caller]) {
      LinkedApart(i, boxes[i], callers, c, caller);
    }
    hide Linked, InOrder;
  }

  /** Mailbox i and its own callers change. */
  lemma AllUpdate(boxes: seq<Mailbox>, callers: map<Command, Caller>, i: nat, m: Mailbox, after: map<Command, Caller>)
    requires AllOk(boxes, callers) && i < |boxes|
    requires InOrder(m) && Linked(i, m, after)
    requires forall j :: 0 <= j < |boxes| && j != i ==> Linked(j, boxes[j], after)
    ensures AllOk(boxes[i := m], after)
  {
    hide Linked, InOrder;
  }

  lemma MappedUpdate(capacity: nat, boxes: seq<Mailbox>, current: map<Profile, nat>, i: nat, m: Mailbox)
    requires Mapped(capacity, boxes, current) && i < |boxes|
    requires m.profile == boxes[i].profile && (m.worker != Stopped ==> boxes[i].worker != Stopped)
    ensures Mapped(capacity, boxes[i := m], current)
  {
  }

  lemma MappedOpen(capacity: nat, boxes: seq<Mailbox>, current: map<Profile, nat>)
    requires Mapped(capacity, boxes, current)
    ensures Mapped(capacity, boxes, Open(boxes, current))
  {
    SubsetIsNotLarger(Open(boxes, current).Keys, current.Keys);
  }

  lemma MappedNew(capacity: nat, boxes: seq<Mailbox>, open: map<Profile, nat>, m: Mailbox)
    requires Mapped(capacity, boxes, open) && m.profile !in open && |open| < capacity
    ensures Mapped(capacity, boxes + [m], open[m.profile := |boxes|])
  {
    var after, more := open[m.profile := |boxes|], boxes + [m];
    assert after.Keys == open.Keys + {m.profile};
    assert forall p :: p in after ==> after[p] < |more| && more[after[p]].profile == p;
    assert forall i :: 0 <= i < |boxes| ==> more[i] == boxes[i];
  }

  lemma NewOk(boxes: seq<Mailbox>, callers: map<Command, Caller>, profile: Profile)
    requires AllOk(boxes, callers) && Placed(|boxes|, callers)
    ensures AllOk(boxes + [Mailbox(profile, [], Waiting, [], [])], callers)
  {
    var m := Mailbox(profile, [], Waiting, [], []);
    assert Linked(|boxes|, m, callers) && InOrder(m);
    hide Linked, InOrder;
  }

  lemma OpenKeeps(s: State, command: Command, caller: Caller)
    requires Inv(s) && command !in s.callers
    requires caller.Refused? || (caller.Sending? && caller.box < |s.boxes|)
    ensures Inv(s.(current := Open(s.boxes, s.current), callers := s.callers[command := caller]))
    ensures Inv(s.(callers := s.callers[command := caller]))
  {
    MappedOpen(s.capacity, s.boxes, s.current);
    AllApart(s.boxes, s.callers, command, caller);
    hide Mapped, AllOk, Open;
  }

  lemma CreateKeeps(s: State, command: Command, profile: Profile)
    requires Inv(s) && command !in s.callers
    requires profile !in Open(s.boxes, s.current) && |Open(s.boxes, s.current)| < s.capacity
    ensures
      var m := Mailbox(profile, [], Waiting, [], []);
      Inv(s.(boxes := s.boxes + [m], current := Open(s.boxes, s.current)[profile := |s.boxes|],
             callers := s.callers[command := Sending(|s.boxes|)]))
  {
    var m := Mailbox(profile, [], Waiting, [], []);
    MappedOpen(s.capacity, s.boxes, s.current);
    MappedNew(s.capacity, s.boxes, Open(s.boxes, s.current), m);
    NewOk(s.boxes, s.callers, profile);
    AllApart(s.boxes + [m], s.callers, command, Sending(|s.boxes|));
    hide Mapped, AllOk, Open;
  }

  lemma DispatchKeeps(s: State, command: Command, profile: Profile)
    requires Inv(s)
    ensures Inv(DoDispatch(s, command, profile))
  {
    if command !in s.callers {
      var open := Open(s.boxes, s.current);
      OpenKeeps(s, command, Refused(InvalidInput));
      OpenKeeps(s, command, Refused(CapacityReached));
      if profile in open {
        OpenKeeps(s, command, Sending(open[profile]));
      } else if |open| < s.capacity {
        CreateKeeps(s, command, profile);
      }
      hide Inv, Open, ValidProfile;
    }
  }

  lemma RefuseKeeps(s: State, command: Command, caller: Caller)
    requires Inv(s) && command in s.callers && s.callers[command].Sending?
    requires caller.Refused? || caller.Abandoned?
    ensures Inv(s.(callers := s.callers[command := caller]))
  {
    AllApart(s.boxes, s.callers, command, caller);
    hide Mapped, AllOk;
  }

  lemma AdmitLinked(i: nat, m: Mailbox, callers: map<Command, Caller>, command: Command)
    requires Linked(i, m, callers) && InOrder(m) && command in callers && callers[command].Sending?
    requires m.worker != Stopped && |m.queue| < CHANNEL
    ensures
      var after := m.(queue := m.queue + [command], admitted := m.admitted + [command]);
      InOrder(after) && Linked(i, after, callers[command := Admitted(i)])
  {
    assert command !in m.admitted;
    assert m.admitted + [command] == m.started + (m.queue + [command]);
  }

  lemma AdmitKeeps(s: State, command: Command)
    requires Inv(s) && command in s.callers && s.callers[command].Sending?
    requires
      var m := s.boxes[s.callers[command].box];
      m.worker != Stopped && |m.queue| < CHANNEL
    ensures Inv(Admit(s, command, s.callers[command].box))
  {
    var i := s.callers[command].box;
    var m := s.boxes[i];
    var after := m.(queue := m.queue + [command], admitted := m.admitted + [command]);
    var callers := s.callers[command := Admitted(i)];
    AdmitLinked(i, m, s.callers, command);
    forall j | 0 <= j < |s.boxes| && j != i ensures Linked(j, s.boxes[j], callers) {
      LinkedApart(j, s.boxes[j], s.callers, command, Admitted(i));
    }
    AllUpdate(s.boxes, s.callers, i, after, callers);
    MappedUpdate(s.capacity, s.boxes, s.current, i, after);
    hide Linked, InOrder, Mapped, AllOk;
  }

  lemma SenderPlaced(s: State, command: Command)
    requires Inv(s) && command in s.callers && s.callers[command].Sending?
    ensures s.callers[command].box < |s.boxes|
  {
    hide Mapped, AllOk;
  }

  lemma SendKeeps(s: State, command: Command)
    requires Inv(s)
    ensures Inv(DoSend(s, command))
  {
    hide Inv, Admit;
    if command in s.callers && s.callers[command].Sending? {
      SenderPlaced(s, command);
      var m := s.boxes[s.callers[command].box];
      if m.worker == Stopped {
        RefuseKeeps(s, command, Refused(MailboxExpired));
      } else if |m.queue| < CHANNEL {
        AdmitKeeps(s, command);
      }
    }
  }

  lemma TakeLinked(i: nat, m: Mailbox, callers: map<Command, Caller>)
    requires Linked(i, m, callers) && InOrder(m) && m.worker == Waiting && m.queue != []
    ensures
      var after := m.(queue := m.queue[1..], worker := Running(m.queue[0]), started := m.started + [m.queue[0]]);
      InOrder(after) && Linked(i, after, callers)
  {
    assert m.queue[0] in m.queue;
    assert m.started + m.queue == m.started + [m.queue[0]] + m.queue[1..];
  }

  lemma TakeKeeps(s: State, i: nat)
    requires Inv(s)
    ensures Inv(DoTake(s, i))
  {
    if i < |s.boxes| && s.boxes[i].worker == Waiting && s.boxes[i].queue != [] {
      var after := DoTake(s, i);
      TakeLinked(i, s.boxes[i], s.callers);
      AllUpdate(s.boxes, s.callers, i, after.boxes[i], s.callers);
      MappedUpdate(s.capacity, s.boxes, s.current, i, after.boxes[i]);
      hide Linked, InOrder, Mapped, AllOk;
    }
  }

  lemma Apart(a: seq<Command>, b: seq<Command>)
    requires NoRepeats(a + b)
    ensures forall c :: c in a ==> c !in b
  {
    forall j, k | 0 <= j < |a| && 0 <= k < |b| ensures a[j] != b[k] {
      assert (a + b)[j] != (a + b)[|a| + k];
    }
  }

  lemma FinishLinked(i: nat, m: Mailbox, callers: map<Command, Caller>, ok: bool)
    requires Linked(i, m, callers) && InOrder(m) && m.worker.Running?
    ensures InOrder(m.(worker := Waiting))
    ensures Linked(i, m.(worker := Waiting), callers[m.worker.command := Finished(i, ok)])
  {
    assert m.started[|m.started| - 1] in m.started;
    Apart(m.started, m.queue);
  }

  lemma FinishKeeps(s: State, i: nat, ok: bool)
    requires Inv(s)
    ensures Inv(DoFinish(s, i, ok))
  {
    if i < |s.boxes| && s.boxes[i].worker.Running? {
      var m := s.boxes[i];
      var after := DoFinish(s, i, ok);
      FinishLinked(i, m, s.callers, ok);
      forall j | 0 <= j < |s.boxes| && j != i ensures Linked(j, s.boxes[j], after.callers) {
        LinkedApart(j, s.boxes[j], s.callers, m.worker.command, Finished(i, ok));
      }
      AllUpdate(s.boxes, s.callers, i, after.boxes[i], after.callers);
      MappedUpdate(s.capacity, s.boxes, s.current, i, after.boxes[i]);
      hide Linked, InOrder, Mapped, AllOk;
    }
  }

  lemma ExpireKeeps(s: State, i: nat)
    requires Inv(s)
    ensures Inv(DoExpire(s, i))
  {
    if i < |s.boxes| && s.boxes[i].worker == Waiting && s.boxes[i].queue == [] {
      var after := DoExpire(s, i);
      AllUpdate(s.boxes, s.callers, i, after.boxes[i], s.callers);
      MappedUpdate(s.capacity, s.boxes, s.current, i, after.boxes[i]);
      hide Linked, InOrder, Mapped, AllOk;
    }
  }

  lemma StopLinked(i: nat, m: Mailbox, callers: map<Command, Caller>)
    requires Linked(i, m, callers) && InOrder(m) && m.worker == Expiring
    ensures InOrder(m.(worker := Stopped, queue := []))
    ensures Linked(i, m.(worker := Stopped, queue := []), DropAll(callers, m.queue, i))
  {
    Apart(m.started, m.queue);
  }

  lemma DropApart(j: nat, m: Mailbox, callers: map<Command, Caller>, queue: seq<Command>, i: nat)
    requires Linked(j, m, callers) && i != j
    requires forall c :: c in queue ==> c in callers && callers[c] == Admitted(i)
    ensures Linked(j, m, DropAll(callers, queue, i))
  {
  }

  lemma StopKeeps(s: State, i: nat)
    requires Inv(s)
    ensures Inv(DoStop(s, i))
  {
    if i < |s.boxes| && s.boxes[i].worker == Expiring {
      var m := s.boxes[i];
      var after := DoStop(s, i);
      StopLinked(i, m, s.callers);
      forall j | 0 <= j < |s.boxes| && j != i ensures Linked(j, s.boxes[j], after.callers) {
        DropApart(j, s.boxes[j], s.callers, m.queue, i);
      }
      AllUpdate(s.boxes, s.callers, i, after.boxes[i], after.callers);
      MappedUpdate(s.capacity, s.boxes, s.current, i, after.boxes[i]);
      hide Linked, InOrder, Mapped, AllOk;
    }
  }

  lemma NextKeeps(s: State, action: Action)
    requires Inv(s)
    ensures Inv(Next(s, action))
  {
    hide Inv, DoDispatch, DoSend, DoTake, DoFinish, DoExpire, DoStop;
    match action
    case Dispatch(command, profile) => DispatchKeeps(s, command, profile);
    case Send(command) => SendKeeps(s, command);
    case Abandon(command) =>
      if command in s.callers && s.callers[command].Sending? {
        RefuseKeeps(s, command, Abandoned);
      }
    case Take(i) => TakeKeeps(s, i);
    case Finish(i, ok) => FinishKeeps(s, i, ok);
    case Expire(i) => ExpireKeeps(s, i);
    case Stop(i) => StopKeeps(s, i);
  }

  lemma {:induction false} RunKeeps(capacity: nat, actions: seq<Action>)
    ensures Inv(Run(Fresh(capacity), actions))
  {
    if actions != [] {
      hide Inv, Next;
      RunKeeps(capacity, actions[..|actions| - 1]);
      NextKeeps(Run(Fresh(capacity), actions[..|actions| - 1]), actions[|actions| - 1]);
    }
  }

  // ---- theorems

  /** The worker of this mailbox has not stopped: only then a command of it executes. */
  predicate Working(s: State, i: nat) {
    i < |s.boxes| && s.boxes[i].worker != Stopped
  }

  /** In every interleaving at most one mailbox of a profile has a worker that has not
    * stopped, so at most one of its commands is executing and a mailbox is only ever
    * replaced after its worker; and the map stays within its capacity.
    */
  lemma OneCommandPerProfile(capacity: nat, actions: seq<Action>, i: nat, j: nat)
    ensures
      var s := Run(Fresh(capacity), actions);
      && |s.current| <= capacity
      && (Working(s, i) && Working(s, j) && s.boxes[i].profile == s.boxes[j].profile ==> i == j)
  {
    RunKeeps(capacity, actions);
    hide Run;
    CapacityStays(capacity, actions);
  }

  lemma SameCapacity(s: State, action: Action)
    ensures Next(s, action).capacity == s.capacity
  {
    hide Open, DropAll, ValidProfile;
  }

  lemma {:induction false} CapacityStays(capacity: nat, actions: seq<Action>)
    ensures Run(Fresh(capacity), actions).capacity == capacity
  {
    if actions != [] {
      CapacityStays(capacity, actions[..|actions| - 1]);
      SameCapacity(Run(Fresh(capacity), actions[..|actions| - 1]), actions[|actions| - 1]);
      hide Next;
    }
  }

  /** In every interleaving each mailbox starts its commands in the order of their
    * admission and none of them twice.
    */
  lemma StartedInOrder(capacity: nat, actions: seq<Action>, i: nat)
    requires i < |Run(Fresh(capacity), actions).boxes|
    ensures
      var m := Run(Fresh(capacity), actions).boxes[i];
      m.started <= m.admitted && NoRepeats(m.admitted) && |m.queue| <= CHANNEL
  {
    RunKeeps(capacity, actions);
    hide Run;
  }

  /** The command was started in mailbox i. */
  predicate StartedIn(s: State, command: Command, i: nat) {
    i < |s.boxes| && command in s.boxes[i].started
  }

  /** In every interleaving, a command whose dispatch the dispatcher itself refused
    * (InvalidInput, ProfileBusy, ShuttingDown) or that was given up before its admission
    * never ran, and one that was answered ran, once and in one mailbox.
    */
  lemma RefusedNeverRan(capacity: nat, actions: seq<Action>, command: Command)
    requires command in Run(Fresh(capacity), actions).callers
    ensures
      var s := Run(Fresh(capacity), actions);
      var caller := s.callers[command];
      && (caller.Refused? || caller.Dropped? || caller.Abandoned? ==> forall i :: !StartedIn(s, command, i))
      && (caller.Finished? ==> forall i :: StartedIn(s, command, i) <==> i == caller.box)
  {
    RunKeeps(capacity, actions);
    var s := Run(Fresh(capacity), actions);
    hide Run, Mapped, InOrder;
    var caller := s.callers[command];
    assert !caller.Refused? && !caller.Abandoned? ==> caller.box < |s.boxes|;
    forall i: nat ensures StartedIn(s, command, i) ==> Of(caller, i) && !caller.Dropped? {
      if i < |s.boxes| {
        assert Linked(i, s.boxes[i], s.callers);
      }
    }
    if caller.Finished? {
      assert Linked(caller.box, s.boxes[caller.box], s.callers);
    }
  }
}
