/** The native network handshake of one engine attempt (headless/src/manager.rs,
  * headless/src/native_network.rs, crates/manager-core/src/network_control.rs): the
  * reader of engine events, the blocking worker, the privileged driver and the end of
  * run_once. The engine may send any events in any order.
  */
module NativeHandshake {
  import opened Wrappers

  /** A request identity: 32 hexadecimal digits, only ever compared. */
  type Request = nat

  datatype Status = Connecting | Connected | Disconnecting

  // ---- admission of a resource plan

  datatype Plan = Plan(request: Option<Request>, expected: nat, received: nat, committed: bool)

  const NoPlan := Plan(None, 0, 0, false)

  datatype Name = NetworkPlan | Begin | Resource | Commit | Release | Acknowledge | TunnelUp | CleanupResult | Other

  datatype Verdict = Accepted | Ignored | Rejected

  /** An engine event as far as the handshake looks at it. verdict: the lifecycle's view
    * of its identity and order. bound: it carries this attempt's identity. valid: its
    * remaining contents pass their checks.
    */
  datatype Event = Event(
    name: Name, verdict: Verdict, bound: bool, request: Option<Request>, valid: bool, success: bool,
    exclusive: bool, number: nat)

  /** Admission::observe: the new plan and whether it is complete now. */
  function Observe(p: Plan, e: Event): Option<(Plan, bool)> {
    if !e.bound || p.committed || e.request.None? || !e.valid then None
    else
      match e.name
      case Begin => if p.request.Some? || e.number > 128 then None
                    else Some((p.(request := e.request, expected := e.number), false))
      case Resource => if p.request != e.request || e.number != p.received || p.received >= p.expected then None
                       else Some((p.(received := p.received + 1), false))
      case Commit => if p.request != e.request || p.received != p.expected then None
                     else Some((p.(committed := true), true))
      case _ => None
  }

  // ---- state

  datatype Op = Apply(request: Request) | Undo

  datatype Reader =
    | Idle
    | Fetching(e: Event)      // a commit, before the driver's epoch is known
    | Guarding(e: Event)      // about to enter the lock for a native event
    | Working(op: Op)         // waiting for the worker
    | Storing(op: Op)         // the worker succeeded
    | Replying                // about to write the answer
    | Publishing              // tunnel_up passed its check
    | Doubting                // about to require recovery
    | Aborted

  datatype Stage =
    | Live
    | Draining                // the child has been waited for
    | Joining(complete: bool) // the reader is over
    | Joined(complete: bool)  // so are all workers
    | Reaped
    | Finishing               // cleanup confirmed
    | Forgetting              // the lease is finished
    | Over

  /** What the manager recorded of the handshake (the native_ fields of ProfileControl),
    * the worker, the driver, and the history.
    */
  datatype Shake = Shake(
    selected: bool, applied: bool, acknowledged: bool, released: bool,
    request: Option<Request>, plan: Option<Plan>,
    worker: Option<Op>,
    held: bool,             // whether the driver may hold anything for the attempt
    applies: set<Request>,  // requests whose plan the driver applied
    acks: set<Request>)     // requests the engine acknowledged

  datatype State = State(
    desired: bool, cleanupFailed: bool, channel: bool, status: Status,
    shake: Shake, reader: Reader, stage: Stage,
    lease: bool, record: bool)  // the lease and the run record on disk

  datatype Fate = Goes | FailsUndone | FailsDone

  datatype Action =
    | Receive(e: Event, alone: bool)
    | Read(ok: bool)
    | WorkerDone(ok: bool, left: bool)
    | Stop
    | Withdraw
    | ChildExit
    | Drain(intact: bool)
    | Join
    | Reap(forced: bool, pending: bool)
    | Confirm
    | FinishLease(fate: Fate)
    | Forget(fate: Fate)

  const NoShake := Shake(false, false, false, false, None, None, None, false, {}, {})

  /** Just after the child has been published, with the flags reset. */
  function Published(desired: bool): State {
    State(desired, false, true, if desired then Connecting else Disconnecting, NoShake, Idle, Live, true, true)
  }

  predicate Started(h: Shake) {
    h.plan.Some? && h.plan.value.request.Some?
  }

  // ---- the reader

  function Distrust(s: State): State {
    s.(cleanupFailed := true, desired := false)
  }

  function Doubt(s: State): State {
    s.(reader := Doubting)
  }

  function AskLease(s: State, e: Event, alone: bool): State {
    if !e.bound || !s.channel || e.request.None? then Doubt(s)
    else if s.desired && e.exclusive && alone then
      if !e.valid || s.shake.selected then Doubt(s)
      else s.(shake := s.shake.(selected := true, plan := Some(NoPlan)), reader := Replying)
    else s.(reader := Replying)
  }

  /** apply_engine_event for an event its lifecycle accepted. alone: no other profile owns
    * the network.
    */
  function Handle(s: State, e: Event, alone: bool): State {
    match e.name
    case NetworkPlan => AskLease(s, e, alone)
    case Commit => if e.request.None? then Doubt(s) else s.(reader := Fetching(e))
    case Release => if e.request.None? then Doubt(s) else s.(reader := Guarding(e))
    case Begin => s.(reader := Guarding(e))
    case Resource => s.(reader := Guarding(e))
    case Acknowledge => s.(reader := Guarding(e))
    case TunnelUp => if NativeReady(s.shake) then s.(reader := Publishing) else Doubt(s)
    case CleanupResult =>
      var seen := s.(cleanupFailed := s.cleanupFailed || !e.success);
      if s.shake.selected && !s.shake.released && Started(s.shake) then Doubt(seen) else seen
    case Other => s
  }

  predicate NativeReady(h: Shake) {
    h.selected && h.applied && h.acknowledged && !h.released
  }

  function DoReceive(s: State, e: Event, alone: bool): State {
    if s.reader != Idle || !Reading(s.stage) || e.verdict == Ignored then s
    else if e.verdict == Rejected then Distrust(s)
    else Handle(s, e, alone)
  }

  /** The reader still takes part. */
  predicate Reading(stage: Stage) {
    stage == Live || stage == Draining
  }

  /** The lock section of handle_native_event: what becomes of the handshake and the
    * reader, given that the pipe is open and the profile is or is not desired.
    */
  function Guard(h: Shake, e: Event, channel: bool, desired: bool): (Shake, Reader) {
    if !h.selected || h.released || !e.bound || !channel then (h, Doubting)
    else
      match e.name
      case Acknowledge =>
        if !h.applied || h.acknowledged || !e.success || e.request != h.request then (h, Doubting)
        else
          (h.(acknowledged := true,
              acks := if e.request.Some? then h.acks + {e.request.value} else h.acks), Idle)
      case Release =>
        if !Started(h) then (h, Doubting) else (h.(worker := Some(Undo)), Working(Undo))
      case _ =>
        if !desired || h.plan.None? then (h, Doubting)
        else
          match Observe(h.plan.value, e)
          case None => (h, Doubting)
          case Some((plan, complete)) =>
            if complete && e.request.Some? then
              var op := Apply(e.request.value);
              (h.(plan := Some(plan), request := e.request, worker := Some(op)), Working(op))
            else (h.(plan := Some(plan)), Idle)
  }

  /** The lock section after the worker succeeded. */
  function Store(h: Shake, op: Op): Shake {
    if op.Undo? then h.(released := true, applied := false, acknowledged := false) else h.(applied := true)
  }

  function DoRead(s: State, ok: bool): State {
    match s.reader
    case Fetching(e) => s.(reader := if ok then Guarding(e) else Doubting)
    case Guarding(e) =>
      var (shake, reader) := Guard(s.shake, e, s.channel, s.desired);
      s.(shake := shake, reader := reader)
    case Storing(op) => s.(shake := Store(s.shake, op), reader := Replying)
    case Replying => s.(reader := if ok then Idle else Doubting)
    case Publishing => s.(reader := Idle, status := if s.status != Disconnecting then Connected else s.status)
    case Doubting => Distrust(s).(reader := Idle)
    case _ => s
  }

  /** The driver's call returns. A failed call may leave something behind. */
  function Return(h: Shake, ok: bool, left: bool): Shake {
    match h.worker
    case None => h
    case Some(op) =>
      var held := match op
                  case Apply(_) => ok || h.held || left
                  case Undo => !ok && h.held;
      var applies := if ok && op.Apply? then h.applies + {op.request} else h.applies;
      h.(worker := None, held := held, applies := applies)
  }

  /** The result reaches the reader only if it is still waiting. */
  function DoWorker(s: State, ok: bool, left: bool): State {
    var reader := if s.reader.Working? && s.shake.worker == Some(s.reader.op) then
                    if ok then Storing(s.reader.op) else Doubting
                  else s.reader;
    s.(shake := Return(s.shake, ok, left), reader := reader)
  }

  // ---- the end of run_once

  /** The reader reached the end of the stream, or is aborted after the grace period. */
  function DoDrain(s: State, intact: bool): State {
    if s.stage != Draining then s
    else if s.reader == Idle then s.(stage := Joining(intact))
    else s.(stage := Joining(false), reader := Aborted)
  }

  /** Workers::wait returns once no worker is in flight. */
  function DoJoin(s: State): State {
    if s.stage.Joining? && s.shake.worker.None? then s.(stage := Joined(s.stage.complete)) else s
  }

  function DoReap(s: State, forced: bool, pending: bool): State {
    if s.stage.Joined? then
      s.(stage := Reaped, channel := false,
         cleanupFailed := s.cleanupFailed || !s.stage.complete || forced || pending)
    else s
  }

  function DoConfirm(s: State): State {
    if s.stage != Reaped then s
    else if !s.cleanupFailed && (!s.shake.selected || s.shake.released || !Started(s.shake)) then
      s.(stage := Finishing)
    else s.(stage := Over)
  }

  function DoFinishLease(s: State, fate: Fate): State {
    if s.stage != Finishing then s
    else if fate == Goes then s.(lease := false, stage := Forgetting)
    else s.(lease := s.lease && fate == FailsUndone, stage := Over, cleanupFailed := true)
  }

  function DoForget(s: State, fate: Fate): State {
    if s.stage != Forgetting then s
    else s.(record := s.record && fate == FailsUndone, stage := Over, cleanupFailed := s.cleanupFailed || fate != Goes)
  }

  function Next(s: State, action: Action): State {
    match action
    case Receive(e, alone) => DoReceive(s, e, alone)
    case Read(ok) => DoRead(s, ok)
    case WorkerDone(ok, left) => DoWorker(s, ok, left)
    case Stop => s.(desired := false, status := Disconnecting)
    case Withdraw => s.(desired := false)
    case ChildExit => if s.stage == Live then s.(stage := Draining) else s
    case Drain(intact) => DoDrain(s, intact)
    case Join => DoJoin(s)
    case Reap(forced, pending) => DoReap(s, forced, pending)
    case Confirm => DoConfirm(s)
    case FinishLease(fate) => DoFinishLease(s, fate)
    case Forget(fate) => DoForget(s, fate)
  }

  function Run(s: State, actions: seq<Action>): State {
    if actions == [] then s
    else Next(Run(s, actions[..|actions| - 1]), actions[|actions| - 1])
  }

  // ---- the invariant

  /** The driver applied this attempt's plan, the engine acknowledged the same request,
    * and nothing has been released.
    */
  predicate ReadyFor(h: Shake) {
    && h.request.Some? && h.request.value in h.applies && h.request.value in h.acks
    && h.selected && !h.released && h.worker.None?
  }

  predicate ShakeOk(h: Shake) {
    && (h.plan.Some? ==> h.selected)
    && (h.request.Some? ==> h.plan.Some? && h.plan.value.committed)
    && (h.plan.Some? && h.plan.value.committed ==> h.plan.value.request.Some?)
    && (h.applied ==> h.request.Some? && h.request.value in h.applies)
    && (h.acknowledged ==> h.applied && h.request.Some? && h.request.value in h.acks)
    && (h.held || h.worker.Some? ==> Started(h))
    && (h.released ==> !h.held && h.worker.None? && !h.applied)
  }

  /** What the reader's place promises about the handshake. */
  predicate ReaderOk(reader: Reader, h: Shake) {
    match reader
    case Working(op) =>
      h.worker == Some(op) && (op.Apply? ==> h.request == Some(op.request) && !h.applied && !h.released)
    case Storing(op) =>
      && h.worker.None?
      && (op.Apply? ==> h.request == Some(op.request) && op.request in h.applies && !h.applied && !h.released)
      && (op.Undo? ==> !h.held)
    case Publishing => ReadyFor(h)
    case Aborted => true
    case _ => h.worker.None?
  }

  /** Nothing is held, nothing is under way, and what was begun has been released. */
  predicate Settled(h: Shake) {
    !h.held && h.worker.None? && (Started(h) ==> h.released)
  }

  predicate EndOk(stage: Stage, reader: Reader, h: Shake, lease: bool, record: bool) {
    && (reader == Aborted ==> !Reading(stage))
    && (!Reading(stage) ==> reader == Idle || reader == Aborted)
    && (!Reading(stage) && !stage.Joining? ==> h.worker.None?)
    && (stage == Finishing || stage == Forgetting || !lease || !record ==> Settled(h))
    && (!lease || !record ==> stage == Forgetting || stage == Over)
  }

  predicate Inv(s: State) {
    && ShakeOk(s.shake)
    && ReaderOk(s.reader, s.shake)
    && EndOk(s.stage, s.reader, s.shake, s.lease, s.record)
  }

  lemma AskKeeps(s: State, e: Event, alone: bool)
    requires Inv(s) && s.reader == Idle && Reading(s.stage)
    ensures Inv(AskLease(s, e, alone))
  {
  }

  lemma HandleKeeps(s: State, e: Event, alone: bool)
    requires Inv(s) && s.reader == Idle && Reading(s.stage)
    ensures Inv(Handle(s, e, alone))
  {
    if e.name == NetworkPlan {
      AskKeeps(s, e, alone);
    } else {
      assert NativeReady(s.shake) ==> ReadyFor(s.shake);
      hide ShakeOk, AskLease, NativeReady, ReadyFor, Started;
    }
  }

  lemma GuardKeeps(h: Shake, e: Event, channel: bool, desired: bool)
    requires ShakeOk(h) && h.worker.None?
    ensures
      var (after, reader) := Guard(h, e, channel, desired);
      && ShakeOk(after) && ReaderOk(reader, after)
      && reader != Aborted && (h.held == after.held) && !reader.Publishing?
  {
  }

  lemma StoreKeeps(h: Shake, op: Op)
    requires ShakeOk(h) && ReaderOk(Storing(op), h)
    ensures ShakeOk(Store(h, op)) && ReaderOk(Replying, Store(h, op)) && h.held == Store(h, op).held
  {
  }

  lemma ReadKeeps(s: State, ok: bool)
    requires Inv(s)
    ensures Inv(DoRead(s, ok))
  {
    match s.reader
    case Guarding(e) =>
      GuardKeeps(s.shake, e, s.channel, s.desired);
      hide Guard, ShakeOk;
    case Storing(op) =>
      StoreKeeps(s.shake, op);
      hide Store, ShakeOk;
    case _ =>
  }

  lemma WorkerKeeps(s: State, ok: bool, left: bool)
    requires Inv(s)
    ensures Inv(DoWorker(s, ok, left))
  {
  }

  lemma EndKeeps(s: State, action: Action)
    requires Inv(s) && !action.Receive? && !action.Read? && !action.WorkerDone?
    ensures Inv(Next(s, action))
  {
    if action == Confirm {
      assert ShakeOk(s.shake);
    } else {
      hide ShakeOk;
    }
  }

  lemma NextKeeps(s: State, action: Action)
    requires Inv(s)
    ensures Inv(Next(s, action))
  {
    match action
    case Receive(e, alone) =>
      if s.reader == Idle && Reading(s.stage) {
        HandleKeeps(s, e, alone);
        hide Handle;
      }
    case Read(ok) => ReadKeeps(s, ok);
    case WorkerDone(ok, left) => WorkerKeeps(s, ok, left);
    case _ => EndKeeps(s, action);
  }

  lemma {:induction false} RunKeeps(desired: bool, actions: seq<Action>)
    ensures Inv(Run(Published(desired), actions))
  {
    if actions != [] {
      RunKeeps(desired, actions[..|actions| - 1]);
      NextKeeps(Run(Published(desired), actions[..|actions| - 1]), actions[|actions| - 1]);
    }
  }

  // ---- entering Connected

  /** The event was received by the reader. */
  ghost predicate Came(actions: seq<Action>, e: Event) {
    exists i :: 0 <= i < |actions| && actions[i].Receive? && actions[i].e == e
  }

  /** A call of the driver with this request's plan returned success. */
  ghost predicate AppliedIn(desired: bool, actions: seq<Action>, request: Request) {
    exists i :: 0 <= i < |actions| && CallSucceeds(Run(Published(desired), actions[..i]), actions[i], Apply(request))
  }

  predicate CallSucceeds(s: State, action: Action, op: Op) {
    action.WorkerDone? && action.ok && s.shake.worker == Some(op)
  }

  /** The engine sent a successful network_applied for the request. */
  ghost predicate AcknowledgedIn(actions: seq<Action>, request: Request) {
    exists e :: Came(actions, e) && IsAcknowledgement(e, request)
  }

  predicate IsAcknowledgement(e: Event, request: Request) {
    e.name == Acknowledge && e.success && e.bound && e.request == Some(request)
  }

  lemma CameLater(actions: seq<Action>, e: Event)
    requires |actions| > 0 && Came(actions[..|actions| - 1], e)
    ensures Came(actions, e)
  {
    var i :| 0 <= i < |actions| - 1 && actions[..|actions| - 1][i].Receive? && actions[..|actions| - 1][i].e == e;
    assert actions[i].e == e;
  }

  predicate Considers(reader: Reader, e: Event) {
    (reader.Fetching? || reader.Guarding?) && reader.e == e
  }

  lemma AskStep(s: State, received: Event, alone: bool, e: Event)
    ensures
      var now := AskLease(s, received, alone);
      && now.shake.acks == s.shake.acks && now.shake.applies == s.shake.applies
      && !Considers(now.reader, e)
  {
  }

  lemma HandleStep(s: State, received: Event, alone: bool, e: Event)
    ensures
      var now := Handle(s, received, alone);
      && now.shake.acks == s.shake.acks && now.shake.applies == s.shake.applies
      && (Considers(now.reader, e) ==> Considers(s.reader, e) || received == e)
  {
    if received.name == NetworkPlan {
      AskStep(s, received, alone, e);
      hide AskLease, Considers;
    } else if received.name == TunnelUp || received.name == CleanupResult {
      hide NativeReady, Started, AskLease;
    } else {
      hide NativeReady, Started, AskLease;
    }
  }

  lemma ReceiveStep(s: State, received: Event, alone: bool, e: Event, request: Request)
    ensures
      var now := DoReceive(s, received, alone);
      && (request in now.shake.acks ==> request in s.shake.acks)
      && (request in now.shake.applies ==> request in s.shake.applies)
      && (Considers(now.reader, e) ==> Considers(s.reader, e) || received == e)
  {
    HandleStep(s, received, alone, e);
    hide Handle, Considers;
  }

  lemma PlainReadStep(s: State, ok: bool, e: Event)
    requires !s.reader.Guarding? && !s.reader.Storing?
    ensures
      var now := DoRead(s, ok);
      now.shake == s.shake && (Considers(now.reader, e) ==> Considers(s.reader, e))
  {
  }

  lemma ReadStep(s: State, ok: bool, e: Event, request: Request)
    ensures
      var now := DoRead(s, ok);
      && (request in now.shake.applies ==> request in s.shake.applies)
      && (request in now.shake.acks ==>
            request in s.shake.acks || (s.reader.Guarding? && IsAcknowledgement(s.reader.e, request)))
      && (Considers(now.reader, e) ==> Considers(s.reader, e))
  {
    hide IsAcknowledgement;
    if s.reader.Guarding? {
      hide Guard, Considers;
      GuardHistory(s.shake, s.reader.e, s.channel, s.desired, request);
      NotConsideredAgain(s.shake, s.reader.e, s.channel, s.desired, e);
    } else if !s.reader.Storing? {
      hide DoRead, Considers;
      PlainReadStep(s, ok, e);
    }
  }

  lemma ReturnHistory(h: Shake, ok: bool, left: bool, request: Request)
    ensures request in Return(h, ok, left).acks ==> request in h.acks
    ensures request in Return(h, ok, left).applies ==>
              request in h.applies || (ok && h.worker == Some(Apply(request)))
  {
  }

  lemma OtherStep(s: State, action: Action, e: Event, request: Request)
    requires !action.Receive? && !action.Read?
    ensures
      var now := Next(s, action);
      && (request in now.shake.acks ==> request in s.shake.acks)
      && (request in now.shake.applies ==> request in s.shake.applies || CallSucceeds(s, action, Apply(request)))
      && (Considers(now.reader, e) ==> Considers(s.reader, e))
  {
    match action
    case WorkerDone(ok, left) =>
      ReturnHistory(s.shake, ok, left, request);
      hide Return;
    case _ => hide Considers, CallSucceeds;
  }

  lemma ConsidersOnce(s: State, action: Action, e: Event)
    requires Considers(Next(s, action).reader, e)
    ensures Considers(s.reader, e) || (action.Receive? && action.e == e)
  {
    hide DoReceive, DoRead, Considers;
    match action
    case Receive(received, alone) => ReceiveStep(s, received, alone, e, 0);
    case Read(ok) => ReadStep(s, ok, e, 0);
    case _ => OtherStep(s, action, e, 0); hide Next;
  }

  lemma NotConsideredAgain(h: Shake, considered: Event, channel: bool, desired: bool, e: Event)
    ensures !Considers(Guard(h, considered, channel, desired).1, e)
  {
  }

  lemma {:induction false} ConsideredCame(desired: bool, actions: seq<Action>, e: Event)
    requires Considers(Run(Published(desired), actions).reader, e)
    ensures Came(actions, e)
  {
    if actions != [] {
      var before := Run(Published(desired), actions[..|actions| - 1]);
      var last := actions[|actions| - 1];
      ConsidersOnce(before, last, e);
      if Considers(before.reader, e) {
        ConsideredCame(desired, actions[..|actions| - 1], e);
        CameLater(actions, e);
      }
    }
  }

  lemma GuardHistory(h: Shake, e: Event, channel: bool, desired: bool, request: Request)
    ensures request in Guard(h, e, channel, desired).0.applies ==> request in h.applies
    ensures request in Guard(h, e, channel, desired).0.acks ==> request in h.acks || IsAcknowledgement(e, request)
  {
  }

  lemma AcksGrow(s: State, action: Action, request: Request)
    requires request in Next(s, action).shake.acks && request !in s.shake.acks
    ensures s.reader.Guarding? && IsAcknowledgement(s.reader.e, request)
  {
    var any := Event(Other, Ignored, false, None, false, false, false, 0);
    hide DoReceive, DoRead, Guard, IsAcknowledgement;
    match action
    case Receive(received, alone) => ReceiveStep(s, received, alone, any, request);
    case Read(ok) =>
      ReadStep(s, ok, any, request);
    case _ => OtherStep(s, action, any, request); hide Next;
  }

  lemma AppliesGrow(s: State, action: Action, request: Request)
    requires request in Next(s, action).shake.applies && request !in s.shake.applies
    ensures CallSucceeds(s, action, Apply(request))
  {
    var any := Event(Other, Ignored, false, None, false, false, false, 0);
    hide DoReceive, DoRead;
    match action
    case Receive(received, alone) => ReceiveStep(s, received, alone, any, request);
    case Read(ok) => ReadStep(s, ok, any, request);
    case _ => OtherStep(s, action, any, request); hide Next;
  }

  lemma {:induction false} AcksCame(desired: bool, actions: seq<Action>, request: Request)
    requires request in Run(Published(desired), actions).shake.acks
    ensures AcknowledgedIn(actions, request)
  {
    if actions != [] {
      var earlier := actions[..|actions| - 1];
      var before := Run(Published(desired), earlier);
      if request in before.shake.acks {
        AcksCame(desired, earlier, request);
        var e :| Came(earlier, e) && IsAcknowledgement(e, request);
        CameLater(actions, e);
      } else {
        AcksGrow(before, actions[|actions| - 1], request);
        ConsideredCame(desired, earlier, before.reader.e);
        CameLater(actions, before.reader.e);
      }
    }
  }

  lemma {:induction false} AppliesCame(desired: bool, actions: seq<Action>, request: Request)
    requires request in Run(Published(desired), actions).shake.applies
    ensures AppliedIn(desired, actions, request)
  {
    if actions != [] {
      var earlier := actions[..|actions| - 1];
      var before := Run(Published(desired), earlier);
      if request in before.shake.applies {
        AppliesCame(desired, earlier, request);
        var i :| 0 <= i < |earlier| &&
                 CallSucceeds(Run(Published(desired), earlier[..i]), earlier[i], Apply(request));
        assert earlier[..i] == actions[..i];
      } else {
        AppliesGrow(before, actions[|actions| - 1], request);
      }
    }
  }

  lemma ReceiveStatus(s: State, e: Event, alone: bool)
    ensures DoReceive(s, e, alone).status == s.status
  {
    hide NativeReady, Started;
  }

  lemma ReadStatus(s: State, ok: bool)
    ensures DoRead(s, ok).status == s.status || s.reader.Publishing?
  {
    hide Guard, Store;
  }

  lemma ConnectedStep(s: State, action: Action)
    requires Inv(s) && s.status != Connected && Next(s, action).status == Connected
    ensures ReadyFor(s.shake)
  {
    hide DoReceive, DoRead, Return, EndOk, ShakeOk;
    match action
    case Receive(e, alone) => ReceiveStatus(s, e, alone);
    case Read(ok) => ReadStatus(s, ok);
    case _ => hide ReadyFor;
  }

  /** In every run, whatever the engine sends, a step that makes the instance Connected
    * finds nothing released and one request whose plan the driver applied and which the
    * engine also acknowledged.
    */
  lemma ConnectedOnlyWhenReady(desired: bool, actions: seq<Action>, action: Action) returns (request: Request)
    requires Run(Published(desired), actions).status != Connected
    requires Next(Run(Published(desired), actions), action).status == Connected
    ensures !Run(Published(desired), actions).shake.released
    ensures Run(Published(desired), actions).shake.request == Some(request)
    ensures AppliedIn(desired, actions, request)
    ensures AcknowledgedIn(actions, request)
  {
    var s := Run(Published(desired), actions);
    RunKeeps(desired, actions);
    ConnectedStep(s, action);
    request := s.shake.request.value;
    AppliesCame(desired, actions, request);
    AcksCame(desired, actions, request);
  }

  lemma RunSnoc(desired: bool, actions: seq<Action>, action: Action)
    ensures Run(Published(desired), actions + [action]) == Next(Run(Published(desired), actions), action)
  {
    assert (actions + [action])[..|actions|] == actions;
    hide Next;
  }

  function Incoming(name: Name, request: Request): Event {
    Event(name, Accepted, true, Some(request), true, true, true, 0)
  }

  /** The steps of a handshake without resources, up to the check of tunnel_up. */
  function Handshake(request: Request): seq<Action> {
    Opening(request) + Applying(request) + [
      Receive(Incoming(Acknowledge, request), true), Read(true), Receive(Incoming(TunnelUp, request), true)]
  }

  function Opening(request: Request): seq<Action> {
    [Receive(Incoming(NetworkPlan, request), true), Read(true), Receive(Incoming(Begin, request), true), Read(true)]
  }

  function Applying(request: Request): seq<Action> {
    [Receive(Incoming(Commit, request), true), Read(true), Read(true), WorkerDone(true, false), Read(true), Read(true)]
  }

  /** Connected is reached: the next step of the reader after this run publishes it. */
  lemma ConnectedIsReachable(request: Request)
    ensures
      var s := Run(Published(true), Handshake(request));
      s.status != Connected && Next(s, Read(true)).status == Connected
  {
    OpeningEnds(request);
    ApplyingEnds(request);
    var before := Opening(request) + Applying(request);
    var ack, up := Receive(Incoming(Acknowledge, request), true), Receive(Incoming(TunnelUp, request), true);
    RunSnoc(true, before, ack);
    RunSnoc(true, before + [ack], Read(true));
    RunSnoc(true, before + [ack] + [Read(true)], up);
    assert Handshake(request) == before + [ack] + [Read(true)] + [up];
    hide Run, Opening, Applying;
  }

  /** After the lease has been granted and the plan begun. */
  function Begun(request: Request): State {
    Published(true).(shake := NoShake.(selected := true, plan := Some(Plan(Some(request), 0, 0, false))))
  }

  lemma OpeningEnds(request: Request)
    ensures Run(Published(true), Opening(request)) == Begun(request)
  {
    var a, b := Receive(Incoming(NetworkPlan, request), true), Receive(Incoming(Begin, request), true);
    RunSnoc(true, [], a);
    RunSnoc(true, [a], Read(true));
    RunSnoc(true, [a, Read(true)], b);
    RunSnoc(true, [a, Read(true), b], Read(true));
    assert [] + [a] == [a] && [a] + [Read(true)] == [a, Read(true)];
    assert [a, Read(true)] + [b] == [a, Read(true), b];
    assert [a, Read(true), b] + [Read(true)] == Opening(request);
    assert Run(Published(true), []) == Published(true);
    hide Run, Opening;
  }

  /** After the driver has applied the plan and the engine has been told. */
  function Applied(request: Request): State {
    Begun(request).(shake := Begun(request).shake.(
      applied := true, request := Some(request), plan := Some(Plan(Some(request), 0, 0, true)), held := true,
      applies := {request}))
  }

  lemma ApplyingEnds(request: Request)
    ensures Run(Published(true), Opening(request) + Applying(request)) == Applied(request)
  {
    OpeningEnds(request);
    var o, c := Opening(request), Receive(Incoming(Commit, request), true);
    var w := WorkerDone(true, false);
    RunSnoc(true, o, c);
    RunSnoc(true, o + [c], Read(true));
    RunSnoc(true, o + [c] + [Read(true)], Read(true));
    RunSnoc(true, o + [c] + [Read(true)] + [Read(true)], w);
    RunSnoc(true, o + [c] + [Read(true)] + [Read(true)] + [w], Read(true));
    RunSnoc(true, o + [c] + [Read(true)] + [Read(true)] + [w] + [Read(true)], Read(true));
    assert o + Applying(request) == o + [c] + [Read(true)] + [Read(true)] + [w] + [Read(true)] + [Read(true)];
    hide Run, Opening, Applying;
    assert {} + {request} == {request};
  }

  // ---- the lease and the record

  /** In every run the lease and the run record are on disk for as long as the driver may
    * hold anything for the attempt, a call of it is under way, or a plan was begun and not
    * released, however the steps of the ending fail.
    */
  lemma LeaseAndRecordOutliveTheDriver(desired: bool, actions: seq<Action>)
    ensures
      var s := Run(Published(desired), actions);
      s.shake.held || s.shake.worker.Some? || (Started(s.shake) && !s.shake.released) ==> s.lease && s.record
  {
    RunKeeps(desired, actions);
  }
}
