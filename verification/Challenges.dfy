/** The table of authentication challenges (crates/manager-core/src/control.rs): the class
  * the manager updates, the function of its contents that each method computes, and what
  * holds over every run of calls, whatever clock values they carry.
  */
module Challenges {
  import opened Wrappers
  import opened Base64
  import opened ControlFrame

  type Profile = string
  type Attempt = string
  type Request = string

  const PENDING_LIMIT := 512
  const ATTEMPT_LIMIT := 512
  const REQUEST_LIMIT := 32
  const DEADLINE_LIMIT := 120000

  datatype Challenge = Challenge(
    profile: Profile, attempt: Attempt, request: Request, prompt: string, expiresAt: nat, maxResponse: nat)

  datatype Pending = Pending(challenge: Challenge, generation: nat)

  datatype Table = Table(pending: map<Profile, Pending>, seen: map<Attempt, set<Request>>)

  datatype Refusal = InvalidInput | ProfileBusy

  predicate Admissible(c: Challenge, now: nat) {
    && ValidAttempt(c.attempt) && ValidRequest(c.request)
    && 0 < |c.profile| <= 128
    && |c.prompt| <= 1024 && '\0' !in c.prompt
    && 0 < c.maxResponse <= 1024
    && now < c.expiresAt <= now + DEADLINE_LIMIT
  }

  // ---- what each call makes of the table

  function Expired(pending: map<Profile, Pending>, now: nat): map<Profile, Pending> {
    map p | p in pending && pending[p].challenge.expiresAt > now :: pending[p]
  }

  function SeenBy(t: Table, attempt: Attempt): set<Request> {
    if attempt in t.seen then t.seen[attempt] else {}
  }

  function Refused(t: Table, c: Challenge, now: nat): Option<Refusal> {
    var pending := Expired(t.pending, now);
    if !Admissible(c, now) then Some(InvalidInput)
    else if |pending| >= PENDING_LIMIT && c.profile !in pending then Some(InvalidInput)
    else if c.profile in pending then Some(ProfileBusy)
    else if |t.seen| >= ATTEMPT_LIMIT && c.attempt !in t.seen then Some(InvalidInput)
    else if |SeenBy(t, c.attempt)| >= REQUEST_LIMIT || c.request in SeenBy(t, c.attempt) then Some(InvalidInput)
    else None
  }

  function AfterRegister(t: Table, c: Challenge, generation: nat, now: nat): Table {
    var pending := Expired(t.pending, now);
    if Refused(t, c, now).Some? then t.(pending := pending)
    else
      Table(pending[c.profile := Pending(c, generation)], t.seen[c.attempt := SeenBy(t, c.attempt) + {c.request}])
  }

  /** The frame a response gives, if it is accepted. */
  function Response(
      t: Table, profile: Profile, attempt: Attempt, generation: nat, request: Request, now: nat, value: seq<Octet>)
    : Option<string>
  {
    var pending := Expired(t.pending, now);
    if profile !in pending then None
    else
      var p := pending[profile];
      if p.generation != generation || p.challenge.attempt != attempt || p.challenge.request != request then None
      else if |value| > p.challenge.maxResponse then None
      else
        match Frame(attempt, request, AuthResponse, value)
        case Success(text) => Some(text)
        case Failure(_) => None
  }

  function AfterRespond(
      t: Table, profile: Profile, attempt: Attempt, generation: nat, request: Request, now: nat, value: seq<Octet>)
    : Table
  {
    var pending := Expired(t.pending, now);
    if Response(t, profile, attempt, generation, request, now, value).Some? then t.(pending := pending - {profile})
    else t.(pending := pending)
  }

  predicate IsPending(t: Table, profile: Profile, attempt: Attempt) {
    profile in t.pending && t.pending[profile].challenge.attempt == attempt
  }

  function AfterClose(t: Table, profile: Profile, attempt: Attempt, request: Request): Table {
    if IsPending(t, profile, attempt) && t.pending[profile].challenge.request == request then
      t.(pending := t.pending - {profile})
    else t
  }

  function AfterCancel(t: Table, profile: Profile, attempt: Attempt): Table {
    Table(if IsPending(t, profile, attempt) then t.pending - {profile} else t.pending, t.seen - {attempt})
  }

  // ---- the table the manager keeps

  class Challenges {
    var pending: map<Profile, Pending>
    var seen: map<Attempt, set<Request>>

    ghost function Now(): Table
      reads this
    {
      Table(pending, seen)
    }

    constructor ()
      ensures Now() == Table(map[], map[])
    {
      pending, seen := map[], map[];
    }

    method Expire(now: nat)
      modifies `pending
      ensures Now() == old(Now()).(pending := Expired(old(pending), now))
    {
      pending := map p | p in pending && pending[p].challenge.expiresAt > now :: pending[p];
    }

    method Register(c: Challenge, generation: nat, now: nat) returns (refusal: Option<Refusal>)
      modifies this
      ensures refusal == Refused(old(Now()), c, now)
      ensures Now() == AfterRegister(old(Now()), c, generation, now)
    {
      Expire(now);
      hide Expired, Admissible;
      if !Admissible(c, now) {
        return Some(InvalidInput);
      }
      if |pending| >= PENDING_LIMIT && c.profile !in pending {
        return Some(InvalidInput);
      }
      if c.profile in pending {
        return Some(ProfileBusy);
      }
      if |seen| >= ATTEMPT_LIMIT && c.attempt !in seen {
        return Some(InvalidInput);
      }
      var requests := if c.attempt in seen then seen[c.attempt] else {};
      if |requests| >= REQUEST_LIMIT || c.request in requests {
        return Some(InvalidInput);
      }
      seen := seen[c.attempt := requests + {c.request}];
      pending := pending[c.profile := Pending(c, generation)];
      refusal := None;
    }

    method List(now: nat) returns (challenges: map<Profile, Pending>)
      modifies `pending
      ensures challenges == Expired(old(pending), now)
      ensures Now() == old(Now()).(pending := challenges)
    {
      Expire(now);
      challenges := pending;
    }

    method Respond(
        profile: Profile, attempt: Attempt, generation: nat, request: Request, now: nat, value: seq<Octet>)
      returns (frame: Option<string>)
      modifies `pending
      ensures frame == Response(old(Now()), profile, attempt, generation, request, now, value)
      ensures Now() == AfterRespond(old(Now()), profile, attempt, generation, request, now, value)
    {
      Expire(now);
      hide Expired, Frame;
      frame := None;
      if profile !in pending {
        return;
      }
      var p := pending[profile];
      if p.generation != generation || p.challenge.attempt != attempt || p.challenge.request != request {
        return;
      }
      if |value| > p.challenge.maxResponse {
        return;
      }
      var text := Frame(attempt, request, AuthResponse, value);
      if text.Success? {
        pending := pending - {profile};
        frame := Some(text.value);
      }
    }

    method Close(profile: Profile, attempt: Attempt, request: Request)
      modifies `pending
      ensures Now() == AfterClose(old(Now()), profile, attempt, request)
    {
      if profile in pending && pending[profile].challenge.attempt == attempt
         && pending[profile].challenge.request == request {
        pending := pending - {profile};
      }
    }

    method CancelAttempt(profile: Profile, attempt: Attempt)
      modifies this
      ensures Now() == AfterCancel(old(Now()), profile, attempt)
    {
      if profile in pending && pending[profile].challenge.attempt == attempt {
        pending := pending - {profile};
      }
      seen := seen - {attempt};
    }
  }

  // ---- runs

  datatype Call =
    | Register(c: Challenge, generation: nat, now: nat)
    | List(now: nat)
    | Respond(profile: Profile, attempt: Attempt, generation: nat, request: Request, now: nat, value: seq<Octet>)
    | Close(profile: Profile, attempt: Attempt, request: Request)
    | Cancel(profile: Profile, attempt: Attempt)

  function Next(t: Table, call: Call): Table {
    match call
    case Register(c, generation, now) => AfterRegister(t, c, generation, now)
    case List(now) => t.(pending := Expired(t.pending, now))
    case Respond(profile, attempt, generation, request, now, value) =>
      AfterRespond(t, profile, attempt, generation, request, now, value)
    case Close(profile, attempt, request) => AfterClose(t, profile, attempt, request)
    case Cancel(profile, attempt) => AfterCancel(t, profile, attempt)
  }

  function Run(calls: seq<Call>): Table {
    if calls == [] then Table(map[], map[])
    else Next(Run(calls[..|calls| - 1]), calls[|calls| - 1])
  }

  predicate Registers(t: Table, call: Call, profile: Profile, p: Pending) {
    && call.Register? && Refused(t, call.c, call.now).None?
    && call.c.profile == profile && p == Pending(call.c, call.generation)
  }

  predicate Accepts(t: Table, call: Call, attempt: Attempt, request: Request) {
    && call.Respond? && call.attempt == attempt && call.request == request
    && Response(t, call.profile, attempt, call.generation, request, call.now, call.value).Some?
  }

  // ---- bounds

  predicate Bounded(t: Table) {
    && |t.pending| <= PENDING_LIMIT && |t.seen| <= ATTEMPT_LIMIT
    && forall a :: a in t.seen ==> |t.seen[a]| <= REQUEST_LIMIT
  }

  lemma FewerKeys<K, V>(less: map<K, V>, more: map<K, V>)
    requires less.Keys <= more.Keys
    ensures |less| <= |more|
  {
    SubsetIsNotLarger(less.Keys, more.Keys);
  }

  lemma UpdateSize<K, V>(m: map<K, V>, k: K, v: V)
    ensures |m[k := v]| == if k in m then |m| else |m| + 1
  {
    assert m[k := v].Keys == m.Keys + {k};
  }

  lemma RegisterBounded(t: Table, c: Challenge, generation: nat, now: nat)
    requires Bounded(t)
    ensures Bounded(AfterRegister(t, c, generation, now))
  {
    var pending := Expired(t.pending, now);
    FewerKeys(pending, t.pending);
    hide Admissible, Expired;
    if Refused(t, c, now).None? {
      UpdateSize(pending, c.profile, Pending(c, generation));
      UpdateSize(t.seen, c.attempt, SeenBy(t, c.attempt) + {c.request});
    }
  }

  lemma NextBounded(t: Table, call: Call)
    requires Bounded(t)
    ensures Bounded(Next(t, call))
  {
    if call.Register? {
      RegisterBounded(t, call.c, call.generation, call.now);
    } else {
      OnlyFewer(t, call);
      FewerKeys(Next(t, call).pending, t.pending);
      FewerKeys(Next(t, call).seen, t.seen);
      hide Next;
    }
  }

  lemma OnlyFewer(t: Table, call: Call)
    requires !call.Register?
    ensures
      var after := Next(t, call);
      && after.pending.Keys <= t.pending.Keys && after.seen.Keys <= t.seen.Keys
      && forall a :: a in after.seen ==> after.seen[a] == t.seen[a]
  {
    hide Response;
  }

  /** In every run there are at most 512 challenges pending, 512 attempts remembered, and
    * 32 requests for each.
    */
  lemma {:induction false} RunBounded(calls: seq<Call>)
    ensures Bounded(Run(calls))
  {
    if calls != [] {
      RunBounded(calls[..|calls| - 1]);
      NextBounded(Run(calls[..|calls| - 1]), calls[|calls| - 1]);
    }
  }

  // ---- where an accepted response comes from

  lemma PendingStep(t: Table, call: Call, profile: Profile)
    requires profile in Next(t, call).pending
    ensures
      || (profile in t.pending && t.pending[profile] == Next(t, call).pending[profile])
      || Registers(t, call, profile, Next(t, call).pending[profile])
  {
    hide Admissible;
  }

  /** The call takes the profile's challenge out of the table. */
  predicate Withdraws(t: Table, call: Call, profile: Profile, c: Challenge) {
    match call
    case Close(p, attempt, request) => p == profile && attempt == c.attempt && request == c.request
    case Cancel(p, attempt) => p == profile && attempt == c.attempt
    case List(now) => c.expiresAt <= now
    case Register(_, _, now) => c.expiresAt <= now
    case Respond(p, attempt, _, request, now, _) =>
      c.expiresAt <= now || (p == profile && Accepts(t, call, attempt, request))
  }

  lemma StaysStep(t: Table, call: Call, profile: Profile)
    requires profile in Next(t, call).pending
    requires !Registers(t, call, profile, Next(t, call).pending[profile])
    ensures profile in t.pending && t.pending[profile] == Next(t, call).pending[profile]
    ensures !Withdraws(t, call, profile, t.pending[profile].challenge)
  {
    PendingStep(t, call, profile);
    hide Refused, Response;
  }

  /** Call k put p into the table for the profile and no later call took it out. */
  ghost predicate RegisteredAt(calls: seq<Call>, k: nat, profile: Profile, p: Pending)
    requires k < |calls|
  {
    && Registers(Run(calls[..k]), calls[k], profile, p)
    && forall j :: k < j < |calls| ==> !Withdraws(Run(calls[..j]), calls[j], profile, p.challenge)
  }

  lemma RegisteredStep(calls: seq<Call>, k: nat, profile: Profile, p: Pending)
    requires |calls| > 0 && k < |calls| - 1
    requires RegisteredAt(calls[..|calls| - 1], k, profile, p)
    requires !Withdraws(Run(calls[..|calls| - 1]), calls[|calls| - 1], profile, p.challenge)
    ensures RegisteredAt(calls, k, profile, p)
  {
    hide Withdraws, Registers, Run;
    var earlier := calls[..|calls| - 1];
    assert earlier[..k] == calls[..k];
    forall j | k < j < |calls| ensures !Withdraws(Run(calls[..j]), calls[j], profile, p.challenge) {
      if j < |earlier| {
        assert earlier[..j] == calls[..j] && earlier[j] == calls[j];
      } else {
        assert calls[..j] == earlier;
      }
    }
  }

  lemma {:induction false} PendingIsRegistered(calls: seq<Call>, profile: Profile) returns (k: nat)
    requires profile in Run(calls).pending
    ensures k < |calls| && RegisteredAt(calls, k, profile, Run(calls).pending[profile])
  {
    var earlier := calls[..|calls| - 1];
    var p := Run(calls).pending[profile];
    if Registers(Run(earlier), calls[|calls| - 1], profile, p) {
      k := |calls| - 1;
    } else {
      StaysStep(Run(earlier), calls[|calls| - 1], profile);
      k := PendingIsRegistered(earlier, profile);
      RegisteredStep(calls, k, profile, p);
    }
  }

  /** In every run, an accepted response answers a challenge that was registered for the
    * same profile, generation, attempt and request and not withdrawn since, comes strictly
    * before its deadline, which is at most two minutes after the registration, stays within
    * its length, and is turned into the frame of this response.
    */
  lemma AcceptedIsBound(calls: seq<Call>, call: Call, attempt: Attempt, request: Request)
    returns (k: nat, p: Pending)
    requires Accepts(Run(calls), call, attempt, request)
    ensures k < |calls| && RegisteredAt(calls, k, call.profile, p)
    ensures p.challenge.attempt == attempt && p.challenge.request == request && p.generation == call.generation
    ensures call.now < p.challenge.expiresAt <= calls[k].now + DEADLINE_LIMIT
    ensures |call.value| <= p.challenge.maxResponse
    ensures Response(Run(calls), call.profile, attempt, call.generation, request, call.now, call.value)
              == Some(FrameText(attempt, request, "auth_response", call.value) + "\n")
  {
    k := PendingIsRegistered(calls, call.profile);
    p := Run(calls).pending[call.profile];
  }

  // ---- single use

  /** A cancellation through one profile of an attempt whose challenge is pending for another:
    * the challenge stays while the requests of its attempt are forgotten.
    */
  predicate Strands(t: Table, call: Call) {
    call.Cancel? && exists q :: q in t.pending && Stranded(t, call, q)
  }

  predicate Stranded(t: Table, call: Call, q: Profile)
    requires call.Cancel? && q in t.pending
  {
    q != call.profile && t.pending[q].challenge.attempt == call.attempt
  }

  /** No call of the run strands a challenge. */
  predicate Guarded(calls: seq<Call>) {
    forall i :: 0 <= i < |calls| ==> !Strands(Run(calls[..i]), calls[i])
  }

  /** Pending challenges have been seen, and no two are for the same request. */
  predicate Remembered(t: Table) {
    && (forall p :: p in t.pending ==>
          t.pending[p].challenge.request in SeenBy(t, t.pending[p].challenge.attempt))
    && (forall p, q :: p in t.pending && q in t.pending && SameRequest(t.pending[p], t.pending[q]) ==> p == q)
  }

  predicate SameRequest(p: Pending, q: Pending) {
    p.challenge.attempt == q.challenge.attempt && p.challenge.request == q.challenge.request
  }

  lemma FewerRemembered(t: Table, pending: map<Profile, Pending>)
    requires Remembered(t) && forall p :: p in pending ==> p in t.pending && pending[p] == t.pending[p]
    ensures Remembered(t.(pending := pending))
  {
  }

  lemma AddRemembered(t: Table, c: Challenge, generation: nat)
    requires Remembered(t) && c.profile !in t.pending && c.request !in SeenBy(t, c.attempt)
    ensures Remembered(
      Table(t.pending[c.profile := Pending(c, generation)], t.seen[c.attempt := SeenBy(t, c.attempt) + {c.request}]))
  {
  }

  lemma RegisterRemembered(t: Table, c: Challenge, generation: nat, now: nat)
    requires Remembered(t)
    ensures Remembered(AfterRegister(t, c, generation, now))
  {
    var earlier := t.(pending := Expired(t.pending, now));
    FewerRemembered(t, earlier.pending);
    hide Remembered, Expired, Admissible;
    if Refused(t, c, now).None? {
      AddRemembered(earlier, c, generation);
    }
  }

  lemma CancelRemembered(t: Table, call: Call)
    requires Remembered(t) && call.Cancel? && !Strands(t, call)
    ensures Remembered(Next(t, call))
  {
    var next := Next(t, call);
    assert forall p :: p in next.pending ==> next.pending[p].challenge.attempt != call.attempt;
  }

  lemma NextRemembered(t: Table, call: Call)
    requires Remembered(t) && !Strands(t, call)
    ensures Remembered(Next(t, call))
  {
    match call
    case Register(c, generation, now) =>
      RegisterRemembered(t, c, generation, now);
      hide AfterRegister, Remembered;
    case Cancel(_, _) => CancelRemembered(t, call);
    case _ =>
      hide Response;
      FewerRemembered(t, Next(t, call).pending);
      hide Remembered;
  }

  lemma GuardedFront(calls: seq<Call>, i: nat)
    requires Guarded(calls) && i <= |calls|
    ensures Guarded(calls[..i]) && (i < |calls| ==> !Strands(Run(calls[..i]), calls[i]))
  {
    hide Run, Strands;
    assert forall k :: 0 <= k < i ==> calls[..i][..k] == calls[..k];
  }

  lemma {:induction false} RunRemembered(calls: seq<Call>)
    requires Guarded(calls)
    ensures Remembered(Run(calls))
  {
    hide Guarded, Next, Strands;
    if calls != [] {
      hide Remembered;
      var last := |calls| - 1;
      GuardedFront(calls, last);
      RunRemembered(calls[..last]);
      NextRemembered(Run(calls[..last]), calls[last]);
    }
  }

  /** The pair has been used up: remembered, and not pending. */
  predicate Spent(t: Table, attempt: Attempt, request: Request) {
    && request in SeenBy(t, attempt)
    && forall p :: p in t.pending ==>
         !(t.pending[p].challenge.attempt == attempt && t.pending[p].challenge.request == request)
  }

  predicate Cancels(call: Call, attempt: Attempt) {
    call.Cancel? && call.attempt == attempt
  }

  lemma AcceptingSpends(t: Table, call: Call, attempt: Attempt, request: Request)
    requires Remembered(t) && Accepts(t, call, attempt, request)
    ensures Spent(Next(t, call), attempt, request)
  {
    hide Frame;
  }

  lemma SpentStays(t: Table, call: Call, attempt: Attempt, request: Request)
    requires Spent(t, attempt, request) && !Cancels(call, attempt)
    ensures Spent(Next(t, call), attempt, request)
  {
    hide Response, Admissible;
  }

  lemma {:induction false} SpentUntil(calls: seq<Call>, i: nat, attempt: Attempt, request: Request)
    requires i <= |calls| && Spent(Run(calls[..i]), attempt, request)
    requires forall k :: i <= k < |calls| ==> !Cancels(calls[k], attempt)
    ensures Spent(Run(calls), attempt, request)
  {
    if i == |calls| {
      assert calls[..i] == calls;
    } else {
      assert calls[..|calls| - 1][..i] == calls[..i];
      SpentUntil(calls[..|calls| - 1], i, attempt, request);
      SpentStays(Run(calls[..|calls| - 1]), calls[|calls| - 1], attempt, request);
    }
  }

  /** Between the two calls the attempt is cancelled. */
  predicate CancelledBetween(calls: seq<Call>, i: nat, j: nat, attempt: Attempt)
    requires j <= |calls|
  {
    exists k :: i < k < j && Cancels(calls[k], attempt)
  }

  /** In every run that strands no challenge, between two accepted responses to the same
    * request of the same attempt that attempt was cancelled.
    */
  lemma GuardedUse(calls: seq<Call>, i: nat, j: nat, attempt: Attempt, request: Request)
    requires Guarded(calls) && i < j < |calls|
    requires Accepts(Run(calls[..i]), calls[i], attempt, request)
    requires Accepts(Run(calls[..j]), calls[j], attempt, request)
    ensures CancelledBetween(calls, i, j, attempt)
  {
    hide Run, Next, Accepts, Guarded, Spent;
    if !CancelledBetween(calls, i, j, attempt) {
      GuardedFront(calls, i);
      RunRemembered(calls[..i]);
      AcceptingSpends(Run(calls[..i]), calls[i], attempt, request);
      RunSnoc(calls, i);
      assert calls[..j][..i + 1] == calls[..i + 1];
      SpentUntil(calls[..j], i + 1, attempt, request);
      SpentRefuses(Run(calls[..j]), calls[j], attempt, request);
      assert false;
    }
  }

  lemma RunSnoc(calls: seq<Call>, i: nat)
    requires i < |calls|
    ensures Run(calls[..i + 1]) == Next(Run(calls[..i]), calls[i])
  {
    assert calls[..i + 1][..i] == calls[..i];
    hide Next;
  }

  lemma SpentRefuses(t: Table, call: Call, attempt: Attempt, request: Request)
    requires Spent(t, attempt, request)
    ensures !Accepts(t, call, attempt, request)
  {
  }

  // ---- exactly when

  /** Any two accepted responses to one request have a cancellation of its attempt between them. */
  ghost predicate UsedOnce(calls: seq<Call>) {
    forall i, j, attempt, request ::
      && 0 <= i < j < |calls|
      && Accepts(Run(calls[..i]), calls[i], attempt, request)
      && Accepts(Run(calls[..j]), calls[j], attempt, request)
      ==> CancelledBetween(calls, i, j, attempt)
  }

  predicate CancelsNothing(calls: seq<Call>) {
    forall i :: 0 <= i < |calls| ==> !calls[i].Cancel?
  }

  /** However the run goes on from any of its points without a further cancellation, every
    * request is used once.
    */
  ghost predicate SafelyUsed(calls: seq<Call>) {
    forall i, more :: 0 <= i <= |calls| && CancelsNothing(more) ==> UsedOnce(calls[..i] + more)
  }

  /** The clock a call carries. */
  function Clock(call: Call): Option<nat> {
    match call
    case Register(_, _, now) => Some(now)
    case List(now) => Some(now)
    case Respond(_, _, _, _, now, _) => Some(now)
    case _ => None
  }

  /** No call carries a time later than this. */
  predicate Until(calls: seq<Call>, now: nat) {
    forall i :: 0 <= i < |calls| && Clock(calls[i]).Some? ==> Clock(calls[i]).value <= now
  }

  /** The clock never goes back. */
  predicate Steady(calls: seq<Call>) {
    forall i, j :: 0 <= i < j < |calls| && Clock(calls[i]).Some? && Clock(calls[j]).Some? ==>
      Clock(calls[i]).value <= Clock(calls[j]).value
  }

  /** Going on without a cancellation strands nothing more. */
  lemma StaysGuarded(calls: seq<Call>, i: nat, more: seq<Call>)
    requires Guarded(calls) && i <= |calls| && CancelsNothing(more)
    ensures Guarded(calls[..i] + more)
  {
    var all := calls[..i] + more;
    forall k | 0 <= k < |all| ensures !Strands(Run(all[..k]), all[k]) {
      if k < i {
        assert all[..k] == calls[..k] && all[k] == calls[k];
      } else {
        assert all[k] == more[k - i];
      }
      hide Run;
    }
  }

  lemma GuardedIsUsedOnce(calls: seq<Call>)
    requires Guarded(calls)
    ensures UsedOnce(calls)
  {
    hide Guarded, Run, Accepts, CancelledBetween;
    forall i, j, attempt, request |
      && 0 <= i < j < |calls|
      && Accepts(Run(calls[..i]), calls[i], attempt, request)
      && Accepts(Run(calls[..j]), calls[j], attempt, request)
      ensures CancelledBetween(calls, i, j, attempt)
    {
      GuardedUse(calls, i, j, attempt, request);
    }
  }

  lemma {:induction false} FirstStranding(calls: seq<Call>) returns (i: nat)
    requires !Guarded(calls)
    ensures i < |calls| && Guarded(calls[..i]) && Strands(Run(calls[..i]), calls[i])
  {
    hide Run, Strands;
    var k :| 0 <= k < |calls| && Strands(Run(calls[..k]), calls[k]);
    if Guarded(calls[..k]) {
      i := k;
    } else {
      i := FirstStranding(calls[..k]);
      assert calls[..k][..i] == calls[..i];
    }
  }

  /** A pending challenge is still answerable at every time the run has seen. */
  lemma {:induction false} PendingOutlives(calls: seq<Call>, q: Profile)
    requires Steady(calls) && q in Run(calls).pending
    ensures Run(calls).pending[q].challenge.expiresAt > 0
    ensures Until(calls, Run(calls).pending[q].challenge.expiresAt - 1)
  {
    hide Next, Steady, Until, Registers;
    var earlier, last := calls[..|calls| - 1], calls[|calls| - 1];
    SteadyFront(calls);
    PendingStep(Run(earlier), last, q);
    NotExpired(Run(earlier), last, q);
    var p := Run(calls).pending[q];
    if Registers(Run(earlier), last, q, p) {
      RegistersNow(Run(earlier), last, q, p);
      UntilLast(calls, p.challenge.expiresAt - 1);
    } else {
      PendingOutlives(earlier, q);
      UntilSnoc(earlier, last, p.challenge.expiresAt - 1);
      assert calls == earlier + [last];
    }
  }

  lemma SteadyFront(calls: seq<Call>)
    requires Steady(calls) && calls != []
    ensures Steady(calls[..|calls| - 1])
  {
    assert forall i :: 0 <= i < |calls| - 1 ==> calls[..|calls| - 1][i] == calls[i];
  }

  lemma RegistersNow(t: Table, call: Call, q: Profile, p: Pending)
    requires Registers(t, call, q, p)
    ensures Clock(call) == Some(call.now) && call.now < p.challenge.expiresAt
  {
  }

  lemma UntilSnoc(calls: seq<Call>, call: Call, now: nat)
    requires Until(calls, now) && (Clock(call).Some? ==> Clock(call).value <= now)
    ensures Until(calls + [call], now)
  {
  }

  lemma UntilLast(calls: seq<Call>, now: nat)
    requires Steady(calls) && calls != []
    requires Clock(calls[|calls| - 1]).Some? && Clock(calls[|calls| - 1]).value <= now
    ensures Until(calls, now)
  {
  }

  lemma NotExpired(t: Table, call: Call, q: Profile)
    requires q in Next(t, call).pending
    ensures Clock(call).Some? ==> Clock(call).value < Next(t, call).pending[q].challenge.expiresAt
  {
    hide Response;
  }

  /** The calls that use a stranded challenge twice, just before its deadline. */
  function TwiceMore(p: Pending): seq<Call>
    requires p.challenge.expiresAt > 0
  {
    var c, now := p.challenge, p.challenge.expiresAt - 1;
    var answer := Respond(c.profile, c.attempt, p.generation, c.request, now, [0x61]);
    [answer, Register(c, p.generation, now), answer]
  }

  lemma AnswerTaken(t: Table, p: Pending)
    requires p.challenge.expiresAt > 0 && Admissible(p.challenge, p.challenge.expiresAt - 1)
    requires p.challenge.profile in t.pending && t.pending[p.challenge.profile] == p
    ensures Accepts(t, TwiceMore(p)[0], p.challenge.attempt, p.challenge.request)
    ensures Next(t, TwiceMore(p)[0])
         == t.(pending := Expired(t.pending, p.challenge.expiresAt - 1) - {p.challenge.profile})
  {
    assert Frame(p.challenge.attempt, p.challenge.request, AuthResponse, [0x61]).Success?;
    hide Frame;
  }

  lemma RegisteredAgain(t: Table, p: Pending)
    requires p.challenge.expiresAt > 0 && Admissible(p.challenge, p.challenge.expiresAt - 1)
    requires Expired(t.pending, p.challenge.expiresAt - 1) == t.pending && p.challenge.profile !in t.pending
    requires |t.pending| < PENDING_LIMIT && |t.seen| < ATTEMPT_LIMIT && p.challenge.attempt !in t.seen
    ensures Next(t, TwiceMore(p)[1]).pending == t.pending[p.challenge.profile := p]
  {
    hide Expired, Admissible;
  }

  lemma LeftAfter(pending: map<Profile, Pending>, q: Profile, now: nat)
    requires q in pending && pending[q].challenge.expiresAt > now
    ensures
      var left := Expired(pending, now) - {q};
      Expired(left, now) == left && |left| < |pending| && q !in left
  {
    var left := Expired(pending, now) - {q};
    FewerKeys(Expired(pending, now), pending);
    assert left.Keys == Expired(pending, now).Keys - {q};
  }

  lemma TwiceInTable(t: Table, p: Pending)
    requires p.challenge.expiresAt > 0 && Admissible(p.challenge, p.challenge.expiresAt - 1)
    requires p.challenge.profile in t.pending && t.pending[p.challenge.profile] == p
    requires |t.pending| <= PENDING_LIMIT && |t.seen| < ATTEMPT_LIMIT && p.challenge.attempt !in t.seen
    ensures Accepts(t, TwiceMore(p)[0], p.challenge.attempt, p.challenge.request)
    ensures
      var third := Next(Next(t, TwiceMore(p)[0]), TwiceMore(p)[1]);
      Accepts(third, TwiceMore(p)[2], p.challenge.attempt, p.challenge.request)
  {
    hide Next, Accepts, Admissible, Expired;
    var now := p.challenge.expiresAt - 1;
    AnswerTaken(t, p);
    LeftAfter(t.pending, p.challenge.profile, now);
    var second := Next(t, TwiceMore(p)[0]);
    RegisteredAgain(second, p);
    var third := Next(second, TwiceMore(p)[1]);
    AnswerTaken(third, p);
  }

  /** A cancellation that strands a challenge, the first of a run, lets its request be used
    * twice without any further cancellation, and without the clock going back.
    */
  lemma StrandedUse(calls: seq<Call>, i: nat) returns (more: seq<Call>)
    requires i < |calls| && Guarded(calls[..i]) && Strands(Run(calls[..i]), calls[i])
    ensures CancelsNothing(more) && !UsedOnce(calls[..i + 1] + more)
    ensures Steady(calls[..i]) ==> Steady(calls[..i + 1] + more)
  {
    hide Run, Guarded, Steady, UsedOnce, CancelsNothing;
    var t := Run(calls[..i]);
    var q :| q in t.pending && Stranded(t, calls[i], q);
    more := StrandedBy(calls[..i], calls[i], q);
    assert calls[..i + 1] == calls[..i] + [calls[i]];
  }

  lemma StrandedBy(calls: seq<Call>, call: Call, q: Profile) returns (more: seq<Call>)
    requires Guarded(calls) && call.Cancel? && q in Run(calls).pending && Stranded(Run(calls), call, q)
    ensures CancelsNothing(more) && !UsedOnce(calls + [call] + more)
    ensures Steady(calls) ==> Steady(calls + [call] + more)
  {
    hide Next, Remembered, Bounded, Guarded, Steady, Admissible, Accepts, UsedOnce;
    var t := Run(calls);
    var p := t.pending[q];
    PendingIsAdmissible(calls, q);
    more := TwiceMore(p);
    RunRemembered(calls);
    RunBounded(calls);
    if Steady(calls) {
      PendingOutlives(calls, q);
      SteadyMore(calls, call, p);
    }
    StrandedNext(t, call, q);
    var all := calls + [call];
    assert all[..|all| - 1] == calls;
    assert Run(all) == Next(t, call);
    hide Run;
    TwiceInTable(Run(all), p);
    hide Until;
    TwiceInRun(all, more, p.challenge.attempt, p.challenge.request);
  }

  lemma PendingIsAdmissible(calls: seq<Call>, q: Profile)
    requires q in Run(calls).pending
    ensures
      var c := Run(calls).pending[q].challenge;
      c.profile == q && c.expiresAt > 0 && Admissible(c, c.expiresAt - 1)
  {
    hide Run, Registers, Withdraws, Admissible;
    var k := PendingIsRegistered(calls, q);
    RegistersAdmissible(Run(calls[..k]), calls[k], q, Run(calls).pending[q]);
  }

  lemma RegistersAdmissible(t: Table, call: Call, q: Profile, p: Pending)
    requires Registers(t, call, q, p)
    ensures p.challenge.profile == q && p.challenge.expiresAt > 0
    ensures Admissible(p.challenge, p.challenge.expiresAt - 1)
  {
    hide Expired, SeenBy;
  }

  lemma StrandedNext(t: Table, call: Call, q: Profile)
    requires Remembered(t) && Bounded(t) && call.Cancel? && q in t.pending && Stranded(t, call, q)
    ensures
      var next := Next(t, call);
      && q in next.pending && next.pending[q] == t.pending[q]
      && |next.pending| <= PENDING_LIMIT && |next.seen| < ATTEMPT_LIMIT && call.attempt !in next.seen
  {
    var next := Next(t, call);
    FewerKeys(next.pending, t.pending);
    assert call.attempt in t.seen;
    assert next.seen.Keys == t.seen.Keys - {call.attempt};
  }

  lemma SteadyMore(calls: seq<Call>, call: Call, p: Pending)
    requires Steady(calls) && call.Cancel? && p.challenge.expiresAt > 0 && Until(calls, p.challenge.expiresAt - 1)
    ensures Steady(calls + [call] + TwiceMore(p))
  {
  }

  lemma TwiceInRun(calls: seq<Call>, more: seq<Call>, attempt: Attempt, request: Request)
    requires |more| == 3 && CancelsNothing(more) && Accepts(Run(calls), more[0], attempt, request)
    requires Accepts(Next(Next(Run(calls), more[0]), more[1]), more[2], attempt, request)
    ensures !UsedOnce(calls + more)
  {
    var all, n := calls + more, |calls|;
    hide Next, Accepts;
    assert all[..n] == calls;
    RunSnoc(all, n);
    RunSnoc(all, n + 1);
    hide Run;
    assert !CancelledBetween(all, n, n + 2, attempt);
  }

  /** Cancelling an attempt only through a profile whose challenge of it, or nobody's, is
    * pending is exactly what single use needs: the run strands no challenge if and only if
    * from every point of it, going on without a cancellation, every request is used once.
    */
  lemma GuardedExactly(calls: seq<Call>)
    ensures Guarded(calls) <==> SafelyUsed(calls)
  {
    if Guarded(calls) {
      forall i, more | 0 <= i <= |calls| && CancelsNothing(more) ensures UsedOnce(calls[..i] + more) {
        StaysGuarded(calls, i, more);
        GuardedIsUsedOnce(calls[..i] + more);
      }
    } else {
      var i := FirstStranding(calls);
      var more := StrandedUse(calls, i);
      assert !UsedOnce(calls[..i + 1] + more);
      hide Guarded, UsedOnce;
    }
  }

  // ---- attempts of one profile

  /** Every call names an attempt only together with its own profile. */
  predicate Proper(calls: seq<Call>, owner: map<Attempt, Profile>) {
    forall i :: 0 <= i < |calls| ==> OwnCall(calls[i], owner)
  }

  predicate OwnCall(call: Call, owner: map<Attempt, Profile>) {
    match call
    case Register(c, _, _) => c.attempt in owner && owner[c.attempt] == c.profile
    case Cancel(profile, attempt) => attempt in owner && owner[attempt] == profile
    case _ => true
  }

  /** Pending challenges belong to the owner of their attempt. */
  predicate Owned(t: Table, owner: map<Attempt, Profile>) {
    forall p :: p in t.pending ==>
      t.pending[p].challenge.attempt in owner && owner[t.pending[p].challenge.attempt] == p
  }

  lemma NextOwned(t: Table, call: Call, owner: map<Attempt, Profile>)
    requires Owned(t, owner) && OwnCall(call, owner)
    ensures Owned(Next(t, call), owner) && !Strands(t, call)
  {
    hide Refused, Response;
  }

  lemma {:induction false} RunOwned(calls: seq<Call>, owner: map<Attempt, Profile>)
    requires Proper(calls, owner)
    ensures Owned(Run(calls), owner) && Guarded(calls)
  {
    hide Next, Strands, Guarded;
    if calls == [] {
      GuardedGrows(calls);
    } else {
      var last := |calls| - 1;
      RunOwned(calls[..last], owner);
      NextOwned(Run(calls[..last]), calls[last], owner);
      hide Owned, Proper;
      GuardedGrows(calls);
    }
  }

  lemma GuardedGrows(calls: seq<Call>)
    requires calls != [] ==>
      var last := |calls| - 1;
      Guarded(calls[..last]) && !Strands(Run(calls[..last]), calls[last])
    ensures Guarded(calls)
  {
    hide Run, Strands;
    assert forall i :: 0 <= i < |calls| - 1 ==>
      calls[..|calls| - 1][..i] == calls[..i] && calls[..|calls| - 1][i] == calls[i];
  }

  /** If each attempt is used by one profile only, that condition is met: between two accepted
    * responses to the same request of the same attempt that attempt was cancelled.
    */
  lemma SingleUse(calls: seq<Call>, owner: map<Attempt, Profile>, i: nat, j: nat, attempt: Attempt, request: Request)
    requires Proper(calls, owner) && i < j < |calls|
    requires Accepts(Run(calls[..i]), calls[i], attempt, request)
    requires Accepts(Run(calls[..j]), calls[j], attempt, request)
    ensures exists k :: i < k < j && Cancels(calls[k], attempt)
  {
    RunOwned(calls, owner);
    GuardedUse(calls, i, j, attempt, request);
    hide Run, Accepts;
  }

  /** A run from the empty table: cancelled through another profile, an attempt keeps its
    * pending challenge while its requests are forgotten, and a second profile can be given
    * the same request; then both responses are accepted.
    */
  lemma TwoProfilesTwoResponses(c: Challenge, other: Profile, value: seq<Octet>) returns (calls: seq<Call>)
    requires Admissible(c, 0) && 0 < |other| <= 128 && other != c.profile
    requires 0 < |value| <= c.maxResponse && Clean(value)
    ensures |calls| == 5
    ensures Accepts(Run(calls[..3]), calls[3], c.attempt, c.request)
    ensures Accepts(Run(calls[..4]), calls[4], c.attempt, c.request)
  {
    calls := [
      Register(c, 1, 0), Cancel(other, c.attempt), Register(c.(profile := other), 1, 0),
      Respond(c.profile, c.attempt, 1, c.request, 0, value),
      Respond(other, c.attempt, 1, c.request, 0, value)];
    TwoResponses(c, other, value);
    hide Next, Accepts;
    assert calls[..0] == [];
    RunSnoc(calls, 0);
    RunSnoc(calls, 1);
    RunSnoc(calls, 2);
    RunSnoc(calls, 3);
    hide Run;
  }

  lemma TwoResponses(c: Challenge, other: Profile, value: seq<Octet>)
    requires Admissible(c, 0) && 0 < |other| <= 128 && other != c.profile
    requires 0 < |value| <= c.maxResponse && Clean(value)
    ensures
      var one := Next(Table(map[], map[]), Register(c, 1, 0));
      var two := Next(one, Cancel(other, c.attempt));
      var three := Next(two, Register(c.(profile := other), 1, 0));
      var first := Respond(c.profile, c.attempt, 1, c.request, 0, value);
      var second := Respond(other, c.attempt, 1, c.request, 0, value);
      Accepts(three, first, c.attempt, c.request) && Accepts(Next(three, first), second, c.attempt, c.request)
  {
    var three := TwoRegistered(c, other);
    TwoAnswered(three, c, other, value);
    hide Next, Accepts;
  }

  lemma TwoAnswered(three: Table, c: Challenge, other: Profile, value: seq<Octet>)
    requires three.pending == map[c.profile := Pending(c, 1), other := Pending(c.(profile := other), 1)]
    requires Admissible(c, 0) && 0 < |other| <= 128 && other != c.profile
    requires 0 < |value| <= c.maxResponse && Clean(value)
    ensures Accepts(three, Respond(c.profile, c.attempt, 1, c.request, 0, value), c.attempt, c.request)
    ensures Accepts(
      Next(three, Respond(c.profile, c.attempt, 1, c.request, 0, value)),
      Respond(other, c.attempt, 1, c.request, 0, value), c.attempt, c.request)
  {
    assert Admissible(c.(profile := other), 0);
    assert forall p :: p in three.pending ==> three.pending[p].challenge.expiresAt > 0;
    hide Admissible, AfterRespond, Response, Clean;
    RespondAlone(three, c, value);
    var four := three.(pending := three.pending - {c.profile});
    assert four.pending == map[other := Pending(c.(profile := other), 1)];
    RespondAlone(four, c.(profile := other), value);
  }

  lemma TwoRegistered(c: Challenge, other: Profile) returns (three: Table)
    requires Admissible(c, 0) && 0 < |other| <= 128 && other != c.profile
    ensures three.pending == map[c.profile := Pending(c, 1), other := Pending(c.(profile := other), 1)]
    ensures
      var one := Next(Table(map[], map[]), Register(c, 1, 0));
      three == Next(Next(one, Cancel(other, c.attempt)), Register(c.(profile := other), 1, 0))
  {
    assert Admissible(c.(profile := other), 0);
    hide Admissible, AfterRegister;
    var one := RegisterAlone(Table(map[], map[]), c);
    var two := AfterCancel(one, other, c.attempt);
    assert two.pending == map[c.profile := Pending(c, 1)] && two.seen == map[];
    three := RegisterAlone(two, c.(profile := other));
  }

  /** Registering works in a table without the profile and the attempt. */
  lemma RegisterAlone(t: Table, c: Challenge) returns (after: Table)
    requires Admissible(c, 0) && c.profile !in t.pending && c.attempt !in t.seen
    requires |t.pending| < PENDING_LIMIT && |t.seen| < ATTEMPT_LIMIT
    requires forall p :: p in t.pending ==> t.pending[p].challenge.expiresAt > 0
    ensures after == AfterRegister(t, c, 1, 0)
    ensures after == Table(t.pending[c.profile := Pending(c, 1)], t.seen[c.attempt := {c.request}])
  {
    after := AfterRegister(t, c, 1, 0);
    assert Expired(t.pending, 0) == t.pending;
    hide Admissible;
    assert SeenBy(t, c.attempt) + {c.request} == {c.request};
  }

  lemma RespondAlone(t: Table, c: Challenge, value: seq<Octet>)
    requires Admissible(c, 0) && c.profile in t.pending && t.pending[c.profile] == Pending(c, 1)
    requires forall p :: p in t.pending ==> t.pending[p].challenge.expiresAt > 0
    requires 0 < |value| <= c.maxResponse && Clean(value)
    ensures Response(t, c.profile, c.attempt, 1, c.request, 0, value).Some?
    ensures AfterRespond(t, c.profile, c.attempt, 1, c.request, 0, value)
              == t.(pending := t.pending - {c.profile})
  {
    assert Expired(t.pending, 0) == t.pending;
  }
}
