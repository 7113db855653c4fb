/** The manager's admission of a native network plan (crates/manager-core/src/network_control.rs
  * and Plan::validate in crates/manager-core/src/network.rs): frames, resources and the
  * checks of their contents. Addresses are numbers in host order; their text and the JSON
  * around it are not modelled.
  */
module NativePlan {
  import opened CStrings
  import opened Wrappers
  import Handshake = NativeHandshake

  const MAX_RESOURCES := 128
  const MAX_INDEX := 0x7fff_ffff

  type Request = Handshake.Request

  // ---- who a plan is for

  /** The attempt and the profile the manager gives an admission. */
  datatype Owner = Owner(attempt: string, profile: string)

  predicate IdChar(c: char) {
    Alphanumeric(c) || c == '-' || c == '_'
  }

  predicate IdOk(id: string) {
    0 < |id| <= 128 && forall c :: c in id ==> IdChar(c)
  }

  /** Plan::validate of the identities. */
  predicate OwnerOk(owner: Owner) {
    IdOk(owner.attempt) && IdOk(owner.profile)
  }

  // ---- resources

  datatype Binding = Binding(iface: string, index: nat, local: bv32, transport: bv32)

  datatype Resource =
    | Route(destination: bv32, bits: nat, gateway: Option<bv32>, iface: string, metric: nat, exception: bool)
    | Dns(iface: string, servers: seq<bv32>, domains: seq<string>)

  function And(a: bv32, b: bv32): bv32 {
    a & b
  }

  /** The mask of a prefix of this length. */
  function Mask(bits: nat): bv32
    requires bits <= 32
  {
    if bits == 0 then 0 else 0xffff_ffff << (32 - bits)
  }

  predicate Alphanumeric(c: char) {
    'a' <= c <= 'z' || 'A' <= c <= 'Z' || '0' <= c <= '9'
  }

  predicate IfaceChar(c: char) {
    Alphanumeric(c) || c == '_' || c == '-' || c == '.'
  }

  function Lower(c: char): char {
    if 'A' <= c <= 'Z' then c - 'A' + 'a' else c
  }

  function Lowered(s: string): (t: string)
    ensures |t| == |s| && forall i :: 0 <= i < |s| ==> t[i] == Lower(s[i])
  {
    seq(|s|, i requires 0 <= i < |s| => Lower(s[i]))
  }

  predicate LabelOk(part: string) {
    && 0 < |part| <= 63 && part[0] != '-' && part[|part| - 1] != '-'
    && forall c :: c in part ==> Alphanumeric(c) || c == '-'
  }

  predicate DomainOk(domain: string) {
    && 0 < |domain| <= 253 && domain == Lowered(domain)
    && forall part :: part in Split(domain, '.') ==> LabelOk(part)
  }

  predicate Control(c: char) {
    c < ' ' || '\U{7f}' <= c <= '\U{9f}'
  }

  /** Plan::validate of one resource. */
  predicate ResourceValid(r: Resource) {
    && 0 < |r.iface| <= 128 && (forall c :: c in r.iface ==> !Control(c))
    && match r
       case Route(destination, bits, _, _, _, _) => bits <= 32 && And(destination, Mask(bits)) == destination
       case Dns(_, servers, domains) =>
         0 < |servers| <= 4 && |domains| <= 32 && forall domain :: domain in domains ==> DomainOk(domain)
  }

  /** What the commit asks of one valid resource. */
  predicate ResourceFits(r: Resource, b: Binding)
    requires ResourceValid(r)
  {
    match r
    case Route(destination, bits, gateway, iface, metric, exception) =>
      && iface == b.iface && gateway.None? && !exception && metric == 0
      && bits != 0 && And(b.transport, Mask(bits)) != destination
    case Dns(iface, _, domains) => iface == b.iface && domains != []
  }

  predicate Distinct(resources: seq<Resource>) {
    forall i, j :: 0 <= i < j < |resources| ==> resources[i] != resources[j]
  }

  predicate PlanOk(resources: seq<Resource>, b: Binding) {
    && |resources| <= MAX_RESOURCES && Distinct(resources)
    && forall r :: r in resources ==> ResourceValid(r) && ResourceFits(r, b)
  }

  predicate BindingOk(b: Binding) {
    && 0 < |b.iface| <= 31 && (forall c :: c in b.iface ==> IfaceChar(c))
    && 0 < b.index <= MAX_INDEX && b.local != 0 && b.transport != 0
  }

  // ---- admission

  /** bound: the frame carries the protocol version and the identity of this attempt. */
  datatype Frame =
    | BeginFrame(bound: bool, request: Option<Request>, count: nat, binding: Binding)
    | ResourceFrame(bound: bool, request: Option<Request>, ordinal: nat, resource: Resource)
    | CommitFrame(bound: bool, request: Option<Request>)

  datatype Admission = Admission(
    owner: Owner, request: Option<Request>, binding: Option<Binding>, resources: seq<Resource>, expected: nat,
    committed: bool)

  /** Admission::new. */
  function Begun(owner: Owner): Admission {
    Admission(owner, None, None, [], 0, false)
  }

  /** Admission::observe. */
  function Admit(a: Admission, f: Frame): Option<Admission> {
    if !f.bound || a.committed || f.request.None? then None
    else
      match f
      case BeginFrame(_, request, count, binding) =>
        if a.request.Some? || count > MAX_RESOURCES || !BindingOk(binding) then None
        else Some(a.(request := request, binding := Some(binding), expected := count))
      case ResourceFrame(_, request, ordinal, resource) =>
        if a.request != request || ordinal != |a.resources| || |a.resources| >= a.expected then None
        else Some(a.(resources := a.resources + [resource]))
      case CommitFrame(_, request) =>
        if a.request != request || |a.resources| != a.expected then None
        else if a.binding.None? || !OwnerOk(a.owner) || !PlanOk(a.resources, a.binding.value) then None
        else Some(a.(committed := true))
  }

  function AdmitAll(owner: Owner, frames: seq<Frame>): Option<Admission> {
    if frames == [] then Some(Begun(owner))
    else
      match AdmitAll(owner, frames[..|frames| - 1])
      case None => None
      case Some(a) => Admit(a, frames[|frames| - 1])
  }

  // ---- the handshake's view of it

  function PlanOf(a: Admission): Handshake.Plan {
    Handshake.Plan(a.request, a.expected, |a.resources|, a.committed)
  }

  /** The event of a frame, with the checks of its contents as one flag. */
  function EventOf(a: Admission, f: Frame): Handshake.Event {
    match f
    case BeginFrame(bound, request, count, binding) =>
      Handshake.Event(Handshake.Begin, Handshake.Accepted, bound, request, BindingOk(binding), true, false, count)
    case ResourceFrame(bound, request, ordinal, _) =>
      Handshake.Event(Handshake.Resource, Handshake.Accepted, bound, request, true, true, false, ordinal)
    case CommitFrame(bound, request) =>
      var valid := a.binding.Some? && OwnerOk(a.owner) && PlanOk(a.resources, a.binding.value);
      Handshake.Event(Handshake.Commit, Handshake.Accepted, bound, request, valid, true, false, 0)
  }

  /** The handshake's admission, which only knows one flag of the contents, is this one. */
  lemma HandshakeObserves(a: Admission, f: Frame)
    ensures
      Handshake.Observe(PlanOf(a), EventOf(a, f)) ==
        match Admit(a, f)
        case None => None
        case Some(next) => Some((PlanOf(next), next.committed))
  {
    hide PlanOk, OwnerOk, BindingOk;
  }

  // ---- which frames complete a plan

  predicate Begins(f: Frame) {
    f.BeginFrame? && f.bound && f.request.Some? && f.count <= MAX_RESOURCES && BindingOk(f.binding)
  }

  /** A beginning and its resources, numbered from zero without a gap. */
  predicate Underway(frames: seq<Frame>) {
    && |frames| > 0 && Begins(frames[0]) && |frames| - 1 <= frames[0].count
    && forall i :: 1 <= i < |frames| ==>
         && frames[i].ResourceFrame? && frames[i].bound && frames[i].request == frames[0].request
         && frames[i].ordinal == i - 1
  }

  function ResourcesOf(frames: seq<Frame>): (resources: seq<Resource>)
    requires forall f :: f in frames ==> f.ResourceFrame?
    ensures |resources| == |frames| && forall i :: 0 <= i < |frames| ==> resources[i] == frames[i].resource
  {
    seq(|frames|, i requires 0 <= i < |frames| => frames[i].resource)
  }

  /** ... with all its resources and the commit, and an owner and contents that pass all checks. */
  predicate Complete(owner: Owner, frames: seq<Frame>) {
    && |frames| > 1 && Underway(frames[..|frames| - 1]) && |frames| - 2 == frames[0].count
    && frames[|frames| - 1].CommitFrame? && frames[|frames| - 1].bound
    && frames[|frames| - 1].request == frames[0].request
    && OwnerOk(owner) && PlanOk(ResourcesOf(frames[1..|frames| - 1]), frames[0].binding)
  }

  /** What an admission says about the frames it has admitted. */
  predicate Describes(owner: Owner, frames: seq<Frame>, a: Admission) {
    if frames == [] then a == Begun(owner)
    else if a.committed then Complete(owner, frames)
    else
      && Underway(frames)
      && a == Admission(
           owner, frames[0].request, Some(frames[0].binding), ResourcesOf(frames[1..]), frames[0].count, false)
  }

  lemma AdmitNext(owner: Owner, frames: seq<Frame>, a: Admission, f: Frame)
    requires Describes(owner, frames, a)
    ensures
      match Admit(a, f)
      case None => !Underway(frames + [f]) && !Complete(owner, frames + [f])
      case Some(next) => Describes(owner, frames + [f], next)
  {
    var all := frames + [f];
    assert all[|frames|] == f && all[..|frames|] == frames;
    if frames != [] {
      assert all[0] == frames[0];
      FrontUnderway(owner, all);
      hide PlanOk, OwnerOk, BindingOk;
      if !a.committed {
        assert all[1..|all| - 1] == frames[1..];
        assert all[1..] == frames[1..] + [f];
        if f.ResourceFrame? && Admit(a, f).Some? {
          assert ResourcesOf(all[1..]) == ResourcesOf(frames[1..]) + [f.resource];
        }
      }
    }
  }

  /** The front of a plan under way or complete is a plan under way, or empty. */
  lemma FrontUnderway(owner: Owner, frames: seq<Frame>)
    requires frames != []
    ensures
      var earlier := frames[..|frames| - 1];
      && (Underway(frames) ==> earlier == [] || Underway(earlier))
      && (Complete(owner, frames) ==> earlier != [] && Underway(earlier))
      && (Underway(frames) || Complete(owner, frames) ==> !Complete(owner, earlier))
  {
    hide PlanOk, OwnerOk, BindingOk;
  }

  lemma {:induction false} Admitted(owner: Owner, frames: seq<Frame>)
    ensures
      match AdmitAll(owner, frames)
      case None => !Underway(frames) && !Complete(owner, frames)
      case Some(a) => Describes(owner, frames, a)
  {
    if frames != [] {
      var last := |frames| - 1;
      var earlier := frames[..last];
      Admitted(owner, earlier);
      FrontUnderway(owner, frames);
      assert frames == earlier + [frames[last]];
      if AdmitAll(owner, earlier).Some? {
        AdmitNext(owner, earlier, AdmitAll(owner, earlier).value, frames[last]);
      }
      hide Underway, Complete, Admit, Describes;
    }
  }

  lemma NotBoth(owner: Owner, frames: seq<Frame>)
    ensures !(Underway(frames) && Complete(owner, frames))
  {
    hide PlanOk, OwnerOk, BindingOk;
  }

  /** The admission completes on exactly the sequences of frames that begin a plan of at most
    * 128 resources, number all of them in order and commit it, all for one request, with a
    * sound binding and resources that pass all checks; any frame that is repeated, missing,
    * reordered or of another request is refused, and so is every plan of an owner whose
    * identities have other characters than letters, digits, hyphens and underscores.
    */
  lemma AdmittedExactly(owner: Owner, frames: seq<Frame>)
    ensures AdmitAll(owner, frames).Some? && AdmitAll(owner, frames).value.committed <==> Complete(owner, frames)
  {
    Admitted(owner, frames);
    NotBoth(owner, frames);
    assert Complete(owner, frames) ==> frames != [];
    hide AdmitAll, Underway, Complete;
  }
}
