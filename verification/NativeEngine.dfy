/** The engine's side of a native network plan (manager_control_network_apply in
  * src/manager_control.c): its checks of the tunnel, the resources it makes of it, and the
  * frames it emits, against what the manager admits.
  */
module NativeEngine {
  import opened CStrings
  import opened Wrappers
  import opened NativePlan
  import ControlFrame
  import EngineConfig

  const MAX_ROUTES := 127
  const MAX_DOMAIN_LENGTH := 256
  const ROUTE_IFACE_LEN := 32

  datatype SplitRoute = SplitRoute(destination: bv32, mask: bv32, gateway: bv32)

  /** The tunnel with what the system says about it: the index of its interface, zero if
    * there is none, and the address of its peer.
    */
  datatype Tunnel = Tunnel(
    iface: string, index: nat, local: bv32, gatewayIp: bv32, transport: bv32,
    setRoutes: bool, routes: seq<SplitRoute>,
    setDns: bool, suffix: Option<string>, ns1: bv32, ns2: bv32)

  // ---- checks

  /** The ones at the front of a mask, counted from a position. */
  function LeadingOnes(mask: bv32, from: nat): (bits: nat)
    requires from <= 32
    ensures from <= bits <= 32
    decreases 32 - from
  {
    if from < 32 && Bit(mask, from) then LeadingOnes(mask, from + 1) else from
  }

  predicate Bit(mask: bv32, i: nat)
    requires i < 32
  {
    mask & (1 << (31 - i)) != 0
  }

  predicate RouteAccepted(t: Tunnel, r: SplitRoute) {
    var bits := LeadingOnes(r.mask, 0);
    && bits != 0 && r.mask == Mask(bits) && And(r.destination, r.mask) == r.destination
    && And(t.gatewayIp, r.mask) != r.destination && And(t.transport, r.mask) != r.destination
  }

  predicate SuffixPartOk(domain: string) {
    0 < |domain| <= 253 && forall c :: c in domain ==> Alphanumeric(c) || c == '-' || c == '.'
  }

  predicate SuffixOk(suffix: Option<string>) {
    && suffix.Some? && 0 < |suffix.value| <= MAX_DOMAIN_LENGTH && |Split(suffix.value, ';')| <= 32
    && forall domain :: domain in Split(suffix.value, ';') ==> SuffixPartOk(domain)
  }

  function Servers(t: Tunnel): (servers: seq<bv32>)
    ensures |servers| <= 2
  {
    (if t.ns1 != 0 then [t.ns1] else []) + (if t.ns2 != 0 && t.ns2 != t.ns1 then [t.ns2] else [])
  }

  predicate HeadOk(t: Tunnel) {
    && 0 < |t.iface| < ROUTE_IFACE_LEN && (forall c :: c in t.iface ==> IfaceChar(c))
    && t.transport != 0 && t.index != 0 && t.local != 0 && t.gatewayIp != 0
  }

  /** Everything the engine checks before it emits a frame. */
  predicate EngineAccepts(t: Tunnel) {
    && HeadOk(t)
    && (t.setRoutes ==> 1 <= |t.routes| <= MAX_ROUTES && forall r :: r in t.routes ==> RouteAccepted(t, r))
    && (t.setDns ==> SuffixOk(t.suffix) && Servers(t) != [])
  }

  // ---- what is made of the tunnel

  function GatewayOf(t: Tunnel, gateway: bv32): Option<bv32> {
    if gateway == 0 || gateway == t.local then None else Some(gateway)
  }

  function RouteOf(t: Tunnel, r: SplitRoute): Resource {
    Route(r.destination, LeadingOnes(r.mask, 0), GatewayOf(t, r.gateway), t.iface, 0, false)
  }

  function RoutesOf(t: Tunnel, routes: seq<SplitRoute>): (resources: seq<Resource>)
    ensures |resources| == |routes| && forall i :: 0 <= i < |routes| ==> resources[i] == RouteOf(t, routes[i])
  {
    seq(|routes|, i requires 0 <= i < |routes| => RouteOf(t, routes[i]))
  }

  function DomainsOf(parts: seq<string>): (domains: seq<string>)
    ensures |domains| == |parts| && forall i :: 0 <= i < |parts| ==> domains[i] == Lowered(parts[i])
  {
    seq(|parts|, i requires 0 <= i < |parts| => Lowered(parts[i]))
  }

  function DnsOf(t: Tunnel): Resource
    requires t.suffix.Some?
  {
    Dns(t.iface, Servers(t), DomainsOf(Split(t.suffix.value, ';')))
  }

  function ResourcesIn(t: Tunnel): seq<Resource>
    requires EngineAccepts(t)
  {
    (if t.setRoutes then RoutesOf(t, t.routes) else []) + (if t.setDns then [DnsOf(t)] else [])
  }

  function BindingIn(t: Tunnel): Binding {
    Binding(t.iface, t.index, t.local, t.transport)
  }

  /** The frames of a plan. */
  function Emitted(request: Request, binding: Binding, resources: seq<Resource>): seq<Frame> {
    [BeginFrame(true, Some(request), |resources|, binding)]
    + seq(|resources|, i requires 0 <= i < |resources| => ResourceFrame(true, Some(request), i, resources[i]))
    + [CommitFrame(true, Some(request))]
  }

  // ---- manager_control_network_apply

  /** The loop that counts the bits of a mask. */
  method CountBits(mask: bv32) returns (bits: nat)
    ensures bits == LeadingOnes(mask, 0)
  {
    bits := 0;
    while bits < 32 && Bit(mask, bits)
      invariant bits <= 32 && LeadingOnes(mask, bits) == LeadingOnes(mask, 0)
    {
      bits := bits + 1;
    }
  }

  /** The loop over the split routes; None at the first that fails a check. */
  method BuildRoutes(t: Tunnel) returns (resources: Option<seq<Resource>>)
    ensures
      match resources
      case Some(rs) => (forall r :: r in t.routes ==> RouteAccepted(t, r)) && rs == RoutesOf(t, t.routes)
      case None => exists r :: r in t.routes && !RouteAccepted(t, r)
  {
    var built := [];
    for i := 0 to |t.routes|
      invariant forall k :: 0 <= k < i ==> RouteAccepted(t, t.routes[k])
      invariant built == RoutesOf(t, t.routes[..i])
    {
      var r := t.routes[i];
      assert r in t.routes;
      var bits := CountBits(r.mask);
      hide LeadingOnes, Mask, And;
      if bits == 0 || r.mask != Mask(bits) || And(r.destination, r.mask) != r.destination
         || And(t.gatewayIp, r.mask) == r.destination || And(t.transport, r.mask) == r.destination {
        return None;
      }
      built := built + [Route(r.destination, bits, GatewayOf(t, r.gateway), t.iface, 0, false)];
      assert built[i] == RouteOf(t, r);
    }
    assert t.routes[..|t.routes|] == t.routes;
    resources := Some(built);
  }

  method PartOk(part: string) returns (ok: bool)
    ensures ok == SuffixPartOk(part)
  {
    if |part| == 0 || |part| > 253 {
      return false;
    }
    for i := 0 to |part|
      invariant forall k :: 0 <= k < i ==> Alphanumeric(part[k]) || part[k] == '-' || part[k] == '.'
    {
      if !(Alphanumeric(part[i]) || part[i] == '-' || part[i] == '.') {
        assert part[i] in part;
        return false;
      }
    }
    ok := true;
  }

  /** The loop over the parts of the search suffix. */
  method SplitSuffix(suffix: string) returns (domains: Option<seq<string>>)
    requires suffix != ""
    ensures
      var parts := Split(suffix, ';');
      match domains
      case Some(ds) => |parts| <= 32 && (forall p :: p in parts ==> SuffixPartOk(p)) && ds == DomainsOf(parts)
      case None => |parts| > 32 || exists p :: p in parts && !SuffixPartOk(p)
  {
    var found := [];
    ghost var before: seq<string> := [];
    ghost var parts := Split(suffix, ';');
    var rest := suffix;
    assert parts == before + Split(rest, ';');
    DomainsSnoc([], "");
    hide SuffixPartOk, Split, Lowered, DomainsOf;
    while true
      invariant parts == before + Split(rest, ';')
      invariant |found| <= 32 && (forall p :: p in before ==> SuffixPartOk(p)) && found == DomainsOf(before)
      decreases |rest|
    {
      var end := IndexOf(rest, ';');
      var part := rest[..end];
      NextPart(parts, before, rest);
      var ok := PartOk(part);
      if !ok || |found| >= 32 {
        return None;
      }
      DomainsSnoc(before, part);
      found := found + [Lowered(part)];
      before := before + [part];
      if end == |rest| {
        return Some(found);
      }
      rest := rest[end + 1..];
      if rest == "" {
        NextPart(parts, before, rest);
        EmptyPart();
        return None;
      }
    }
  }

  lemma NextPart(parts: seq<string>, before: seq<string>, rest: string)
    requires parts == before + Split(rest, ';')
    ensures
      var end := IndexOf(rest, ';');
      && |parts| > |before| && parts[|before|] == rest[..end] && rest[..end] in parts
      && (end == |rest| ==> parts == before + [rest[..end]])
      && (end < |rest| ==> parts == before + [rest[..end]] + Split(rest[end + 1..], ';'))
  {
    SplitHead(rest, ';');
    hide Split, IndexOf;
    var end := IndexOf(rest, ';');
    var more := if end < |rest| then Split(rest[end + 1..], ';') else [];
    assert parts == before + [rest[..end]] + more;
    assert parts[|before|] == rest[..end];
  }

  lemma SplitHead(s: string, c: char)
    ensures
      var end := IndexOf(s, c);
      Split(s, c) == [s[..end]] + (if end < |s| then Split(s[end + 1..], c) else [])
  {
    assert s[..|s|] == s;
  }

  lemma DomainsSnoc(before: seq<string>, part: string)
    ensures DomainsOf([]) == []
    ensures DomainsOf(before + [part]) == DomainsOf(before) + [Lowered(part)]
  {
  }

  lemma EmptyPart()
    ensures !SuffixPartOk("")
  {
  }

  /** The checks in their order, and the loops that emit. */
  method NetworkApply(t: Tunnel, request: Request) returns (frames: Option<seq<Frame>>)
    ensures frames == if EngineAccepts(t) then Some(Emitted(request, BindingIn(t), ResourcesIn(t))) else None
  {
    frames := None;
    if t.transport == 0 || t.index == 0 || t.local == 0 || t.gatewayIp == 0 {
      return;
    }
    var named := IfaceOk(t.iface);
    if !named {
      return;
    }
    var resources := [];
    if t.setRoutes {
      if |t.routes| < 1 || |t.routes| > MAX_ROUTES {
        return;
      }
      var routes := BuildRoutes(t);
      if routes.None? {
        return;
      }
      resources := routes.value;
    }
    hide RouteAccepted, SuffixPartOk, RoutesOf, DomainsOf, Split;
    assert !t.setRoutes ==> resources == [];
    if t.setDns {
      if t.suffix.None? || t.suffix.value == "" || |t.suffix.value| > MAX_DOMAIN_LENGTH {
        return;
      }
      var domains := SplitSuffix(t.suffix.value);
      if domains.None? || Servers(t) == [] {
        return;
      }
      resources := resources + [Dns(t.iface, Servers(t), domains.value)];
    }
    assert EngineAccepts(t) && resources == ResourcesIn(t);
    hide ResourcesIn, EngineAccepts;
    var emitted := EmitPlan(request, BindingIn(t), resources);
    frames := Some(emitted);
  }

  method IfaceOk(iface: string) returns (ok: bool)
    ensures ok == (0 < |iface| < ROUTE_IFACE_LEN && forall c :: c in iface ==> IfaceChar(c))
  {
    if |iface| == 0 || |iface| >= ROUTE_IFACE_LEN {
      return false;
    }
    for i := 0 to |iface|
      invariant forall k :: 0 <= k < i ==> IfaceChar(iface[k])
    {
      if !IfaceChar(iface[i]) {
        assert iface[i] in iface;
        return false;
      }
    }
    ok := true;
  }

  /** The emitting loop. */
  method EmitPlan(request: Request, binding: Binding, resources: seq<Resource>) returns (frames: seq<Frame>)
    ensures frames == Emitted(request, binding, resources)
  {
    frames := [BeginFrame(true, Some(request), |resources|, binding)];
    for i := 0 to |resources|
      invariant frames == [BeginFrame(true, Some(request), |resources|, binding)]
                          + seq(i, k requires 0 <= k < i => ResourceFrame(true, Some(request), k, resources[k]))
    {
      frames := frames + [ResourceFrame(true, Some(request), i, resources[i])];
    }
    frames := frames + [CommitFrame(true, Some(request))];
  }

  // ---- what is admitted

  /** No two routes to the same network, no gateway but the tunnel's own, labels of domain
    * names that are not empty, not longer than 63 characters and do not begin or end with a
    * hyphen, and an interface index of 31 bits.
    */
  predicate Admissible(t: Tunnel) {
    && t.index <= MAX_INDEX
    && (t.setRoutes ==> NoDuplicates(t.routes) && OwnGateways(t))
    && (t.setDns && t.suffix.Some? ==>
          forall domain :: domain in Split(t.suffix.value, ';') ==> GoodDomain(domain))
  }

  predicate OwnGateways(t: Tunnel) {
    forall r :: r in t.routes ==> r.gateway == 0 || r.gateway == t.local
  }

  predicate NoDuplicates(routes: seq<SplitRoute>) {
    forall i, j :: 0 <= i < j < |routes| ==>
      !(routes[i].destination == routes[j].destination && routes[i].mask == routes[j].mask)
  }

  predicate GoodLabel(part: string) {
    0 < |part| <= 63 && part[0] != '-' && part[|part| - 1] != '-'
  }

  predicate GoodDomain(domain: string) {
    forall part :: part in Split(domain, '.') ==> GoodLabel(part)
  }

  lemma {:induction false} SplitLowered(s: string)
    ensures Split(Lowered(s), '.') == DomainsOf(Split(s, '.'))
    decreases |s|
  {
    var i := IndexOf(s, '.');
    var t := Lowered(s);
    DotLowered(s);
    SplitHead(s, '.');
    SplitHead(t, '.');
    hide Split, IndexOf;
    assert t[..i] == Lowered(s[..i]);
    if i < |s| {
      SplitLowered(s[i + 1..]);
      assert t[i + 1..] == Lowered(s[i + 1..]);
      hide Lowered;
      DomainsCons(s[..i], Split(s[i + 1..], '.'));
    } else {
      hide Lowered;
      DomainsCons(s[..i], []);
    }
  }

  lemma DomainsCons(part: string, parts: seq<string>)
    ensures DomainsOf([part] + parts) == [Lowered(part)] + DomainsOf(parts)
    ensures DomainsOf([]) == []
  {
    hide Lowered;
  }

  lemma DotLowered(s: string)
    ensures IndexOf(Lowered(s), '.') == IndexOf(s, '.')
  {
    var i, k := IndexOf(s, '.'), IndexOf(Lowered(s), '.');
    assert forall j :: 0 <= j < |s| ==> (Lowered(s)[j] == '.' <==> s[j] == '.');
  }

  /** A part the engine lets through becomes a domain the manager accepts exactly when its
    * labels are good.
    */
  lemma DomainAdmitted(part: string)
    requires SuffixPartOk(part)
    ensures DomainOk(Lowered(part)) <==> GoodDomain(part)
  {
    var labels := Split(part, '.');
    SplitLowered(part);
    LabelChars(part);
    assert Lowered(Lowered(part)) == Lowered(part);
    forall l | l in labels ensures LabelOk(Lowered(l)) <==> GoodLabel(l) {
      LabelLowered(l);
    }
    hide Split, LabelOk, GoodLabel, Lowered;
    AllLabels(labels);
  }

  lemma AllLabels(labels: seq<string>)
    requires forall l :: l in labels ==> (LabelOk(Lowered(l)) <==> GoodLabel(l))
    ensures (forall l :: l in DomainsOf(labels) ==> LabelOk(l)) <==> (forall l :: l in labels ==> GoodLabel(l))
  {
    hide LabelOk, GoodLabel, Lowered;
    var domains := DomainsOf(labels);
    forall l | l in labels ensures Lowered(l) in domains {
      var k :| 0 <= k < |labels| && labels[k] == l;
      assert domains[k] == Lowered(l);
    }
    forall d | d in domains ensures exists l :: l in labels && d == Lowered(l) {
      var k :| 0 <= k < |domains| && domains[k] == d;
      assert labels[k] in labels;
    }
  }

  lemma LabelLowered(l: string)
    requires forall c :: c in l ==> Alphanumeric(c) || c == '-'
    ensures LabelOk(Lowered(l)) <==> GoodLabel(l)
  {
    assert forall c :: c in Lowered(l) ==> Alphanumeric(c) || c == '-';
    assert forall i :: 0 <= i < |l| ==> (Lowered(l)[i] == '-' <==> l[i] == '-');
  }

  lemma LabelChars(part: string)
    requires forall c :: c in part ==> Alphanumeric(c) || c == '-' || c == '.'
    ensures forall l, c :: l in Split(part, '.') && c in l ==> Alphanumeric(c) || c == '-'
  {
    SplitFrom(part);
  }

  lemma {:induction false} SplitFrom(s: string)
    ensures forall l, c :: l in Split(s, '.') && c in l ==> c in s && c != '.'
    decreases |s|
  {
    var i := IndexOf(s, '.');
    if i < |s| {
      SplitFrom(s[i + 1..]);
      assert forall c :: c in s[i + 1..] ==> c in s;
    }
    assert forall c :: c in s[..i] ==> c in s;
  }

  // ---- whatever plan the engine emits

  lemma EmittedParts(request: Request, binding: Binding, resources: seq<Resource>)
    ensures
      var frames := Emitted(request, binding, resources);
      && |frames| == |resources| + 2
      && frames[0] == BeginFrame(true, Some(request), |resources|, binding)
      && frames[|frames| - 1] == CommitFrame(true, Some(request))
      && (forall i :: 1 <= i < |frames| - 1 ==>
            frames[i] == ResourceFrame(true, Some(request), i - 1, resources[i - 1]))
      && (forall f :: f in frames[1..|frames| - 1] ==> f.ResourceFrame?)
      && ResourcesOf(frames[1..|frames| - 1]) == resources
  {
    var frames := Emitted(request, binding, resources);
    var middle := frames[1..|frames| - 1];
    assert forall i :: 0 <= i < |resources| ==> middle[i] == frames[i + 1];
  }

  /** Everything the manager checks of the contents of a plan. */
  predicate ManagerAccepts(owner: Owner, binding: Binding, resources: seq<Resource>) {
    OwnerOk(owner) && BindingOk(binding) && PlanOk(resources, binding)
  }

  /** Emitted frames are admitted completely exactly when owner, binding and contents are sound:
    * their order and numbers always are.
    */
  lemma EmittedAdmitted(owner: Owner, request: Request, binding: Binding, resources: seq<Resource>)
    ensures
      var end := AdmitAll(owner, Emitted(request, binding, resources));
      end.Some? && end.value.committed <==> ManagerAccepts(owner, binding, resources)
  {
    var frames := Emitted(request, binding, resources);
    EmittedParts(request, binding, resources);
    AdmittedExactly(owner, frames);
    assert PlanOk(resources, binding) ==> |resources| <= MAX_RESOURCES;
    hide AdmitAll, Emitted, PlanOk, OwnerOk, BindingOk;
    var front := frames[..|frames| - 1];
    assert front[0] == frames[0] && forall i :: 1 <= i < |front| ==> front[i] == frames[i];
  }

  lemma BindingAdmitted(t: Tunnel)
    requires HeadOk(t)
    ensures BindingOk(BindingIn(t)) <==> t.index <= MAX_INDEX
  {
  }

  lemma IfaceIsClean(t: Tunnel)
    requires HeadOk(t)
    ensures 0 < |t.iface| <= 128 && forall c :: c in t.iface ==> !Control(c)
  {
  }

  lemma RouteAdmitted(t: Tunnel, r: SplitRoute)
    requires HeadOk(t) && RouteAccepted(t, r)
    ensures ResourceValid(RouteOf(t, r))
    ensures ResourceFits(RouteOf(t, r), BindingIn(t)) <==> r.gateway == 0 || r.gateway == t.local
  {
    IfaceIsClean(t);
    hide LeadingOnes, Mask, And;
  }

  lemma DnsAdmitted(t: Tunnel)
    requires HeadOk(t) && SuffixOk(t.suffix) && Servers(t) != []
    ensures ResourceValid(DnsOf(t)) <==> forall domain :: domain in Split(t.suffix.value, ';') ==> GoodDomain(domain)
    ensures ResourceValid(DnsOf(t)) ==> ResourceFits(DnsOf(t), BindingIn(t))
  {
    IfaceIsClean(t);
    var parts := Split(t.suffix.value, ';');
    forall part | part in parts ensures DomainOk(Lowered(part)) <==> GoodDomain(part) {
      DomainAdmitted(part);
    }
    AllDomains(parts);
    hide DomainOk, GoodDomain, SuffixPartOk, Split, Lowered;
  }

  lemma AllDomains(parts: seq<string>)
    requires forall part :: part in parts ==> (DomainOk(Lowered(part)) <==> GoodDomain(part))
    ensures (forall d :: d in DomainsOf(parts) ==> DomainOk(d)) <==> (forall part :: part in parts ==> GoodDomain(part))
  {
    hide DomainOk, GoodDomain, Lowered;
    var domains := DomainsOf(parts);
    forall part | part in parts ensures Lowered(part) in domains {
      var k :| 0 <= k < |parts| && parts[k] == part;
      assert domains[k] == Lowered(part);
    }
    forall d | d in domains ensures exists part :: part in parts && d == Lowered(part) {
      var k :| 0 <= k < |domains| && domains[k] == d;
      assert parts[k] in parts;
    }
  }

  lemma RoutesDistinct(t: Tunnel)
    requires forall r :: r in t.routes ==> RouteAccepted(t, r) && (r.gateway == 0 || r.gateway == t.local)
    ensures Distinct(RoutesOf(t, t.routes)) <==> NoDuplicates(t.routes)
  {
    var resources := RoutesOf(t, t.routes);
    forall i, j | 0 <= i < j < |t.routes|
      ensures resources[i] == resources[j] <==>
              t.routes[i].destination == t.routes[j].destination && t.routes[i].mask == t.routes[j].mask
    {
      assert t.routes[i] in t.routes && t.routes[j] in t.routes;
      hide LeadingOnes, Mask, And, RoutesOf;
    }
    hide RoutesOf, RouteAccepted;
  }

  lemma AppendDistinct(a: seq<Resource>, b: Resource)
    requires b !in a
    ensures Distinct(a + [b]) <==> Distinct(a)
  {
    if Distinct(a + [b]) {
      forall i, j | 0 <= i < j < |a| ensures a[i] != a[j] {
        assert (a + [b])[i] != (a + [b])[j];
      }
    }
  }

  /** Binding and resources the engine makes of a tunnel pass the manager's checks exactly if
    * the tunnel is admissible and the owner is fit for a plan.
    */
  lemma PlanAdmitted(owner: Owner, t: Tunnel)
    requires EngineAccepts(t)
    ensures ManagerAccepts(owner, BindingIn(t), ResourcesIn(t)) <==> OwnerOk(owner) && Admissible(t)
  {
    BindingAdmitted(t);
    var b := BindingIn(t);
    var routes := if t.setRoutes then RoutesOf(t, t.routes) else [];
    if t.setRoutes {
      RoutesPass(t);
    }
    if t.setDns {
      DnsAdmitted(t);
      hide DnsOf, RoutesOf, RouteAccepted, BindingIn, ResourceValid, ResourceFits;
      assert DnsOf(t) !in routes by {
        NotADns(t);
      }
      AppendDistinct(routes, DnsOf(t));
    } else {
      assert routes + [] == routes;
    }
    hide ResourceValid, ResourceFits, Distinct, NoDuplicates, GoodDomain, DnsOf, RoutesOf;
    hide BindingOk, RouteAccepted, OwnerOk;
  }

  lemma NotADns(t: Tunnel)
    ensures t.suffix.Some? ==> DnsOf(t) !in RoutesOf(t, t.routes)
  {
  }

  /** The routes alone pass exactly if there are no two to one network and no foreign gateway. */
  lemma RoutesPass(t: Tunnel)
    requires HeadOk(t) && forall r :: r in t.routes ==> RouteAccepted(t, r)
    ensures
      var routes := RoutesOf(t, t.routes);
      (Distinct(routes) && forall r :: r in routes ==> ResourceValid(r) && ResourceFits(r, BindingIn(t))) <==>
        NoDuplicates(t.routes) && OwnGateways(t)
  {
    RoutesAdmitted(t);
    hide ResourceValid, ResourceFits, Distinct, NoDuplicates, RoutesOf, RouteAccepted, BindingIn;
    if OwnGateways(t) {
      RoutesDistinct(t);
    }
  }

  lemma RoutesAdmitted(t: Tunnel)
    requires HeadOk(t) && forall r :: r in t.routes ==> RouteAccepted(t, r)
    ensures
      (forall r :: r in RoutesOf(t, t.routes) ==> ResourceValid(r) && ResourceFits(r, BindingIn(t))) <==>
        (forall r :: r in t.routes ==> r.gateway == 0 || r.gateway == t.local)
    ensures forall r :: r in RoutesOf(t, t.routes) ==> r.Route?
  {
    var resources := RoutesOf(t, t.routes);
    forall r | r in t.routes
      ensures ResourceValid(RouteOf(t, r)) && RouteOf(t, r) in resources
      ensures ResourceFits(RouteOf(t, r), BindingIn(t)) <==> r.gateway == 0 || r.gateway == t.local
    {
      RouteAdmitted(t, r);
      var k :| 0 <= k < |t.routes| && t.routes[k] == r;
      assert resources[k] == RouteOf(t, r);
    }
    forall x | x in resources ensures exists r :: r in t.routes && x == RouteOf(t, r) {
      var k :| 0 <= k < |resources| && resources[k] == x;
      assert t.routes[k] in t.routes;
    }
    hide ResourceValid, ResourceFits, RoutesOf, RouteAccepted, BindingIn;
    assert forall r :: RouteOf(t, r).Route?;
  }

  /** For every tunnel the engine's checks let through, the frames it emits are admitted and
    * committed exactly if the tunnel is admissible and the manager's own identities of attempt
    * and profile are fit for a plan.
    */
  lemma EmittedIsAdmittedExactly(owner: Owner, t: Tunnel, request: Request)
    requires EngineAccepts(t)
    ensures
      var end := AdmitAll(owner, Emitted(request, BindingIn(t), ResourcesIn(t)));
      end.Some? && end.value.committed <==> OwnerOk(owner) && Admissible(t)
  {
    EmittedAdmitted(owner, request, BindingIn(t), ResourcesIn(t));
    PlanAdmitted(owner, t);
    hide EngineAccepts, Admissible, AdmitAll, Emitted, ManagerAccepts, OwnerOk;
  }

  /** The identity of an attempt always is. */
  lemma AttemptIsFit(attempt: string)
    requires ControlFrame.ValidAttempt(attempt)
    ensures IdOk(attempt)
  {
    assert forall i :: 0 <= i < |attempt| ==> IdChar(attempt[i]);
  }

  /** For the attempts of a profile that is valid in the catalog, that is: exactly if the
    * tunnel is admissible and the profile's identifier has only letters, digits, hyphens and
    * underscores, which the catalog does not ask for.
    */
  lemma AdmittedForProfileExactly(attempt: string, p: EngineConfig.Profile, t: Tunnel, request: Request)
    requires ControlFrame.ValidAttempt(attempt) && EngineConfig.ValidProfile(p) && EngineAccepts(t)
    ensures
      var end := AdmitAll(Owner(attempt, p.id), Emitted(request, BindingIn(t), ResourcesIn(t)));
      end.Some? && end.value.committed <==> Admissible(t) && forall c :: c in p.id ==> IdChar(c)
  {
    AttemptIsFit(attempt);
    EmittedIsAdmittedExactly(Owner(attempt, p.id), t, request);
    assert p.id != "" && |p.id| <= 128;
    hide EngineAccepts, Admissible, AdmitAll, Emitted, ControlFrame.ValidAttempt, EngineConfig.ValidProfile, IdChar;
  }

  // ---- plans that are emitted and refused

  predicate EmittedAndRefused(owner: Owner, t: Tunnel, request: Request) {
    && EngineAccepts(t)
    && var end := AdmitAll(owner, Emitted(request, BindingIn(t), ResourcesIn(t)));
       !(end.Some? && end.value.committed)
  }

  /** A tunnel to 203.0.113.1 with the address 192.168.0.2 and nothing to set. */
  const QUIET := Tunnel("ppp0", 7, 0xc0a8_0002, 0xcb00_7101, 0xcb00_7101, false, [], false, None, 0, 0)

  /** The lower half of all addresses. */
  function HalfRoute(gateway: bv32): SplitRoute {
    SplitRoute(0, 0x8000_0000, gateway)
  }

  lemma HalfAccepted(t: Tunnel, gateway: bv32)
    requires t.gatewayIp == t.transport == 0xcb00_7101
    ensures RouteAccepted(t, HalfRoute(gateway))
  {
    assert Bit(0x8000_0000, 0) && !Bit(0x8000_0000, 1);
    assert LeadingOnes(0x8000_0000, 0) == 1;
    assert Mask(1) == 0x8000_0000;
    assert And(0, 0x8000_0000) == 0 && And(0xcb00_7101, 0x8000_0000) != 0;
    hide LeadingOnes, Mask, And;
  }

  /** A profile that is valid in the catalog. */
  function ProfileNamed(id: string): EngineConfig.Profile {
    EngineConfig.Profile(id, id, "vpn", 443, "", "", "", true, true, false, false)
  }

  lemma StartsWithText(text: string)
    requires text != "" && !EngineConfig.IsSpace(text[0])
    ensures !EngineConfig.Blank(text)
  {
    assert text[0] in text;
  }

  lemma NamedIsValid(id: string)
    requires 0 < |id| <= 16 && !EngineConfig.IsSpace(id[0]) && EngineConfig.OneLine(id)
    ensures EngineConfig.ValidProfile(ProfileNamed(id))
  {
    var p := ProfileNamed(id);
    StartsWithText(id);
    StartsWithText(p.host);
    hide EngineConfig.Blank;
    assert EngineConfig.OneLine(p.host) && EngineConfig.OneLine("");
    hide EngineConfig.OneLine, EngineConfig.IsSpace;
    assert |"__remote_access_token"| == 21;
  }

  lemma CatalogTakes(id: string)
    requires id == "my.vpn" || id == "my vpn"
    ensures EngineConfig.ValidProfile(ProfileNamed(id)) && exists c :: c in id && !IdChar(c)
  {
    assert forall i :: 0 <= i < |id| ==> id[i] >= ' ';
    NamedIsValid(id);
    hide EngineConfig.ValidProfile;
    assert id[2] in id;
  }

  /** A profile that is valid in the catalog and has an identifier with a dot or a space:
    * every plan of it is refused.
    */
  lemma ProfileIdRefused(attempt: string, id: string, t: Tunnel, request: Request)
    requires ControlFrame.ValidAttempt(attempt) && EngineAccepts(t) && (id == "my.vpn" || id == "my vpn")
    ensures EngineConfig.ValidProfile(ProfileNamed(id)) && EmittedAndRefused(Owner(attempt, id), t, request)
  {
    CatalogTakes(id);
    hide EngineConfig.ValidProfile, ControlFrame.ValidAttempt, EngineAccepts, IdChar;
    AdmittedForProfileExactly(attempt, ProfileNamed(id), t, request);
    hide AdmitAll, Emitted, ResourcesIn, Admissible;
  }

  /** The same route twice. */
  lemma DuplicateRouteRefused(owner: Owner, request: Request)
    ensures EmittedAndRefused(owner, QUIET.(setRoutes := true, routes := [HalfRoute(0), HalfRoute(0)]), request)
  {
    var t := QUIET.(setRoutes := true, routes := [HalfRoute(0), HalfRoute(0)]);
    HalfAccepted(t, 0);
    assert EngineAccepts(t);
    EmittedIsAdmittedExactly(owner, t, request);
    hide AdmitAll, Emitted, EngineAccepts, ResourcesIn;
    assert t.routes[0].mask == t.routes[1].mask;
  }

  /** A route through another gateway than the tunnel. */
  lemma ForeignGatewayRefused(owner: Owner, request: Request)
    ensures EmittedAndRefused(owner, QUIET.(setRoutes := true, routes := [HalfRoute(1)]), request)
  {
    var t := QUIET.(setRoutes := true, routes := [HalfRoute(1)]);
    HalfAccepted(t, 1);
    assert EngineAccepts(t);
    EmittedIsAdmittedExactly(owner, t, request);
    hide AdmitAll, Emitted, EngineAccepts, ResourcesIn;
    assert t.routes[0] in t.routes && t.routes[0].gateway == 1;
  }

  /** A search suffix with an empty label, and one with a label that begins with a hyphen. */
  lemma BadLabelRefused(owner: Owner, request: Request, suffix: string)
    requires suffix == "a..b" || suffix == "-x"
    ensures EmittedAndRefused(owner, QUIET.(setDns := true, suffix := Some(suffix), ns1 := 1), request)
  {
    var t := QUIET.(setDns := true, suffix := Some(suffix), ns1 := 1);
    assert IndexOf(suffix, ';') == |suffix|;
    assert Split(suffix, ';') == [suffix];
    assert SuffixPartOk(suffix);
    var bad := if suffix == "-x" then "-x" else "";
    assert bad in Split(suffix, '.') by {
      BadLabel();
    }
    assert !GoodLabel(bad);
    assert !GoodDomain(suffix);
    assert suffix in Split(suffix, ';');
    hide Split, SuffixPartOk, GoodDomain;
    assert EngineAccepts(t) && !Admissible(t);
    EmittedIsAdmittedExactly(owner, t, request);
    hide AdmitAll, Emitted, EngineAccepts, ResourcesIn, Admissible;
  }

  lemma BadLabel()
    ensures "" in Split("a..b", '.') && "-x" in Split("-x", '.')
  {
    var s := "a..b";
    assert IndexOf(s, '.') == 1 && s[..1] == "a" && s[2..] == ".b" && IndexOf(".b", '.') == 0;
    assert Split(".b", '.')[0] == "";
    assert Split(s, '.') == ["a"] + Split(".b", '.');
    assert Split(s, '.')[1] == "";
    assert IndexOf("-x", '.') == 2;
    assert Split("-x", '.') == ["-x"];
  }
}
