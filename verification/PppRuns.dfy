/** What holds of the PPP engine's replies and over every run of incoming packets. */
module PppRuns {
  import opened Wrappers
  import opened Ppp

  // ---- option lists

  predicate AreOptions(options: seq<Bytes>) {
    forall o :: o in options ==> IsOption(o)
  }

  lemma WalkCons(o: Bytes, rest: Bytes)
    requires IsOption(o)
    ensures Walk(o + rest) == [o] + Walk(rest)
  {
    assert (o + rest)[1] == o[1];
    assert (o + rest)[..|o|] == o;
    assert (o + rest)[|o|..] == rest;
  }

  /** Walking over printed options gives them back. */
  lemma {:induction false} WalkFlatten(options: seq<Bytes>)
    requires AreOptions(options)
    ensures Walk(Flatten(options)) == options
  {
    if options != [] {
      WalkFlatten(options[1..]);
      WalkCons(options[0], Flatten(options[1..]));
      assert options == [options[0]] + options[1..];
    }
  }

  /** The visited options are the front of the text; what is left is not an option. */
  lemma {:induction false} FlattenWalk(opts: Bytes)
    ensures |Flatten(Walk(opts))| <= |opts| && opts[..|Flatten(Walk(opts))|] == Flatten(Walk(opts))
    ensures Walk(opts[|Flatten(Walk(opts))|..]) == []
  {
    if |opts| < 2 || opts[1] < 2 || opts[1] > |opts| {
      assert opts[0..] == opts;
    } else {
      var n := opts[1];
      FlattenWalk(opts[n..]);
      var front := Flatten(Walk(opts[n..]));
      assert Walk(opts)[1..] == Walk(opts[n..]);
      assert opts[..n] + opts[n..][..|front|] == opts[..n + |front|];
      assert opts[n..][|front|..] == opts[n + |front|..];
    }
  }

  /** A Configure-Request of LCP is acknowledged with the same options exactly when no
    * visited option is unwanted; otherwise the reply rejects exactly the unwanted ones, in
    * their order. The reply has the identifier of the request and its own true length.
    */
  lemma RequestAnswered(c: Context, payload: Bytes, bigEndian: bool)
    requires |payload| >= 4 && payload[0] == CONF_REQ && 4 <= Word(payload, 2) <= |payload|
    ensures
      var options := payload[4..Word(payload, 2)];
      var reply := Lcp(c, payload, bigEndian).1;
      var unwanted := exists o :: o in Walk(options) && Unwanted(o);
      && Lcp(c, payload, bigEndian).0 == c && reply.ret == Ok
      && |reply.response| >= 6 && Word(reply.response, 0) == PPP_PROTO_LCP
      && reply.response[3] == payload[1] && Word(reply.response, 4) == |reply.response| - 2
      && (!unwanted ==> reply.response[2] == CONF_ACK && reply.response[6..] == options)
      && (unwanted ==> reply.response[2] == CONF_REJ && Walk(reply.response[6..]) == Rejected(Walk(options)))
  {
    var options := payload[4..Word(payload, 2)];
    ScanPayload(payload, Collect);
    var rejected := Rejected(Walk(options));
    WalkFlatten(rejected);
    RejectsShorter(options);
    if rejected == [] {
      assert forall o :: o in Walk(options) ==> !Unwanted(o);
      PacketParts(PPP_PROTO_LCP, CONF_ACK, payload[1], options);
    } else {
      assert rejected[0] in Walk(options);
      assert |Flatten(rejected)| >= |rejected[0]|;
      PacketParts(PPP_PROTO_LCP, CONF_REJ, payload[1], Flatten(rejected));
    }
    hide Scan, Walk, Rejected, Flatten, ControlPacket, Unwanted;
  }

  lemma PacketParts(protocol: nat, code: Octet, id: Octet, options: Bytes)
    requires protocol < 0x10000 && |options| < 0x10000 - 4
    ensures
      var packet := ControlPacket(protocol, code, id, options);
      && |packet| == 6 + |options| && Word(packet, 0) == protocol && packet[2] == code && packet[3] == id
      && Word(packet, 4) == |packet| - 2 && packet[6..] == options
  {
  }

  lemma {:induction false} FlattenRejectedShorter(options: seq<Bytes>)
    ensures |Flatten(Rejected(options))| <= |Flatten(options)|
  {
    if options != [] {
      FlattenRejectedShorter(options[1..]);
      if Unwanted(options[0]) {
        assert Rejected(options)[1..] == Rejected(options[1..]);
      }
    }
  }

  lemma RejectsShorter(opts: Bytes)
    ensures |Flatten(Rejected(Walk(opts)))| <= |opts|
  {
    FlattenRejectedShorter(Walk(opts));
    FlattenWalk(opts);
  }

  // ---- the bounds of the data

  /** A loop whose bound lies inside the data visits the well-formed options before it. */
  lemma {:induction false} ScanInside(rest: Bytes, bound: nat, pos: nat, use: Use)
    requires pos <= bound <= |rest|
    ensures Scan(rest, bound, pos, use) == Some(Walk(rest[pos..bound]))
    decreases bound - pos
  {
    var text := rest[pos..bound];
    match TurnAt(rest, bound, pos, use)
    case Leave =>
    case Outside =>
    case Visit(end) =>
      ScanInside(rest, bound, end, use);
      assert text[..text[1]] == rest[pos..end];
      assert text[text[1]..] == rest[end..bound];
      hide Scan, TurnAt;
  }

  lemma ScanPayload(payload: Bytes, use: Use)
    requires |payload| >= 4 && 4 <= Word(payload, 2) <= |payload|
    ensures Scan(payload[4..], OptionsLength(Word(payload, 2)), 0, use) == Some(Walk(payload[4..Word(payload, 2)]))
  {
    var length := Word(payload, 2);
    ScanInside(payload[4..], length - 4, 0, use);
    assert payload[4..][0..length - 4] == payload[4..length];
    hide Scan, Walk;
  }

  /** The well-formed options are followed by one, inside the data, of length zero or one. */
  predicate Stops(rest: Bytes) {
    |rest| >= 2 && (rest[1] < 2 || (rest[1] <= |rest| && Stops(rest[rest[1]..])))
  }

  /** A loop whose bound has wrapped around stays inside the data exactly when such an
    * option stops it.
    */
  lemma {:induction false} ScanWrapped(rest: Bytes, bound: nat, pos: nat, use: Use)
    requires pos <= |rest| && |rest| + 257 <= bound
    ensures Scan(rest, bound, pos, use) == if Stops(rest[pos..]) then Some(Walk(rest[pos..])) else None
    decreases |rest| - pos
  {
    var text := rest[pos..];
    match TurnAt(rest, bound, pos, use)
    case Leave =>
    case Outside =>
    case Visit(end) =>
      if end <= |rest| {
        ScanWrapped(rest, bound, end, use);
        assert text[..text[1]] == rest[pos..end];
        assert text[text[1]..] == rest[end..];
      } else {
        assert TurnAt(rest, bound, end, use) == Outside;
      }
  }

  /** The packets on which the C code leaves the data. size_t wraps around below a Length of
    * four: LCP Configure-Naks and IPCP Configure-Requests are then always copied beyond
    * the end; an LCP Configure-Request is, unless an option stops the loop and something is
    * rejected; IPCP Configure-Naks and Configure-Rejects are read beyond the end unless an
    * option stops the loop.
    */
  predicate LeavesData(data: Bytes) {
    && |data| >= 6 && Word(data, 4) < 4
    && (|| (Word(data, 0) == PPP_PROTO_LCP && data[2] == CONF_NAK)
        || (Word(data, 0) == PPP_PROTO_IPCP && data[2] == CONF_REQ)
        || (Word(data, 0) == PPP_PROTO_LCP && data[2] == CONF_REQ
            && !(Stops(data[6..]) && exists o :: o in Walk(data[6..]) && Unwanted(o)))
        || (Word(data, 0) == PPP_PROTO_IPCP && (data[2] == CONF_NAK || data[2] == CONF_REJ) && !Stops(data[6..])))
  }

  /** Sizes of packets are 16 bits wide where the function is called. */
  lemma LcpOverruns(c: Context, payload: Bytes, bigEndian: bool)
    requires |payload| <= 0xffff
    ensures
      Lcp(c, payload, bigEndian).1.ret == Overrun <==>
        && |payload| >= 4 && Word(payload, 2) < 4
        && (|| payload[0] == CONF_NAK
            || (payload[0] == CONF_REQ
                && !(Stops(payload[4..]) && exists o :: o in Walk(payload[4..]) && Unwanted(o))))
  {
    if |payload| >= 4 && Word(payload, 2) <= |payload| {
      var rest, bound := payload[4..], OptionsLength(Word(payload, 2));
      if Word(payload, 2) < 4 {
        ScanWrapped(rest, bound, 0, Collect);
        assert rest[0..] == rest;
        SomeRejected(Walk(rest));
      } else {
        ScanPayload(payload, Collect);
      }
    }
    hide Scan, Walk, Rejected, Flatten, ControlPacket, AskedFirst, Mru, Unwanted, Stops;
  }

  lemma SomeRejected(options: seq<Bytes>)
    ensures Flatten(Rejected(options)) != [] <==> exists o :: o in options && Unwanted(o)
  {
    var r := Rejected(options);
    if r != [] {
      assert r[0] in r && |r[0]| >= 2;
    }
  }

  lemma IpcpOverruns(c: Context, payload: Bytes)
    requires |payload| <= 0xffff
    ensures
      Ipcp(c, payload).1.ret == Overrun <==>
        && |payload| >= 4 && Word(payload, 2) < 4
        && (payload[0] == CONF_REQ || ((payload[0] == CONF_NAK || payload[0] == CONF_REJ) && !Stops(payload[4..])))
  {
    if |payload| >= 4 && Word(payload, 2) <= |payload| {
      var rest, bound := payload[4..], OptionsLength(Word(payload, 2));
      if Word(payload, 2) < 4 {
        ScanWrapped(rest, bound, 0, Addresses);
        ScanWrapped(rest, bound, 0, Kinds);
        assert rest[0..] == rest;
      } else {
        ScanPayload(payload, Peer);
        ScanPayload(payload, Addresses);
        ScanPayload(payload, Kinds);
      }
    }
    hide Scan, Walk, ControlPacket, Asked, Mentions, LastAddress, Named, Stops;
  }

  lemma OverrunExactly(c: Context, data: Bytes, bigEndian: bool)
    requires |data| <= 0xffff
    ensures Process(c, data, bigEndian).1.ret == Overrun <==> LeavesData(data)
  {
    if |data| >= 2 {
      var payload := data[2..];
      LcpOverruns(c, payload, bigEndian);
      IpcpOverruns(c, payload);
      assert |data| >= 6 ==> Word(payload, 2) == Word(data, 4) && payload[4..] == data[6..];
      hide Lcp, Ipcp, Word, Stops, Walk, Unwanted, ControlPacket;
    }
  }

  /** Two packets with a Length of zero: a Configure-Nak of IPCP without options leaves the
    * data; one followed by an option of length zero is answered with a request.
    */
  lemma ShortNaks(c: Context, bigEndian: bool)
    ensures Process(c, [0x80, 0x21, CONF_NAK, 0, 0, 0], bigEndian).1.ret == Overrun
    ensures Process(c, [0x80, 0x21, CONF_NAK, 0, 0, 0, 0, 0], bigEndian).1.ret == Ok
  {
    var short, stopped: Bytes := [0x80, 0x21, CONF_NAK, 0, 0, 0], [0x80, 0x21, CONF_NAK, 0, 0, 0, 0, 0];
    OverrunExactly(c, short, bigEndian);
    OverrunExactly(c, stopped, bigEndian);
    assert short[6..] == [] && !Stops([]);
    assert stopped[6..] == [0, 0] && Stops([0, 0]);
    assert Word(short, 0) == Word(stopped, 0) == PPP_PROTO_IPCP && Word(short, 4) == Word(stopped, 4) == 0;
    assert |stopped[2..]| == 6 && Word(stopped[2..], 2) == 0 && stopped[2..][0] == CONF_NAK;
    hide Scan, Walk, Stops, Word, Asked, Mentions, ControlPacket, LastAddress, Named;
  }

  /** A Configure-Request of LCP with a Length of zero is answered with a Configure-Reject
    * if its data is an unwanted option and one of length zero.
    */
  lemma ShortRequest(c: Context, bigEndian: bool)
    ensures
      var data: Bytes := [0xc0, 0x21, CONF_REQ, 0, 0, 0, LCP_OPT_PFC, 2, 0, 0];
      Process(c, data, bigEndian).1 == Answer(ControlPacket(PPP_PROTO_LCP, CONF_REJ, 0, [LCP_OPT_PFC, 2]))
  {
    var payload: Bytes := [CONF_REQ, 0, 0, 0, LCP_OPT_PFC, 2, 0, 0];
    var data: Bytes := [0xc0, 0x21, CONF_REQ, 0, 0, 0, LCP_OPT_PFC, 2, 0, 0];
    assert data[2..] == payload && Word(payload, 2) == 0 && Word(data, 0) == PPP_PROTO_LCP;
    var rest: Bytes := [LCP_OPT_PFC, 2, 0, 0];
    assert payload[4..] == rest;
    ScanWrapped(rest, OptionsLength(0), 0, Collect);
    assert rest[0..] == rest && rest[2..] == [0, 0] && rest[..2] == [LCP_OPT_PFC, 2];
    var tail: Bytes := [0, 0];
    assert Walk(tail) == [] && Stops(tail);
    assert Walk(rest) == [[LCP_OPT_PFC, 2]] + Walk(tail);
    var option: Bytes := [LCP_OPT_PFC, 2];
    assert [option][1..] == [];
    assert Rejected([option]) == [option];
    assert Flatten([option]) == option + [];
    hide Scan, Walk, Stops, Rejected, Flatten, ControlPacket;
  }

  // ---- runs

  function Run(c: Context, packets: seq<Bytes>, bigEndian: bool): Context {
    if packets == [] then c
    else Process(Run(c, packets[..|packets| - 1], bigEndian), packets[|packets| - 1], bigEndian).0
  }

  function ReplyTo(c: Context, packets: seq<Bytes>, k: nat, bigEndian: bool): Reply
    requires k < |packets|
  {
    Process(Run(c, packets[..k], bigEndian), packets[k], bigEndian).1
  }

  function Rank(p: Phase): nat {
    match p
    case Initial => 0
    case LcpSent => 1
    case LcpOpen => 2
    case IpcpSent => 3
    case IpcpOpen => 4
    case Terminated => 5
  }

  predicate Forward(c: Context, after: Context, reply: Reply) {
    && Rank(c.phase) <= Rank(after.phase)
    && (reply.ret == Negotiate <==> c.phase == IpcpSent && after.phase == IpcpOpen)
    && after.complete == (c.complete || reply.ret == Negotiate)
    && (reply.ret == TerminatedNow ==> after.phase == Terminated)
  }

  lemma LcpForward(c: Context, payload: Bytes, bigEndian: bool)
    ensures Forward(c, Lcp(c, payload, bigEndian).0, Lcp(c, payload, bigEndian).1)
  {
    hide Scan, Rejected, Flatten, ControlPacket, AskedFirst, Mru, Word;
  }

  lemma IpcpForward(c: Context, payload: Bytes)
    ensures Forward(c, Ipcp(c, payload).0, Ipcp(c, payload).1)
  {
    hide Scan, ControlPacket, Asked, Mentions, LastAddress, Word;
  }

  /** What one packet does to the phase. */
  lemma StepForward(c: Context, data: Bytes, bigEndian: bool)
    ensures Forward(c, Process(c, data, bigEndian).0, Process(c, data, bigEndian).1)
  {
    if |data| >= 2 {
      LcpForward(c, data[2..], bigEndian);
      IpcpForward(c, data[2..]);
    }
    hide Lcp, Ipcp, ControlPacket, Word;
  }

  lemma {:induction false} RunForward(c: Context, packets: seq<Bytes>, i: nat, bigEndian: bool)
    requires i <= |packets|
    ensures Rank(Run(c, packets[..i], bigEndian).phase) <= Rank(Run(c, packets, bigEndian).phase)
  {
    if i == |packets| {
      assert packets[..i] == packets;
    } else {
      var earlier := packets[..|packets| - 1];
      assert earlier[..i] == packets[..i];
      RunForward(c, earlier, i, bigEndian);
      StepForward(Run(c, earlier, bigEndian), packets[|packets| - 1], bigEndian);
    }
  }

  /** In every run the phase never moves backwards, so that a terminated link stays
    * terminated.
    */
  lemma NeverBackwards(c: Context, packets: seq<Bytes>, i: nat, j: nat, bigEndian: bool)
    requires i <= j <= |packets|
    ensures
      var before, after := Run(c, packets[..i], bigEndian).phase, Run(c, packets[..j], bigEndian).phase;
      Rank(before) <= Rank(after) && (before == Terminated ==> after == Terminated)
  {
    assert packets[..j][..i] == packets[..i];
    RunForward(c, packets[..j], i, bigEndian);
  }

  /** In every run the negotiation is reported complete at most once. */
  lemma NegotiatesOnce(c: Context, packets: seq<Bytes>, i: nat, j: nat, bigEndian: bool)
    requires i < j < |packets|
    ensures !(ReplyTo(c, packets, i, bigEndian).ret == Negotiate && ReplyTo(c, packets, j, bigEndian).ret == Negotiate)
  {
    StepForward(Run(c, packets[..i], bigEndian), packets[i], bigEndian);
    StepForward(Run(c, packets[..j], bigEndian), packets[j], bigEndian);
    assert packets[..i + 1][..i] == packets[..i];
    NeverBackwards(c, packets, i + 1, j, bigEndian);
    hide Process;
  }

  /** The flag says whether the report was made. */
  lemma {:induction false} CompleteExactly(c: Context, packets: seq<Bytes>, bigEndian: bool)
    requires !c.complete
    ensures Run(c, packets, bigEndian).complete <==>
              exists k :: 0 <= k < |packets| && ReplyTo(c, packets, k, bigEndian).ret == Negotiate
  {
    if packets != [] {
      var last := |packets| - 1;
      var earlier := packets[..last];
      CompleteExactly(c, earlier, bigEndian);
      StepForward(Run(c, earlier, bigEndian), packets[last], bigEndian);
      hide Process;
      assert ReplyTo(c, packets, last, bigEndian) == Process(Run(c, earlier, bigEndian), packets[last], bigEndian).1;
      forall k | 0 <= k < last
        ensures ReplyTo(c, earlier, k, bigEndian) == ReplyTo(c, packets, k, bigEndian)
      {
        assert earlier[..k] == packets[..k];
      }
    }
  }

  // ---- what is asked for

  /** Every option is an address that the context has for its type. */
  predicate Matches(options: Bytes, c: Context) {
    forall o :: o in Walk(options) ==> MatchesOption(o, c)
  }

  predicate MatchesOption(o: Bytes, c: Context) {
    || o == AddressOption(IPCP_OPT_IP_ADDR, c.localIp)
    || o == AddressOption(IPCP_OPT_DNS_PRI, c.dnsPrimary)
    || o == AddressOption(IPCP_OPT_DNS_SEC, c.dnsSecondary)
  }

  lemma WalkThree(a: seq<Bytes>, b: seq<Bytes>, d: seq<Bytes>)
    requires AreOptions(a) && AreOptions(b) && AreOptions(d)
    ensures Walk(Flatten(a) + Flatten(b) + Flatten(d)) == a + b + d
  {
    FlattenAppend(a, b);
    FlattenAppend(a + b, d);
    WalkFlatten(a + b + d);
  }

  function Single(chosen: bool, o: Bytes): seq<Bytes> {
    if chosen then [o] else []
  }

  lemma FlattenSingle(chosen: bool, o: Bytes)
    ensures Flatten(Single(chosen, o)) == if chosen then o else []
  {
    assert [o][1..] == [];
  }

  lemma AskedMatches(c: Context, ip: bool, primary: bool, secondary: bool)
    ensures Matches(Asked(c, ip, primary, secondary), c)
  {
    var a := Single(ip, AddressOption(IPCP_OPT_IP_ADDR, c.localIp));
    var b := Single(primary, AddressOption(IPCP_OPT_DNS_PRI, c.dnsPrimary));
    var d := Single(secondary, AddressOption(IPCP_OPT_DNS_SEC, c.dnsSecondary));
    WalkThree(a, b, d);
    FlattenSingle(ip, AddressOption(IPCP_OPT_IP_ADDR, c.localIp));
    FlattenSingle(primary, AddressOption(IPCP_OPT_DNS_PRI, c.dnsPrimary));
    FlattenSingle(secondary, AddressOption(IPCP_OPT_DNS_SEC, c.dnsSecondary));
    hide Walk, Flatten, AddressOption;
  }

  predicate SameBackwards(a: Address) {
    a[0] == a[3] && a[1] == a[2]
  }

  predicate Palindromic(c: Context) {
    SameBackwards(c.localIp) && SameBackwards(c.dnsPrimary) && SameBackwards(c.dnsSecondary)
  }

  /** The request sent on the LCP acknowledgement asks for the context's addresses exactly
    * when the machine is big-endian or each address reads the same backwards.
    */
  lemma FirstMatchesExactly(c: Context, bigEndian: bool)
    ensures Matches(AskedFirst(c, bigEndian), c) <==> bigEndian || Palindromic(c)
  {
    var a := AddressOption(IPCP_OPT_IP_ADDR, Shifted(c.localIp, bigEndian));
    var b := AddressOption(IPCP_OPT_DNS_PRI, Shifted(c.dnsPrimary, bigEndian));
    var d := AddressOption(IPCP_OPT_DNS_SEC, Shifted(c.dnsSecondary, bigEndian));
    WalkThree([a], [b], [d]);
    FlattenSingle(true, a);
    FlattenSingle(true, b);
    FlattenSingle(true, d);
    hide Walk, Flatten;
    var all := [a] + [b] + [d];
    assert all == [a, b, d];
    assert AskedFirst(c, bigEndian) == a + b + d;
    OptionSame(IPCP_OPT_IP_ADDR, c.localIp, bigEndian);
    OptionSame(IPCP_OPT_DNS_PRI, c.dnsPrimary, bigEndian);
    OptionSame(IPCP_OPT_DNS_SEC, c.dnsSecondary, bigEndian);
    assert a[0] == IPCP_OPT_IP_ADDR && b[0] == IPCP_OPT_DNS_PRI && d[0] == IPCP_OPT_DNS_SEC;
    assert AddressOption(IPCP_OPT_IP_ADDR, c.localIp)[0] == IPCP_OPT_IP_ADDR;
    assert AddressOption(IPCP_OPT_DNS_PRI, c.dnsPrimary)[0] == IPCP_OPT_DNS_PRI;
    assert AddressOption(IPCP_OPT_DNS_SEC, c.dnsSecondary)[0] == IPCP_OPT_DNS_SEC;
    assert a in all && b in all && d in all;
  }

  lemma OptionSame(kind: Octet, a: Address, bigEndian: bool)
    ensures AddressOption(kind, Shifted(a, bigEndian)) == AddressOption(kind, a) <==> bigEndian || SameBackwards(a)
  {
    var o, p := AddressOption(kind, Shifted(a, bigEndian)), AddressOption(kind, a);
    assert o[2..] == Shifted(a, bigEndian) && p[2..] == a;
  }

  // ---- the last request of a run

  /** The options of an IPCP Configure-Request in a response, if that is what it is. */
  function RequestIn(response: Bytes): Option<Bytes> {
    if |response| >= 6 && Word(response, 0) == PPP_PROTO_IPCP && response[2] == CONF_REQ then Some(response[6..])
    else None
  }

  /** The options of the last IPCP Configure-Request of a run. */
  function LastRequest(c: Context, packets: seq<Bytes>, bigEndian: bool): Option<Bytes> {
    if packets == [] then None
    else
      var last := |packets| - 1;
      var request := RequestIn(ReplyTo(c, packets, last, bigEndian).response);
      if request.Some? then request else LastRequest(c, packets[..last], bigEndian)
  }

  predicate Early(p: Phase) {
    p == Initial || p == LcpSent
  }

  /** The packet can make the engine take over addresses, whatever its Length. */
  predicate IsNak(data: Bytes) {
    && |data| >= 6 && Word(data, 0) == PPP_PROTO_IPCP && data[2] == CONF_NAK
    && Word(data, 4) <= |data| - 2
  }

  /** No IPCP Configure-Nak comes before the LCP acknowledgement. */
  predicate NoEarlyNak(c: Context, packets: seq<Bytes>, bigEndian: bool) {
    forall k :: 0 <= k < |packets| && Early(Run(c, packets[..k], bigEndian).phase) ==> !IsNak(packets[k])
  }

  predicate NoAddresses(c: Context) {
    c.localIp == ZERO && c.dnsPrimary == ZERO && c.dnsSecondary == ZERO
  }

  predicate SameAddresses(c: Context, d: Context) {
    c.localIp == d.localIp && c.dnsPrimary == d.dnsPrimary && c.dnsSecondary == d.dnsSecondary
  }

  lemma PacketRequest(protocol: nat, code: Octet, id: Octet, options: Bytes)
    requires protocol < 0x10000
    ensures RequestIn(ControlPacket(protocol, code, id, options))
              == if protocol == PPP_PROTO_IPCP && code == CONF_REQ then Some(options) else None
  {
    var packet := ControlPacket(protocol, code, id, options);
    assert packet[6..] == options;
  }

  lemma LcpRequest(c: Context, payload: Bytes, bigEndian: bool)
    ensures
      var (after, reply) := Lcp(c, payload, bigEndian);
      && SameAddresses(c, after)
      && (RequestIn(reply.response).Some? ==>
            Early(c.phase) && !Early(after.phase) && RequestIn(reply.response).value == AskedFirst(c, bigEndian))
  {
    if |payload| >= 4 && Word(payload, 2) <= |payload| {
      var id, size := payload[1], OptionsLength(Word(payload, 2));
      match Scan(payload[4..], size, 0, Collect) {
        case Some(options) => PacketRequest(PPP_PROTO_LCP, CONF_REJ, id, Flatten(Rejected(options)));
        case None =>
      }
      if size <= |payload| - 4 {
        PacketRequest(PPP_PROTO_LCP, CONF_ACK, id, payload[4..4 + size]);
        PacketRequest(PPP_PROTO_LCP, CONF_REQ, c.lcpId, payload[4..4 + size]);
      }
      PacketRequest(PPP_PROTO_LCP, CONF_REQ, c.lcpId, Mru(c));
      PacketRequest(PPP_PROTO_LCP, TERM_ACK, id, []);
      PacketRequest(PPP_PROTO_LCP, ECHO_REP, id, c.magic);
      PacketRequest(PPP_PROTO_IPCP, CONF_REQ, c.ipcpId, AskedFirst(c, bigEndian));
    }
    assert RequestIn([]).None?;
    hide Scan, Rejected, Flatten, ControlPacket, AskedFirst, Mru, RequestIn, Word;
  }

  lemma NakRequest(c: Context, options: seq<Bytes>)
    ensures
      var named := Named(c, options).(ipcpId := Up(c.ipcpId));
      var request := RequestIn(ControlPacket(PPP_PROTO_IPCP, CONF_REQ, c.ipcpId, Asked(named, true, true, true)));
      request.Some? && Matches(request.value, named)
  {
    var named := Named(c, options).(ipcpId := Up(c.ipcpId));
    PacketRequest(PPP_PROTO_IPCP, CONF_REQ, c.ipcpId, Asked(named, true, true, true));
    AskedMatches(named, true, true, true);
    hide ControlPacket, Asked, RequestIn, Matches, Named;
  }

  lemma RejectRequest(c: Context, ip: bool, primary: bool, secondary: bool)
    ensures
      var request := RequestIn(ControlPacket(PPP_PROTO_IPCP, CONF_REQ, c.ipcpId, Asked(c, ip, primary, secondary)));
      request.Some? && Matches(request.value, c.(ipcpId := Up(c.ipcpId)))
  {
    PacketRequest(PPP_PROTO_IPCP, CONF_REQ, c.ipcpId, Asked(c, ip, primary, secondary));
    AskedMatches(c, ip, primary, secondary);
    SameMatches(Asked(c, ip, primary, secondary), c, c.(ipcpId := Up(c.ipcpId)));
    hide ControlPacket, Asked, RequestIn, Matches;
  }

  lemma IpcpRequest(c: Context, payload: Bytes)
    ensures
      var (after, reply) := Ipcp(c, payload);
      && (RequestIn(reply.response).Some? ==> Matches(RequestIn(reply.response).value, after))
      && (RequestIn(reply.response).None? ==> SameAddresses(c, after))
      && (!(|payload| >= 4 && payload[0] == CONF_NAK && Word(payload, 2) <= |payload|) ==> SameAddresses(c, after))
  {
    hide Scan, ControlPacket, Asked, Mentions, Word, Matches, LastAddress, Named;
    assert RequestIn([]).None?;
    hide RequestIn;
    if |payload| >= 4 && Word(payload, 2) <= |payload| {
      var id, size := payload[1], OptionsLength(Word(payload, 2));
      if payload[0] == CONF_NAK {
        var options := Scan(payload[4..], size, 0, Addresses);
        if options.Some? {
          NakRequest(c, options.value);
        }
      } else if payload[0] == CONF_REJ {
        var options := Scan(payload[4..], size, 0, Kinds);
        if options.Some? {
          RejectRequest(c, !Mentions(options.value, IPCP_OPT_IP_ADDR), !Mentions(options.value, IPCP_OPT_DNS_PRI),
                        !Mentions(options.value, IPCP_OPT_DNS_SEC));
        }
      } else if payload[0] == CONF_REQ {
        if size <= |payload| - 4 {
          PacketRequest(PPP_PROTO_IPCP, CONF_ACK, id, payload[4..4 + size]);
        }
      } else {
        PacketRequest(PPP_PROTO_IPCP, TERM_ACK, id, []);
      }
    }
  }

  lemma SameMatches(options: Bytes, c: Context, d: Context)
    requires SameAddresses(c, d) && Matches(options, c)
    ensures Matches(options, d)
  {
  }

  lemma StepRequest(c: Context, data: Bytes, bigEndian: bool)
    ensures
      var (after, reply) := Process(c, data, bigEndian);
      var request := RequestIn(reply.response);
      && (request.Some? ==>
            || Matches(request.value, after)
            || (Early(c.phase) && !Early(after.phase) && request.value == AskedFirst(c, bigEndian)))
      && (request.None? || !IsNak(data) ==> SameAddresses(c, after))
  {
    if |data| >= 2 {
      LcpRequest(c, data[2..], bigEndian);
      IpcpRequest(c, data[2..]);
      var rejected := if |data| > REJECT_LIMIT then data[..REJECT_LIMIT] else data;
      PacketRequest(PPP_PROTO_LCP, PROTO_REJ, c.lcpId, rejected);
      assert |data| >= 6 ==> Word(data[2..], 2) == Word(data, 4);
    }
    assert RequestIn([]).None?;
    hide Lcp, Ipcp, ControlPacket, AskedFirst, RequestIn, Word, Matches;
  }

  /** In every run from a context without addresses in which no IPCP Configure-Nak, however
    * short, comes before the LCP acknowledgement, all options of the last IPCP Configure-Request are
    * the addresses that the context has now.
    */
  lemma {:induction false} LastRequestMatches(c: Context, packets: seq<Bytes>, bigEndian: bool)
    requires NoAddresses(c) && NoEarlyNak(c, packets, bigEndian)
    ensures
      var now := Run(c, packets, bigEndian);
      var request := LastRequest(c, packets, bigEndian);
      && (Early(now.phase) ==> NoAddresses(now))
      && (request.Some? ==> Matches(request.value, now))
  {
    if packets != [] {
      var last := |packets| - 1;
      var earlier := packets[..last];
      assert NoEarlyNak(c, earlier, bigEndian) by {
        assert forall k :: 0 <= k < last ==> earlier[..k] == packets[..k];
        hide Early, IsNak, Run;
      }
      LastRequestMatches(c, earlier, bigEndian);
      var before := Run(c, earlier, bigEndian);
      var now := Run(c, packets, bigEndian);
      StepRequest(before, packets[last], bigEndian);
      StepForward(before, packets[last], bigEndian);
      FirstMatchesExactly(before, bigEndian);
      var request := LastRequest(c, earlier, bigEndian);
      assert SameAddresses(before, now) && request.Some? ==> Matches(request.value, now) by {
        if SameAddresses(before, now) && request.Some? {
          SameMatches(request.value, before, now);
        }
      }
      if Early(before.phase) {
        SameMatchesFirst(before, now, bigEndian);
      }
      hide Process, Matches, RequestIn, AskedFirst, IsNak;
    }
  }

  lemma SameMatchesFirst(c: Context, d: Context, bigEndian: bool)
    requires NoAddresses(c)
    ensures SameAddresses(c, d) ==> Matches(AskedFirst(c, bigEndian), d)
  {
    FirstMatchesExactly(c, bigEndian);
    if SameAddresses(c, d) {
      SameMatches(AskedFirst(c, bigEndian), c, d);
    }
  }

  predicate IsLcp(data: Bytes) {
    |data| >= 2 && Word(data, 0) == PPP_PROTO_LCP
  }

  /** The packet that the last IPCP Configure-Request of a run answers. */
  function LastAnswered(c: Context, packets: seq<Bytes>, bigEndian: bool): (data: Option<Bytes>)
    ensures data.Some? <==> LastRequest(c, packets, bigEndian).Some?
  {
    if packets == [] then None
    else
      var last := |packets| - 1;
      if RequestIn(ReplyTo(c, packets, last, bigEndian).response).Some? then Some(packets[last])
      else LastAnswered(c, packets[..last], bigEndian)
  }

  lemma StepExactly(c: Context, data: Bytes, bigEndian: bool)
    ensures
      var (after, reply) := Process(c, data, bigEndian);
      var request := RequestIn(reply.response);
      && (request.None? ==> SameAddresses(c, after))
      && (request.Some? ==>
            (Matches(request.value, after) <==> !IsLcp(data) || bigEndian || Palindromic(after)))
  {
    var (after, reply) := Process(c, data, bigEndian);
    StepRequest(c, data, bigEndian);
    if |data| >= 2 && IsLcp(data) {
      LcpRequest(c, data[2..], bigEndian);
      FirstMatchesExactly(c, bigEndian);
      SameMatchesOnly(AskedFirst(c, bigEndian), c, after);
    } else if |data| >= 2 {
      NotFirst(c, data, bigEndian);
    }
    hide Lcp, Ipcp, ControlPacket, AskedFirst, RequestIn, Word, Matches;
  }

  lemma NotFirst(c: Context, data: Bytes, bigEndian: bool)
    requires |data| >= 2 && !IsLcp(data)
    ensures
      var (after, reply) := Process(c, data, bigEndian);
      var request := RequestIn(reply.response);
      request.Some? ==> Matches(request.value, after)
  {
    IpcpRequest(c, data[2..]);
    var rejected := if |data| > REJECT_LIMIT then data[..REJECT_LIMIT] else data;
    PacketRequest(PPP_PROTO_LCP, PROTO_REJ, c.lcpId, rejected);
    assert RequestIn([]).None?;
    hide Lcp, Ipcp, ControlPacket, AskedFirst, RequestIn, Word, Matches;
  }

  lemma SameMatchesOnly(options: Bytes, c: Context, d: Context)
    ensures SameAddresses(c, d) ==> (Matches(options, c) <==> Matches(options, d))
  {
    if SameAddresses(c, d) && Matches(options, c) {
      SameMatches(options, c, d);
    }
    if SameAddresses(c, d) && Matches(options, d) {
      SameMatches(options, d, c);
    }
  }

  /** In every run, from any context: all options of the last IPCP Configure-Request are the
    * addresses that the context has now exactly if that request was not the first one, which
    * answers the LCP acknowledgement, or the machine is big-endian, or all addresses read the
    * same backwards.
    */
  lemma {:induction false} LastMatchesExactly(c: Context, packets: seq<Bytes>, bigEndian: bool)
    ensures
      var now := Run(c, packets, bigEndian);
      var request := LastRequest(c, packets, bigEndian);
      request.Some? ==>
        (Matches(request.value, now)
         <==> !IsLcp(LastAnswered(c, packets, bigEndian).value) || bigEndian || Palindromic(now))
  {
    if packets != [] {
      var last := |packets| - 1;
      var earlier := packets[..last];
      LastMatchesExactly(c, earlier, bigEndian);
      var before, now := Run(c, earlier, bigEndian), Run(c, packets, bigEndian);
      StepExactly(before, packets[last], bigEndian);
      var request := LastRequest(c, earlier, bigEndian);
      if request.Some? {
        SameMatchesOnly(request.value, before, now);
      }
      hide Process, Matches, RequestIn, IsLcp;
    }
  }

  // ---- a whole session

  /** The context after ppp_init and ppp_start_negotiation. */
  function Opened(magic: Address): Context {
    Started(magic).(phase := LcpSent, lcpId := 2)
  }

  /** Initialisation, the opening request, and the packets that come in. */
  method Session(magic: Address, bigEndian: bool, packets: seq<Bytes>)
    returns (first: Bytes, replies: seq<Reply>, last: Context)
    ensures first == FirstRequest(Started(magic))
    ensures |replies| == |packets|
    ensures forall k :: 0 <= k < |packets| ==> replies[k] == ReplyTo(Opened(magic), packets, k, bigEndian)
    ensures last == Run(Opened(magic), packets, bigEndian)
  {
    var engine := new PppContext(magic, bigEndian);
    first := engine.StartNegotiation();
    replies := [];
    hide Process, FirstRequest;
    assert packets[..0] == [];
    for i := 0 to |packets|
      invariant engine.bigEndian == bigEndian && |replies| == i
      invariant engine.Now() == Run(Opened(magic), packets[..i], bigEndian)
      invariant forall k :: 0 <= k < i ==> replies[k] == ReplyTo(Opened(magic), packets, k, bigEndian)
    {
      assert packets[..i + 1][..i] == packets[..i];
      var reply := engine.ProcessIncoming(packets[i]);
      replies := replies + [reply];
    }
    assert packets[..|packets|] == packets;
    last := engine.Now();
  }

  /** A session without an early Configure-Nak: the last IPCP request asks for the addresses
    * of the context, the link is complete exactly if its completion was reported, and that
    * happens once at most.
    */
  lemma SessionIsSound(magic: Address, packets: seq<Bytes>, bigEndian: bool)
    requires NoEarlyNak(Opened(magic), packets, bigEndian)
    ensures
      var c := Opened(magic);
      var now, request := Run(c, packets, bigEndian), LastRequest(c, packets, bigEndian);
      && (request.Some? ==> Matches(request.value, now))
      && (now.complete <==> exists k :: 0 <= k < |packets| && ReplyTo(c, packets, k, bigEndian).ret == Negotiate)
    ensures forall i, j :: 0 <= i < j < |packets| ==>
              !(ReplyTo(Opened(magic), packets, i, bigEndian).ret == Negotiate
                && ReplyTo(Opened(magic), packets, j, bigEndian).ret == Negotiate)
  {
    var c := Opened(magic);
    LastRequestMatches(c, packets, bigEndian);
    CompleteExactly(c, packets, bigEndian);
    forall i, j | 0 <= i < j < |packets|
      ensures !(ReplyTo(c, packets, i, bigEndian).ret == Negotiate
                && ReplyTo(c, packets, j, bigEndian).ret == Negotiate)
    {
      NegotiatesOnce(c, packets, i, j, bigEndian);
    }
    hide Run, ReplyTo, LastRequest, Matches, NoEarlyNak;
  }

  // ---- the condition is needed

  /** A Configure-Nak that names one address. */
  function NakOf(id: Octet, a: Address): Bytes {
    ControlPacket(PPP_PROTO_IPCP, CONF_NAK, id, AddressOption(IPCP_OPT_IP_ADDR, a))
  }

  function LcpAck(id: Octet): Bytes {
    ControlPacket(PPP_PROTO_LCP, CONF_ACK, id, [])
  }

  /** On a little-endian machine a Configure-Nak that comes before the LCP acknowledgement
    * and names an address that does not read the same backwards makes the engine ask for
    * another address than the one it has taken over.
    */
  lemma EarlyNakMismatch(c: Context, id: Octet, a: Address)
    requires c.phase == LcpSent && NoAddresses(c) && !SameBackwards(a)
    ensures
      var packets := [NakOf(id, a), LcpAck(id)];
      && LastRequest(c, packets, false).Some?
      && !Matches(LastRequest(c, packets, false).value, Run(c, packets, false))
  {
    var packets := [NakOf(id, a), LcpAck(id)];
    var taken := NakTaken(c, id, a);
    var first := packets[..1];
    assert first == [NakOf(id, a)] && first[..0] == [];
    assert Run(c, packets[..1], false) == taken;
    AckAnswered(taken, id);
    FirstMatchesExactly(taken, false);
    var now := Run(c, packets, false);
    if Matches(AskedFirst(taken, false), now) {
      SameMatches(AskedFirst(taken, false), now, taken);
    }
  }

  lemma NakTaken(c: Context, id: Octet, a: Address) returns (taken: Context)
    ensures taken == Process(c, NakOf(id, a), false).0
    ensures taken.phase == c.phase && taken.localIp == a
  {
    var o := AddressOption(IPCP_OPT_IP_ADDR, a);
    var data := NakOf(id, a);
    taken := Process(c, data, false).0;
    PacketParts(PPP_PROTO_IPCP, CONF_NAK, id, o);
    assert data[2..][4..10] == o;
    assert Flatten([o]) == o;
    WalkFlatten([o]);
    ScanPayload(data[2..], Addresses);
    assert LastAddress([o], IPCP_OPT_IP_ADDR, c.localIp) == o[2..6] == a;
    hide Scan, ControlPacket, Walk, LastAddress, Flatten, AddressOption, Asked;
  }

  lemma AckAnswered(c: Context, id: Octet)
    requires c.phase == LcpSent
    ensures
      var (after, reply) := Process(c, LcpAck(id), false);
      RequestIn(reply.response) == Some(AskedFirst(c, false)) && SameAddresses(c, after)
  {
    PacketParts(PPP_PROTO_LCP, CONF_ACK, id, []);
    PacketRequest(PPP_PROTO_IPCP, CONF_REQ, c.ipcpId, AskedFirst(c, false));
    var data := LcpAck(id);
    assert Word(data[2..], 2) == Word(data, 4) == 4;
    hide ControlPacket, AskedFirst, RequestIn;
  }

  // ---- following the peer

  function AddressOptions(a: Address, primary: Address, secondary: Address): seq<Bytes> {
    [AddressOption(IPCP_OPT_IP_ADDR, a), AddressOption(IPCP_OPT_DNS_PRI, primary),
     AddressOption(IPCP_OPT_DNS_SEC, secondary)]
  }

  /** A Configure-Nak of IPCP that suggests all three addresses is followed: the context
    * takes them over and the next request asks for exactly the suggested options.
    */
  lemma NakIsFollowed(c: Context, payload: Bytes, a: Address, primary: Address, secondary: Address)
    requires |payload| >= 4 && payload[0] == CONF_NAK && 4 <= Word(payload, 2) <= |payload|
    requires payload[4..Word(payload, 2)] == Flatten(AddressOptions(a, primary, secondary))
    ensures
      var (after, reply) := Ipcp(c, payload);
      && after.localIp == a && after.dnsPrimary == primary && after.dnsSecondary == secondary
      && after.peerIp == c.peerIp && after.phase == c.phase
      && RequestIn(reply.response) == Some(payload[4..Word(payload, 2)])
  {
    var options := AddressOptions(a, primary, secondary);
    TakenOver(c, a, primary, secondary);
    ScanPayload(payload, Addresses);
    var after := Named(c, options).(ipcpId := Up(c.ipcpId));
    FlattenThree(options);
    PacketRequest(PPP_PROTO_IPCP, CONF_REQ, c.ipcpId, Asked(after, true, true, true));
    hide Scan, Walk, Flatten, LastAddress, ControlPacket, RequestIn, Word, Mentions, AddressOption, Named;
  }

  lemma TakenOver(c: Context, a: Address, primary: Address, secondary: Address)
    ensures
      var options := AddressOptions(a, primary, secondary);
      && Walk(Flatten(options)) == options
      && Named(c, options) == c.(localIp := a, dnsPrimary := primary, dnsSecondary := secondary)
  {
    var options := AddressOptions(a, primary, secondary);
    WalkFlatten(options);
    LastOfThree(options, IPCP_OPT_IP_ADDR, c.localIp);
    LastOfThree(options, IPCP_OPT_DNS_PRI, c.dnsPrimary);
    LastOfThree(options, IPCP_OPT_DNS_SEC, c.dnsSecondary);
    assert options[0][2..6] == a && options[1][2..6] == primary && options[2][2..6] == secondary;
    hide Walk, Flatten, LastAddress, AddressOption;
  }

  lemma FlattenThree(options: seq<Bytes>)
    requires |options| == 3
    ensures Flatten(options) == options[0] + options[1] + options[2]
  {
    assert options[1..] == [options[1], options[2]];
    assert options[1..][1..] == [options[2]];
    assert options[1..][1..][1..] == [];
    assert Flatten([options[2]]) == options[2] + [];
  }

  lemma LastOfThree(options: seq<Bytes>, kind: Octet, prior: Address)
    requires |options| == 3 && forall i :: 0 <= i < 3 ==> IsOption(options[i]) && |options[i]| >= 6
    requires options[0][0] == IPCP_OPT_IP_ADDR && options[1][0] == IPCP_OPT_DNS_PRI
    requires options[2][0] == IPCP_OPT_DNS_SEC
    requires kind == IPCP_OPT_IP_ADDR || kind == IPCP_OPT_DNS_PRI || kind == IPCP_OPT_DNS_SEC
    ensures
      LastAddress(options, kind, prior) ==
        if kind == IPCP_OPT_IP_ADDR then options[0][2..6]
        else if kind == IPCP_OPT_DNS_PRI then options[1][2..6]
        else options[2][2..6]
  {
    LastSnoc([], options[0], kind, prior);
    LastSnoc([options[0]], options[1], kind, prior);
    LastSnoc([options[0], options[1]], options[2], kind, prior);
    hide LastAddress;
    assert [] + [options[0]] == [options[0]];
    assert [options[0]] + [options[1]] == [options[0], options[1]];
    assert [options[0], options[1]] + [options[2]] == options;
  }

  /** A Configure-Reject of IPCP is followed: the next request asks for exactly the
    * addresses whose type was not among the rejected options.
    */
  lemma RejectIsFollowed(c: Context, payload: Bytes, kind: Octet)
    requires |payload| >= 4 && payload[0] == CONF_REJ && 4 <= Word(payload, 2) <= |payload|
    requires AddressKind(kind)
    ensures
      var (after, reply) := Ipcp(c, payload);
      var request := RequestIn(reply.response);
      && SameAddresses(c, after) && request.Some?
      && (Mentions(Walk(request.value), kind) <==> !Mentions(Walk(payload[4..Word(payload, 2)]), kind))
  {
    var options := Walk(payload[4..Word(payload, 2)]);
    ScanPayload(payload, Kinds);
    var ip, primary, secondary :=
      !Mentions(options, IPCP_OPT_IP_ADDR), !Mentions(options, IPCP_OPT_DNS_PRI),
      !Mentions(options, IPCP_OPT_DNS_SEC);
    PacketRequest(PPP_PROTO_IPCP, CONF_REQ, c.ipcpId, Asked(c, ip, primary, secondary));
    AskedMentions(c, ip, primary, secondary, kind);
    hide Scan, Walk, ControlPacket, RequestIn, Word, Asked, Mentions, LastAddress, Named;
  }

  lemma AskedMentions(c: Context, ip: bool, primary: bool, secondary: bool, kind: Octet)
    requires AddressKind(kind)
    ensures
      Mentions(Walk(Asked(c, ip, primary, secondary)), kind) <==>
        if kind == IPCP_OPT_IP_ADDR then ip else if kind == IPCP_OPT_DNS_PRI then primary else secondary
  {
    var a := Single(ip, AddressOption(IPCP_OPT_IP_ADDR, c.localIp));
    var b := Single(primary, AddressOption(IPCP_OPT_DNS_PRI, c.dnsPrimary));
    var d := Single(secondary, AddressOption(IPCP_OPT_DNS_SEC, c.dnsSecondary));
    WalkThree(a, b, d);
    FlattenSingle(ip, AddressOption(IPCP_OPT_IP_ADDR, c.localIp));
    FlattenSingle(primary, AddressOption(IPCP_OPT_DNS_PRI, c.dnsPrimary));
    FlattenSingle(secondary, AddressOption(IPCP_OPT_DNS_SEC, c.dnsSecondary));
    hide Walk, Flatten;
    var all := a + b + d;
    assert Walk(Asked(c, ip, primary, secondary)) == all;
    assert ip ==> AddressOption(IPCP_OPT_IP_ADDR, c.localIp) in all;
    assert primary ==> AddressOption(IPCP_OPT_DNS_PRI, c.dnsPrimary) in all;
    assert secondary ==> AddressOption(IPCP_OPT_DNS_SEC, c.dnsSecondary) in all;
  }
}
