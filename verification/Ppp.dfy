/** The in-process PPP engine (src/ppp.c, src/ppp.h): the replies to LCP and IPCP control
  * packets, after section 5 of RFC 1661 and section 3.3 of RFC 1332.
  */
module Ppp {
  import opened Wrappers

  const PPP_PROTO_LCP := 0xc021
  const PPP_PROTO_IPCP := 0x8021
  const PPP_PROTO_IP := 0x0021

  const CONF_REQ: Octet := 1
  const CONF_ACK: Octet := 2
  const CONF_NAK: Octet := 3
  const CONF_REJ: Octet := 4
  const TERM_REQ: Octet := 5
  const TERM_ACK: Octet := 6
  const PROTO_REJ: Octet := 8
  const ECHO_REQ: Octet := 9
  const ECHO_REP: Octet := 10

  const LCP_OPT_MRU: Octet := 1
  const LCP_OPT_ACCM: Octet := 2
  const LCP_OPT_AUTH: Octet := 3
  const LCP_OPT_MAGIC: Octet := 5
  const LCP_OPT_PFC: Octet := 7
  const LCP_OPT_ACFC: Octet := 8

  const IPCP_OPT_IP_ADDR: Octet := 3
  const IPCP_OPT_DNS_PRI: Octet := 129
  const IPCP_OPT_DNS_SEC: Octet := 131

  const REJECT_LIMIT := 1500

  /** One more than the largest size_t. */
  const SIZE := 0x1_0000_0000_0000_0000

  type Bytes = seq<Octet>

  /** A 32-bit value as the four bytes it has in memory. */
  type Address = b: Bytes | |b| == 4 witness [0, 0, 0, 0]

  const ZERO: Address := [0, 0, 0, 0]

  datatype Phase = Initial | LcpSent | LcpOpen | IpcpSent | IpcpOpen | Terminated

  /** The addresses are kept as they lie in memory. magic is only ever written with shifts
    * and stands for its bytes in that order, the most significant first.
    */
  datatype Context = Context(
    phase: Phase, lcpId: Octet, ipcpId: Octet, mru: nat, magic: Address, localIp: Address, peerIp: Address,
    dnsPrimary: Address, dnsSecondary: Address, complete: bool)

  datatype Return = Ok | IpPacket | Negotiate | TerminatedNow | Error | Overrun

  /** ret is Overrun where the C code accesses a byte at or beyond the end of the data; what
    * it does from there on is undefined, and the model leaves the context alone. response
    * and ip are empty where none is set.
    */
  datatype Reply = Reply(ret: Return, response: Bytes, ip: Bytes)

  // ---- options

  /** An option: type, length and data, as the loops over options accept it. */
  predicate IsOption(o: Bytes) {
    |o| >= 2 && o[1] == |o|
  }

  /** The well-formed options at the front of a text, up to the first malformed one. */
  function Walk(opts: Bytes): (visited: seq<Bytes>)
    ensures forall o :: o in visited ==> IsOption(o)
  {
    if |opts| < 2 || opts[1] < 2 || opts[1] > |opts| then []
    else [opts[..opts[1]]] + Walk(opts[opts[1]..])
  }

  function Flatten(options: seq<Bytes>): Bytes {
    if options == [] then [] else options[0] + Flatten(options[1..])
  }

  predicate Unwanted(o: Bytes) {
    IsOption(o) && (o[0] == LCP_OPT_AUTH || o[0] == LCP_OPT_PFC || o[0] == LCP_OPT_ACFC)
  }

  function Rejected(options: seq<Bytes>): (r: seq<Bytes>)
    ensures forall o :: o in r <==> o in options && Unwanted(o)
  {
    if options == [] then []
    else if Unwanted(options[0]) then [options[0]] + Rejected(options[1..])
    else Rejected(options[1..])
  }

  /** The last address carried by an option of this type, or the prior one. */
  function LastAddress(options: seq<Bytes>, kind: Octet, prior: Address): Address {
    if options == [] then prior
    else
      var o := options[|options| - 1];
      if |o| >= 6 && o[0] == kind then o[2..6] else LastAddress(options[..|options| - 1], kind, prior)
  }

  predicate Mentions(options: seq<Bytes>, kind: Octet) {
    exists o :: o in options && |o| > 0 && o[0] == kind
  }

  function AddressOption(kind: Octet, address: Address): (o: Bytes)
    ensures IsOption(o)
  {
    [kind, 6] + address
  }

  // ---- the loops over options

  /** What the body of a loop does with the options: collect the unwanted ones, take the
    * peer's address, take all addresses, or look at their types.
    */
  datatype Use = Collect | Peer | Addresses | Kinds

  predicate UnwantedKind(kind: Octet) {
    kind == LCP_OPT_AUTH || kind == LCP_OPT_PFC || kind == LCP_OPT_ACFC
  }

  predicate AddressKind(kind: Octet) {
    kind == IPCP_OPT_IP_ADDR || kind == IPCP_OPT_DNS_PRI || kind == IPCP_OPT_DNS_SEC
  }

  /** How many bytes of an option of n bytes the loop accesses. */
  function Reach(use: Use, kind: Octet, n: Octet): nat {
    match use
    case Collect => if UnwantedKind(kind) then n else 2
    case Peer => if kind == IPCP_OPT_IP_ADDR && n >= 6 then 6 else 2
    case Addresses => if AddressKind(kind) && n >= 6 then 6 else 2
    case Kinds => 2
  }

  /** pkt_length - 4 as a size_t: it wraps around for a Length below four. */
  function OptionsLength(length: nat): nat
    requires length < 0x10000
  {
    if length >= 4 then length - 4 else SIZE + length - 4
  }

  datatype Turn = Leave | Outside | Visit(end: nat)

  /** One turn of a loop at pos, over the bytes that follow the Length field up to the end
    * of the data, with opts_len as bound: it leaves the loop, accesses a byte at or beyond
    * the end of the data, or visits an option.
    */
  function TurnAt(rest: Bytes, bound: nat, pos: nat, use: Use): Turn {
    if pos >= bound || pos + 2 > bound then Leave
    else if pos + 2 > |rest| then Outside
    else
      var n := rest[pos + 1] as nat;
      if n < 2 || pos + n > bound then Leave
      else if pos + Reach(use, rest[pos], rest[pos + 1]) > |rest| then Outside
      else Visit(pos + n)
  }

  /** The part of an option that lies inside the data. */
  function Inside(rest: Bytes, pos: nat, end: nat): Bytes
    requires pos <= end && pos <= |rest|
  {
    if end <= |rest| then rest[pos..end] else rest[pos..]
  }

  /** The options visited from pos on; None if the loop leaves the data. */
  function Scan(rest: Bytes, bound: nat, pos: nat, use: Use): Option<seq<Bytes>>
    decreases if pos < bound then bound - pos else 0
  {
    match TurnAt(rest, bound, pos, use)
    case Leave => Some([])
    case Outside => None
    case Visit(end) => Prefixed([Inside(rest, pos, end)], Scan(rest, bound, end, use))
  }

  function Prefixed(front: seq<Bytes>, more: Option<seq<Bytes>>): Option<seq<Bytes>> {
    match more
    case Some(options) => Some(front + options)
    case None => None
  }

  // ---- packets

  /** Two bytes as a number, the more significant first. */
  function Word(data: Bytes, at: nat): (w: nat)
    requires at + 2 <= |data|
    ensures w < 0x10000
  {
    data[at] as nat * 256 + data[at + 1] as nat
  }

  function ControlPacket(protocol: nat, code: Octet, id: Octet, options: Bytes): Bytes {
    var length := (4 + |options|) % 0x10000;
    [protocol / 256 % 256, protocol % 256, code, id, length / 256, length % 256] + options
  }

  /** The options that are asked for in an IPCP Configure-Request, from the context. */
  function Asked(c: Context, ip: bool, primary: bool, secondary: bool): Bytes {
    (if ip then AddressOption(IPCP_OPT_IP_ADDR, c.localIp) else [])
    + (if primary then AddressOption(IPCP_OPT_DNS_PRI, c.dnsPrimary) else [])
    + (if secondary then AddressOption(IPCP_OPT_DNS_SEC, c.dnsSecondary) else [])
  }

  /** The bytes of a 32-bit value, most significant first. */
  function Shifted(a: Address, bigEndian: bool): Address {
    if bigEndian then a else [a[3], a[2], a[1], a[0]]
  }

  /** The options of the first IPCP Configure-Request, written with shifts. */
  function AskedFirst(c: Context, bigEndian: bool): Bytes {
    AddressOption(IPCP_OPT_IP_ADDR, Shifted(c.localIp, bigEndian))
    + AddressOption(IPCP_OPT_DNS_PRI, Shifted(c.dnsPrimary, bigEndian))
    + AddressOption(IPCP_OPT_DNS_SEC, Shifted(c.dnsSecondary, bigEndian))
  }

  function Mru(c: Context): Bytes {
    [LCP_OPT_MRU, 4, c.mru / 256 % 256, c.mru % 256]
  }

  function Up(id: Octet): Octet {
    (id + 1) % 256
  }

  // ---- the specification

  function Quiet(ret: Return): Reply {
    Reply(ret, [], [])
  }

  function Answer(response: Bytes): Reply {
    Reply(Ok, response, [])
  }

  function Lcp(c: Context, payload: Bytes, bigEndian: bool): (Context, Reply) {
    if |payload| < 4 || Word(payload, 2) > |payload| then (c, Quiet(Error))
    else
      var code, id, length := payload[0], payload[1], Word(payload, 2);
      if code == CONF_REQ then
        match Scan(payload[4..], OptionsLength(length), 0, Collect)
        case None => (c, Quiet(Overrun))
        case Some(options) =>
          var rejects := Flatten(Rejected(options));
          if rejects != [] then (c, Answer(ControlPacket(PPP_PROTO_LCP, CONF_REJ, id, rejects)))
          else if OptionsLength(length) > |payload| - 4 then (c, Quiet(Overrun))
          else (c, Answer(ControlPacket(PPP_PROTO_LCP, CONF_ACK, id, payload[4..4 + OptionsLength(length)])))
      else if code == CONF_ACK then
        if c.phase == LcpSent || c.phase == Initial then
          (c.(phase := IpcpSent, ipcpId := Up(c.ipcpId)),
           Answer(ControlPacket(PPP_PROTO_IPCP, CONF_REQ, c.ipcpId, AskedFirst(c, bigEndian))))
        else (c, Quiet(Ok))
      else if code == CONF_NAK then
        if OptionsLength(length) > |payload| - 4 then (c, Quiet(Overrun))
        else
          (c.(lcpId := Up(c.lcpId)),
           Answer(ControlPacket(PPP_PROTO_LCP, CONF_REQ, c.lcpId, payload[4..4 + OptionsLength(length)])))
      else if code == CONF_REJ then
        (c.(lcpId := Up(c.lcpId)), Answer(ControlPacket(PPP_PROTO_LCP, CONF_REQ, c.lcpId, Mru(c))))
      else if code == TERM_REQ then
        (c.(phase := Terminated), Reply(TerminatedNow, ControlPacket(PPP_PROTO_LCP, TERM_ACK, id, []), []))
      else if code == TERM_ACK then (c.(phase := Terminated), Quiet(TerminatedNow))
      else if code == ECHO_REQ then (c, Answer(ControlPacket(PPP_PROTO_LCP, ECHO_REP, id, c.magic)))
      else (c, Quiet(Ok))
  }

  function Named(c: Context, options: seq<Bytes>): Context {
    c.(localIp := LastAddress(options, IPCP_OPT_IP_ADDR, c.localIp),
       dnsPrimary := LastAddress(options, IPCP_OPT_DNS_PRI, c.dnsPrimary),
       dnsSecondary := LastAddress(options, IPCP_OPT_DNS_SEC, c.dnsSecondary))
  }

  function Ipcp(c: Context, payload: Bytes): (Context, Reply) {
    if |payload| < 4 || Word(payload, 2) > |payload| then (c, Quiet(Error))
    else
      var code, id, length := payload[0], payload[1], Word(payload, 2);
      if code == CONF_REQ then
        match Scan(payload[4..], OptionsLength(length), 0, Peer)
        case None => (c, Quiet(Overrun))
        case Some(options) =>
          if OptionsLength(length) > |payload| - 4 then (c, Quiet(Overrun))
          else
            (c.(peerIp := LastAddress(options, IPCP_OPT_IP_ADDR, c.peerIp)),
             Answer(ControlPacket(PPP_PROTO_IPCP, CONF_ACK, id, payload[4..4 + OptionsLength(length)])))
      else if code == CONF_ACK then
        if c.phase == IpcpSent then (c.(phase := IpcpOpen, complete := true), Quiet(Negotiate)) else (c, Quiet(Ok))
      else if code == CONF_NAK then
        match Scan(payload[4..], OptionsLength(length), 0, Addresses)
        case None => (c, Quiet(Overrun))
        case Some(options) =>
          var after := Named(c, options).(ipcpId := Up(c.ipcpId));
          (after, Answer(ControlPacket(PPP_PROTO_IPCP, CONF_REQ, c.ipcpId, Asked(after, true, true, true))))
      else if code == CONF_REJ then
        match Scan(payload[4..], OptionsLength(length), 0, Kinds)
        case None => (c, Quiet(Overrun))
        case Some(options) =>
          var asked := Asked(c, !Mentions(options, IPCP_OPT_IP_ADDR), !Mentions(options, IPCP_OPT_DNS_PRI),
                             !Mentions(options, IPCP_OPT_DNS_SEC));
          (c.(ipcpId := Up(c.ipcpId)), Answer(ControlPacket(PPP_PROTO_IPCP, CONF_REQ, c.ipcpId, asked)))
      else if code == TERM_REQ then
        (c.(phase := Terminated), Reply(TerminatedNow, ControlPacket(PPP_PROTO_IPCP, TERM_ACK, id, []), []))
      else if code == TERM_ACK then (c.(phase := Terminated), Quiet(TerminatedNow))
      else (c, Quiet(Ok))
  }

  function Process(c: Context, data: Bytes, bigEndian: bool): (Context, Reply) {
    if |data| < 2 then (c, Quiet(Error))
    else
      var protocol := Word(data, 0);
      if protocol == PPP_PROTO_LCP then Lcp(c, data[2..], bigEndian)
      else if protocol == PPP_PROTO_IPCP then Ipcp(c, data[2..])
      else if protocol == PPP_PROTO_IP then
        if |data| == 2 then (c, Quiet(Ok)) else (c, Reply(IpPacket, [], data[2..]))
      else
        var rejected := if |data| > REJECT_LIMIT then data[..REJECT_LIMIT] else data;
        (c.(lcpId := Up(c.lcpId)), Answer(ControlPacket(PPP_PROTO_LCP, PROTO_REJ, c.lcpId, rejected)))
  }

  /** The options before pos have been visited, those from pos on are still to come. */
  ghost predicate Visited(rest: Bytes, bound: nat, use: Use, visited: seq<Bytes>, pos: nat) {
    Scan(rest, bound, 0, use) == Prefixed(visited, Scan(rest, bound, pos, use))
  }

  lemma VisitFirst(rest: Bytes, bound: nat, use: Use)
    ensures Visited(rest, bound, use, [], 0)
  {
    match Scan(rest, bound, 0, use)
    case Some(options) => assert [] + options == options;
    case None =>
  }

  lemma VisitNext(rest: Bytes, bound: nat, use: Use, visited: seq<Bytes>, pos: nat)
    requires Visited(rest, bound, use, visited, pos)
    ensures
      match TurnAt(rest, bound, pos, use)
      case Leave => Scan(rest, bound, 0, use) == Some(visited)
      case Outside => Scan(rest, bound, 0, use) == None
      case Visit(end) =>
        && pos + 2 <= |rest| && pos < end <= bound
        && Visited(rest, bound, use, visited + [Inside(rest, pos, end)], end)
  {
    match TurnAt(rest, bound, pos, use)
    case Leave => assert visited + [] == visited;
    case Outside =>
    case Visit(end) =>
      match Scan(rest, bound, end, use)
      case Some(more) =>
        var o := Inside(rest, pos, end);
        assert visited + ([o] + more) == visited + [o] + more;
      case None =>
  }

  /** What a loop takes for the address of an option. */
  lemma AddressInside(rest: Bytes, bound: nat, pos: nat, use: Use, end: nat)
    requires TurnAt(rest, bound, pos, use) == Visit(end)
    ensures pos + 2 <= |rest| && pos < end
    ensures
      var o, n := Inside(rest, pos, end), rest[pos + 1];
      && |o| >= 2 && o[0] == rest[pos]
      && ((use == Addresses && AddressKind(o[0])) || (use == Peer && o[0] == IPCP_OPT_IP_ADDR) ==>
            (|o| >= 6 <==> n >= 6) && (n >= 6 ==> pos + 6 <= |rest| && o[2..6] == rest[pos + 2..pos + 6]))
  {
    var o, n := Inside(rest, pos, end), rest[pos + 1];
    assert end == pos + n && |o| == if end <= |rest| then n as int else |rest| - pos;
    if n >= 6 && pos + 6 <= |rest| {
      assert |o| >= 6 && forall i :: 2 <= i < 6 ==> o[i] == rest[pos + i];
    }
  }

  lemma {:induction false} RejectedAppend(a: seq<Bytes>, b: seq<Bytes>)
    ensures Rejected(a + b) == Rejected(a) + Rejected(b)
  {
    if a == [] {
      assert a + b == b;
    } else {
      RejectedAppend(a[1..], b);
      assert (a + b)[1..] == a[1..] + b;
    }
  }

  lemma FlattenFirst(a: seq<Bytes>)
    requires a != []
    ensures Flatten(a) == a[0] + Flatten(a[1..])
  {
  }

  lemma {:induction false} FlattenAppend(a: seq<Bytes>, b: seq<Bytes>)
    ensures Flatten(a + b) == Flatten(a) + Flatten(b)
  {
    if a == [] {
      assert a + b == b;
    } else {
      hide Flatten;
      FlattenAppend(a[1..], b);
      FlattenFirst(a);
      FlattenFirst(a + b);
      assert (a + b)[1..] == a[1..] + b;
      Associative(a[0], Flatten(a[1..]), Flatten(b));
    }
  }

  lemma {:induction false} FlattenSnoc(a: seq<Bytes>, o: Bytes)
    ensures Flatten(a + [o]) == Flatten(a) + o
  {
    FlattenAppend(a, [o]);
    assert Flatten([o]) == o;
  }

  lemma RejectedSnoc(a: seq<Bytes>, o: Bytes)
    ensures Rejected(a + [o]) == if Unwanted(o) then Rejected(a) + [o] else Rejected(a)
  {
    RejectedAppend(a, [o]);
    assert [o][1..] == [];
    assert Rejected([o]) == if Unwanted(o) then [o] else [];
  }

  lemma RejectsSnoc(a: seq<Bytes>, o: Bytes)
    ensures Flatten(Rejected(a + [o])) == Flatten(Rejected(a)) + if Unwanted(o) then o else []
  {
    RejectedSnoc(a, o);
    FlattenSnoc(Rejected(a), o);
    hide Rejected, Flatten;
  }

  class PppContext {
    var phase: Phase
    var lcpIdentifier: Octet
    var ipcpIdentifier: Octet
    var mru: nat
    var magicNumber: Address
    var localIp: Address
    var peerIp: Address
    var dnsPrimary: Address
    var dnsSecondary: Address
    var negotiationComplete: bool
    const bigEndian: bool

    function Now(): Context
      reads this
    {
      Context(phase, lcpIdentifier, ipcpIdentifier, mru, magicNumber, localIp, peerIp, dnsPrimary, dnsSecondary,
              negotiationComplete)
    }

    /** ppp_init. */
    constructor (magic: Address, bigEndian: bool)
      ensures Now() == Started(magic) && this.bigEndian == bigEndian
    {
      phase := Initial;
      lcpIdentifier, ipcpIdentifier, mru, magicNumber := 1, 1, 1354, magic;
      localIp, peerIp, dnsPrimary, dnsSecondary := ZERO, ZERO, ZERO, ZERO;
      negotiationComplete := false;
      this.bigEndian := bigEndian;
    }

    /** ppp_start_negotiation. */
    method StartNegotiation() returns (packet: Bytes)
      modifies this
      ensures Now() == old(Now()).(phase := LcpSent, lcpId := Up(old(lcpIdentifier)))
      ensures packet == FirstRequest(old(Now()))
    {
      var options := Mru(Now()) + [LCP_OPT_ACCM, 6, 0, 0, 0, 0] + [LCP_OPT_MAGIC, 6] + magicNumber;
      phase := LcpSent;
      packet := ControlPacket(PPP_PROTO_LCP, CONF_REQ, lcpIdentifier, options);
      lcpIdentifier := Up(lcpIdentifier);
    }

    /** The loop of handle_lcp that collects the options to reject. */
    static method CollectRejects(rest: Bytes, bound: nat) returns (rejects: Option<Bytes>)
      ensures
        match Scan(rest, bound, 0, Collect)
        case Some(options) => rejects == Some(Flatten(Rejected(options)))
        case None => rejects == None
    {
      var collected := [];
      var pos := 0;
      ghost var visited := [];
      VisitFirst(rest, bound, Collect);
      assert Flatten(Rejected(visited)) == [];
      hide Rejected, Flatten;
      while true
        invariant Visited(rest, bound, Collect, visited, pos)
        invariant collected == Flatten(Rejected(visited))
        decreases if pos < bound then bound - pos else 0
      {
        VisitNext(rest, bound, Collect, visited, pos);
        var turn := TurnAt(rest, bound, pos, Collect);
        if turn.Leave? {
          return Some(collected);
        }
        if turn.Outside? {
          return None;
        }
        var o := Inside(rest, pos, turn.end);
        RejectsSnoc(visited, o);
        assert Unwanted(o) <==> UnwantedKind(rest[pos]);
        if UnwantedKind(rest[pos]) {
          collected := collected + rest[pos..turn.end];
        }
        visited := visited + [o];
        pos := turn.end;
        hide Visited, TurnAt, Scan;
      }
    }

    /** The loop of handle_ipcp over the options of a Configure-Request. */
    static method CopyPeer(rest: Bytes, bound: nat, prior: Address) returns (peer: Option<Address>)
      ensures
        match Scan(rest, bound, 0, Peer)
        case Some(options) => peer == Some(LastAddress(options, IPCP_OPT_IP_ADDR, prior))
        case None => peer == None
    {
      var address := prior;
      var pos := 0;
      ghost var visited := [];
      VisitFirst(rest, bound, Peer);
      while true
        invariant Visited(rest, bound, Peer, visited, pos)
        invariant address == LastAddress(visited, IPCP_OPT_IP_ADDR, prior)
        decreases if pos < bound then bound - pos else 0
      {
        VisitNext(rest, bound, Peer, visited, pos);
        var turn := TurnAt(rest, bound, pos, Peer);
        if turn.Leave? {
          return Some(address);
        }
        if turn.Outside? {
          return None;
        }
        var o := Inside(rest, pos, turn.end);
        LastSnoc(visited, o, IPCP_OPT_IP_ADDR, prior);
        AddressInside(rest, bound, pos, Peer, turn.end);
        hide Visited, Scan, LastAddress, TurnAt, Inside;
        if rest[pos] == IPCP_OPT_IP_ADDR && rest[pos + 1] >= 6 {
          address := rest[pos + 2..pos + 6];
        }
        visited := visited + [o];
        pos := turn.end;
      }
    }

    /** The loop of handle_ipcp over the options of a Configure-Nak; false if it leaves the
      * data.
      */
    method CopyAddresses(rest: Bytes, bound: nat) returns (inside: bool)
      modifies `localIp, `dnsPrimary, `dnsSecondary
      ensures
        match Scan(rest, bound, 0, Addresses)
        case Some(options) => inside && Now() == Named(old(Now()), options)
        case None => !inside
    {
      var pos := 0;
      ghost var visited: seq<Bytes> := [];
      VisitFirst(rest, bound, Addresses);
      while true
        invariant Visited(rest, bound, Addresses, visited, pos)
        invariant localIp == LastAddress(visited, IPCP_OPT_IP_ADDR, old(localIp))
        invariant dnsPrimary == LastAddress(visited, IPCP_OPT_DNS_PRI, old(dnsPrimary))
        invariant dnsSecondary == LastAddress(visited, IPCP_OPT_DNS_SEC, old(dnsSecondary))
        decreases if pos < bound then bound - pos else 0
      {
        VisitNext(rest, bound, Addresses, visited, pos);
        var turn := TurnAt(rest, bound, pos, Addresses);
        if turn.Leave? {
          return true;
        }
        if turn.Outside? {
          return false;
        }
        var o := Inside(rest, pos, turn.end);
        LastSnoc(visited, o, IPCP_OPT_IP_ADDR, old(localIp));
        LastSnoc(visited, o, IPCP_OPT_DNS_PRI, old(dnsPrimary));
        LastSnoc(visited, o, IPCP_OPT_DNS_SEC, old(dnsSecondary));
        AddressInside(rest, bound, pos, Addresses, turn.end);
        hide Visited, Scan, LastAddress, TurnAt, Inside;
        if rest[pos] == IPCP_OPT_IP_ADDR && rest[pos + 1] >= 6 {
          localIp := rest[pos + 2..pos + 6];
        } else if rest[pos] == IPCP_OPT_DNS_PRI && rest[pos + 1] >= 6 {
          dnsPrimary := rest[pos + 2..pos + 6];
        } else if rest[pos] == IPCP_OPT_DNS_SEC && rest[pos + 1] >= 6 {
          dnsSecondary := rest[pos + 2..pos + 6];
        }
        visited := visited + [o];
        pos := turn.end;
      }
    }

    /** The loop of handle_ipcp over rejected options; None if it leaves the data. */
    static method FindRejected(rest: Bytes, bound: nat) returns (found: Option<(bool, bool, bool)>)
      ensures
        match Scan(rest, bound, 0, Kinds)
        case Some(options) =>
          found == Some((Mentions(options, IPCP_OPT_IP_ADDR), Mentions(options, IPCP_OPT_DNS_PRI),
                         Mentions(options, IPCP_OPT_DNS_SEC)))
        case None => found == None
    {
      var ip, primary, secondary := false, false, false;
      var pos := 0;
      ghost var visited: seq<Bytes> := [];
      VisitFirst(rest, bound, Kinds);
      while true
        invariant Visited(rest, bound, Kinds, visited, pos)
        invariant ip == Mentions(visited, IPCP_OPT_IP_ADDR)
        invariant primary == Mentions(visited, IPCP_OPT_DNS_PRI)
        invariant secondary == Mentions(visited, IPCP_OPT_DNS_SEC)
        decreases if pos < bound then bound - pos else 0
      {
        VisitNext(rest, bound, Kinds, visited, pos);
        var turn := TurnAt(rest, bound, pos, Kinds);
        if turn.Leave? {
          return Some((ip, primary, secondary));
        }
        if turn.Outside? {
          return None;
        }
        var o := Inside(rest, pos, turn.end);
        MentionsSnoc(visited, o, IPCP_OPT_IP_ADDR);
        MentionsSnoc(visited, o, IPCP_OPT_DNS_PRI);
        MentionsSnoc(visited, o, IPCP_OPT_DNS_SEC);
        if rest[pos] == IPCP_OPT_IP_ADDR {
          ip := true;
        } else if rest[pos] == IPCP_OPT_DNS_PRI {
          primary := true;
        } else if rest[pos] == IPCP_OPT_DNS_SEC {
          secondary := true;
        }
        visited := visited + [o];
        pos := turn.end;
        hide Visited, Scan, Mentions;
      }
    }

    method HandleLcp(payload: Bytes) returns (reply: Reply)
      modifies this
      ensures (Now(), reply) == Lcp(old(Now()), payload, bigEndian)
    {
      hide Scan, Rejected, Flatten, ControlPacket, AskedFirst;
      if |payload| < 4 || Word(payload, 2) > |payload| {
        return Quiet(Error);
      }
      var code, id, length := payload[0], payload[1], Word(payload, 2);
      if code == CONF_REQ {
        var rejects := CollectRejects(payload[4..], OptionsLength(length));
        if rejects.None? {
          return Quiet(Overrun);
        }
        if |rejects.value| > 0 {
          return Answer(ControlPacket(PPP_PROTO_LCP, CONF_REJ, id, rejects.value));
        }
        if OptionsLength(length) > |payload| - 4 {
          return Quiet(Overrun);
        }
        return Answer(ControlPacket(PPP_PROTO_LCP, CONF_ACK, id, payload[4..4 + OptionsLength(length)]));
      } else if code == CONF_ACK {
        if phase == LcpSent || phase == Initial {
          phase := LcpOpen;
          var asked := AskedFirst(Now(), bigEndian);
          phase := IpcpSent;
          reply := Answer(ControlPacket(PPP_PROTO_IPCP, CONF_REQ, ipcpIdentifier, asked));
          ipcpIdentifier := Up(ipcpIdentifier);
          assert asked == AskedFirst(old(Now()), bigEndian) by {
            FirstFromAddresses(old(Now()), old(Now()).(phase := LcpOpen), bigEndian);
          }
          return;
        }
        return Quiet(Ok);
      } else if code == CONF_NAK {
        if OptionsLength(length) > |payload| - 4 {
          return Quiet(Overrun);
        }
        reply := Answer(ControlPacket(PPP_PROTO_LCP, CONF_REQ, lcpIdentifier, payload[4..4 + OptionsLength(length)]));
        lcpIdentifier := Up(lcpIdentifier);
        return;
      } else if code == CONF_REJ {
        reply := Answer(ControlPacket(PPP_PROTO_LCP, CONF_REQ, lcpIdentifier, Mru(Now())));
        lcpIdentifier := Up(lcpIdentifier);
        return;
      } else if code == TERM_REQ {
        phase := Terminated;
        return Reply(TerminatedNow, ControlPacket(PPP_PROTO_LCP, TERM_ACK, id, []), []);
      } else if code == TERM_ACK {
        phase := Terminated;
        return Quiet(TerminatedNow);
      } else if code == ECHO_REQ {
        return Answer(ControlPacket(PPP_PROTO_LCP, ECHO_REP, id, magicNumber));
      }
      reply := Quiet(Ok);
    }

    method HandleIpcp(payload: Bytes) returns (reply: Reply)
      modifies this
      ensures (Now(), reply) == Ipcp(old(Now()), payload)
    {
      hide Scan, LastAddress, ControlPacket, Asked, Mentions;
      if |payload| < 4 || Word(payload, 2) > |payload| {
        return Quiet(Error);
      }
      var code, id, length := payload[0], payload[1], Word(payload, 2);
      if code == CONF_REQ {
        var peer := CopyPeer(payload[4..], OptionsLength(length), peerIp);
        if peer.None? || OptionsLength(length) > |payload| - 4 {
          return Quiet(Overrun);
        }
        peerIp := peer.value;
        return Answer(ControlPacket(PPP_PROTO_IPCP, CONF_ACK, id, payload[4..4 + OptionsLength(length)]));
      } else if code == CONF_ACK {
        if phase == IpcpSent {
          phase := IpcpOpen;
          negotiationComplete := true;
          return Quiet(Negotiate);
        }
        return Quiet(Ok);
      } else if code == CONF_NAK {
        var ip, primary, secondary := localIp, dnsPrimary, dnsSecondary;
        var inside := CopyAddresses(payload[4..], OptionsLength(length));
        if !inside {
          localIp, dnsPrimary, dnsSecondary := ip, primary, secondary;
          return Quiet(Overrun);
        }
        var id := ipcpIdentifier;
        ipcpIdentifier := Up(ipcpIdentifier);
        return Answer(ControlPacket(PPP_PROTO_IPCP, CONF_REQ, id, Asked(Now(), true, true, true)));
      } else if code == CONF_REJ {
        var found := FindRejected(payload[4..], OptionsLength(length));
        if found.None? {
          return Quiet(Overrun);
        }
        var (ip, primary, secondary) := found.value;
        var asked := Asked(Now(), !ip, !primary, !secondary);
        reply := Answer(ControlPacket(PPP_PROTO_IPCP, CONF_REQ, ipcpIdentifier, asked));
        ipcpIdentifier := Up(ipcpIdentifier);
        return;
      } else if code == TERM_REQ {
        phase := Terminated;
        return Reply(TerminatedNow, ControlPacket(PPP_PROTO_IPCP, TERM_ACK, id, []), []);
      } else if code == TERM_ACK {
        phase := Terminated;
        return Quiet(TerminatedNow);
      }
      reply := Quiet(Ok);
    }

    method ProcessIncoming(data: Bytes) returns (reply: Reply)
      modifies this
      ensures (Now(), reply) == Process(old(Now()), data, bigEndian)
    {
      hide Lcp, Ipcp, ControlPacket;
      if |data| < 2 {
        return Quiet(Error);
      }
      var protocol := Word(data, 0);
      if protocol == PPP_PROTO_LCP {
        reply := HandleLcp(data[2..]);
      } else if protocol == PPP_PROTO_IPCP {
        reply := HandleIpcp(data[2..]);
      } else if protocol == PPP_PROTO_IP {
        reply := if |data| == 2 then Quiet(Ok) else Reply(IpPacket, [], data[2..]);
      } else {
        var rejected := if |data| > REJECT_LIMIT then data[..REJECT_LIMIT] else data;
        reply := Answer(ControlPacket(PPP_PROTO_LCP, PROTO_REJ, lcpIdentifier, rejected));
        lcpIdentifier := Up(lcpIdentifier);
      }
    }
  }

  function Started(magic: Address): Context {
    Context(Initial, 1, 1, 1354, magic, ZERO, ZERO, ZERO, ZERO, false)
  }

  /** The LCP Configure-Request that opens the negotiation. */
  function FirstRequest(c: Context): Bytes {
    ControlPacket(PPP_PROTO_LCP, CONF_REQ, c.lcpId,
                  Mru(c) + [LCP_OPT_ACCM, 6, 0, 0, 0, 0] + [LCP_OPT_MAGIC, 6] + c.magic)
  }

  lemma MentionsSnoc(a: seq<Bytes>, o: Bytes, kind: Octet)
    requires |o| > 0
    ensures Mentions(a + [o], kind) <==> Mentions(a, kind) || o[0] == kind
  {
    assert o in a + [o];
    if Mentions(a, kind) {
      var q :| q in a && |q| > 0 && q[0] == kind;
      assert q in a + [o];
    }
  }

  lemma LastSnoc(a: seq<Bytes>, o: Bytes, kind: Octet, prior: Address)
    ensures LastAddress(a + [o], kind, prior)
              == if |o| >= 6 && o[0] == kind then o[2..6] else LastAddress(a, kind, prior)
  {
    assert (a + [o])[..|a|] == a;
  }

  lemma FirstFromAddresses(c: Context, d: Context, bigEndian: bool)
    requires c.localIp == d.localIp && c.dnsPrimary == d.dnsPrimary && c.dnsSecondary == d.dnsSecondary
    ensures AskedFirst(c, bigEndian) == AskedFirst(d, bigEndian)
  {
  }
}
