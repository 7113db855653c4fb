/** The engine's configuration file: what the manager prints
  * (headless/src/storage.rs, crates/manager-core/src/validation.rs) and what the engine
  * reads from it (load_config in src/config.c). Text is a sequence of bytes, written as
  * characters.
  */
module EngineConfig {
  import opened CStrings
  import opened Wrappers

  const GATEWAY_HOST_SIZE := 253
  const USERNAME_SIZE := 64
  const PASSWORD_SIZE := 256
  const REALM_SIZE := 63
  const SHA256STRLEN := 65

  // ---- the manager's side

  datatype Profile = Profile(
    id: string, name: string, host: string, port: nat, username: string, realm: string, trustedCert: string,
    setRoutes: bool, setDns: bool, pppdUsePeerdns: bool, halfInternetRoutes: bool)

  /** u8::is_ascii_whitespace: not the vertical tab. */
  predicate AsciiWhitespace(c: char) {
    c == ' ' || c == '\t' || c == '\n' || c == '\U{c}' || c == '\r'
  }

  predicate OneLine(value: string) {
    '\0' !in value && '\n' !in value && '\r' !in value
  }

  predicate EngineField(value: string, limit: nat) {
    && OneLine(value) && |value| <= limit
    && (value != "" ==> !AsciiWhitespace(value[0]) && !AsciiWhitespace(value[|value| - 1]))
  }

  predicate ValidPassword(password: string) {
    EngineField(password, PASSWORD_SIZE)
  }

  predicate HexDigit(c: char) {
    '0' <= c <= '9' || 'a' <= c <= 'f' || 'A' <= c <= 'F'
  }

  predicate ValidPin(pin: string) {
    pin == "" || (|pin| == 64 && forall i :: 0 <= i < 64 ==> HexDigit(pin[i]))
  }

  predicate Blank(text: string) {
    forall c :: c in text ==> IsSpace(c)
  }

  predicate ValidProfile(p: Profile) {
    && !Blank(p.id) && !Blank(p.name) && !Blank(p.host)
    && p.id != "__remote_access_token" && |p.id| <= 128 && |p.name| <= 256 && 0 < p.port <= 65535
    && OneLine(p.id) && OneLine(p.name)
    && EngineField(p.host, GATEWAY_HOST_SIZE) && EngineField(p.username, USERNAME_SIZE)
    && EngineField(p.realm, REALM_SIZE) && ValidPin(p.trustedCert)
  }

  function Decimal(n: nat): (text: string)
    ensures text != ""
  {
    if n < 10 then ['0' + n as char] else Decimal(n / 10) + ['0' + (n % 10) as char]
  }

  function BoolValue(b: bool): string {
    if b then "1" else "0"
  }

  function PushLine(key: string, value: string): string {
    if value == "" then "" else key + " = " + value + "\n"
  }

  /** In three pieces because the verifier does not evaluate a literal of this length. */
  const BANNER := "# Generated by " + "openfortivpn-manager. " + "Do not edit."

  /** The text of write_runtime_config, for a profile and a password that passed the
    * validation. The host is the profile's without white space around it.
    */
  function Printed(p: Profile, password: string): string {
    BANNER + "\n"
    + (PushLine("host", p.host)
       + (PushLine("port", Decimal(p.port))
          + (PushLine("username", p.username)
             + (PushLine("password", password)
                + (PushLine("realm", p.realm)
                   + (PushLine("trusted-cert", p.trustedCert)
                      + (PushLine("set-routes", BoolValue(p.setRoutes))
                         + (PushLine("set-dns", BoolValue(p.setDns))
                            + (PushLine("pppd-use-peerdns", BoolValue(p.pppdUsePeerdns))
                               + PushLine("half-internet-routes", BoolValue(p.halfInternetRoutes)))))))))))
  }

  // ---- the engine's side

  /** The fields of struct vpn_config that a printed file can set. */
  datatype Config = Config(
    host: string, port: int, username: string, password: string, passwordSet: bool, realm: string,
    setRoutes: int, setDns: int, pppdUsePeerdns: int, halfInternetRoutes: int, certs: seq<string>)

  /** isspace in the C locale. */
  predicate IsSpace(c: char) {
    c == ' ' || '\t' <= c <= '\r'
  }

  function TrimLeft(s: string): (t: string)
    ensures |t| <= |s|
  {
    if s != "" && IsSpace(s[0]) then TrimLeft(s[1..]) else s
  }

  function TrimRight(s: string): (t: string)
    ensures |t| <= |s|
  {
    if |s| > 1 && IsSpace(s[|s| - 1]) then TrimRight(s[..|s| - 1]) else s
  }

  function Trim(s: string): string {
    TrimRight(TrimLeft(s))
  }

  // strtol with base 0

  function DigitOf(c: char): nat {
    if '0' <= c <= '9' then (c - '0') as nat
    else if 'a' <= c <= 'z' then (c - 'a') as nat + 10
    else if 'A' <= c <= 'Z' then (c - 'A') as nat + 10
    else 36
  }

  function Digits(s: string, base: nat, sofar: nat): nat {
    if s != "" && DigitOf(s[0]) < base then Digits(s[1..], base, sofar * base + DigitOf(s[0])) else sofar
  }

  function Magnitude(s: string): nat {
    if |s| > 2 && s[0] == '0' && (s[1] == 'x' || s[1] == 'X') && DigitOf(s[2]) < 16 then Digits(s[2..], 16, 0)
    else if s != "" && s[0] == '0' then Digits(s, 8, 0)
    else Digits(s, 10, 0)
  }

  /** Without the saturation at the range of long, which every caller rejects as well. */
  function Strtol(s: string): int {
    var t := TrimLeft(s);
    if t != "" && t[0] == '-' then 0 - Magnitude(t[1..])
    else if t != "" && t[0] == '+' then Magnitude(t[1..])
    else Magnitude(t)
  }

  function Lower(c: char): char {
    if 'A' <= c <= 'Z' then c - 'A' + 'a' else c
  }

  predicate SameIgnoringCase(s: string, t: string) {
    |s| == |t| && forall i :: 0 <= i < |s| ==> Lower(s[i]) == Lower(t[i])
  }

  function Strtob(s: string): int {
    if s == "" then 0
    else if SameIgnoringCase(s, "true") then 1
    else if SameIgnoringCase(s, "false") then 0
    else if !('0' <= s[0] <= '9') then -1
    else
      var i := Strtol(s);
      if i < 0 || i > 1 then -1 else i
  }

  function Cut(s: string, size: nat): string {
    if |s| <= size then s else s[..size]
  }

  /** Keys that set nothing modelled here, when the engine has pppd. */
  const OTHER_KEYS := [
    "otp", "otp-prompt", "otp-delay", "cookie", "cookie-on-stdin", "no-ftm-push", "pinentry", "sni", "persistent",
    "ppp-system", "use-resolvconf", "use-syslog", "ca-file", "user-cert", "user-key", "pem-passphrase",
    "insecure-ssl", "cipher-list", "min-tls", "seclevel-1", "user-agent", "hostcheck", "check-virtual-desktop"]

  const PPPD_KEYS := ["pppd-log", "pppd-plugin", "pppd-ipparam", "pppd-ifname", "pppd-call", "pppd-accept-remote"]

  /** The effect of one key and value; None where load_config gives up on the file. pppd:
    * the engine was built with pppd or for Windows.
    */
  function Assign(c: Config, key: string, val: string, pppd: bool): Option<Config> {
    if key == "host" then Some(c.(host := Cut(val, GATEWAY_HOST_SIZE)))
    else if key == "port" then
      var port := Strtol(val);
      Some(if port < 1 || port > 65535 then c else c.(port := port))
    else if key == "username" then Some(c.(username := Cut(val, USERNAME_SIZE)))
    else if key == "password" then Some(c.(password := Cut(val, PASSWORD_SIZE), passwordSet := true))
    else if key == "realm" then Some(c.(realm := Cut(val, REALM_SIZE)))
    else if key == "set-dns" then Some(if Strtob(val) < 0 then c else c.(setDns := Strtob(val)))
    else if key == "set-routes" then Some(if Strtob(val) < 0 then c else c.(setRoutes := Strtob(val)))
    else if key == "half-internet-routes" then
      Some(if Strtob(val) < 0 then c else c.(halfInternetRoutes := Strtob(val)))
    else if key == "pppd-use-peerdns" && pppd then
      Some(if Strtob(val) < 0 then c else c.(pppdUsePeerdns := Strtob(val)))
    else if key == "trusted-cert" then
      Some(if |val| != SHA256STRLEN - 1 then c else c.(certs := c.certs + [val]))
    else if key == "saml-login" then
      var port := Strtol(val);
      if port < 1 || port > 65535 then None else Some(c)
    else if key in OTHER_KEYS || (pppd && key in PPPD_KEYS) || (!pppd && key == "pppd") then Some(c)
    else None
  }

  /** The effect of one line, its line break included. */
  function ReadLine(c: Config, line: string, pppd: bool): Option<Config> {
    if |line| < 2 || line[0] == '#' then Some(c)
    else
      var equals := IndexOf(line, '=');
      if equals == |line| then Some(c)
      else Assign(c, Trim(line[..equals]), Trim(line[equals + 1..]), pppd)
  }

  /** How much of the text getline returns next. */
  function LineLength(text: string): nat {
    var i := IndexOf(text, '\n');
    if i < |text| then i + 1 else i
  }

  function Loaded(c: Config, text: string, pppd: bool): Config
    decreases |text|
  {
    if text == "" then c
    else
      match ReadLine(c, text[..LineLength(text)], pppd)
      case Some(after) => Loaded(after, text[LineLength(text)..], pppd)
      case None => c
  }

  // ---- load_config

  class VpnConfig {
    var c: Config
    const pppd: bool

    constructor (c: Config, pppd: bool)
      ensures this.c == c && this.pppd == pppd
    {
      this.c := c;
      this.pppd := pppd;
    }

    /** The loop that removes heading spaces. */
    static method SkipSpaces(text: string) returns (start: nat)
      ensures start <= |text| && text[start..] == TrimLeft(text)
    {
      start := 0;
      while start < |text| && IsSpace(text[start])
        invariant start <= |text|
        invariant TrimLeft(text[start..]) == TrimLeft(text)
      {
        assert text[start..][1..] == text[start + 1..];
        start := start + 1;
      }
    }

    /** The loop that removes trailing spaces. */
    static method DropSpaces(text: string) returns (end: nat)
      ensures end <= |text| && text[..end] == TrimRight(text)
    {
      end := |text|;
      assert text[..end] == text;
      while end > 1 && IsSpace(text[end - 1])
        invariant end <= |text|
        invariant TrimRight(text[..end]) == TrimRight(text)
      {
        assert text[..end][..end - 1] == text[..end - 1];
        end := end - 1;
      }
    }

    static method TrimValue(text: string) returns (trimmed: string)
      ensures trimmed == Trim(text)
    {
      var start := SkipSpaces(text);
      var end := DropSpaces(text[start..]);
      trimmed := text[start..][..end];
    }

    /** One turn of load_config's loop; false where it leaves the loop. */
    method TakeLine(line: string) returns (more: bool)
      modifies `c
      ensures
        match ReadLine(old(c), line, pppd)
        case Some(after) => more && c == after
        case None => !more && c == old(c)
    {
      if |line| < 2 {
        return true;
      }
      if line[0] == '#' {
        return true;
      }
      var equals := IndexOf(line, '=');
      if equals == |line| {
        return true;
      }
      hide Assign, Trim, IndexOf;
      var key := TrimValue(line[..equals]);
      var val := TrimValue(line[equals + 1..]);
      var after := Assign(c, key, val, pppd);
      if after.Some? {
        c := after.value;
      }
      more := after.Some?;
    }

    /** load_config on the contents of the file. */
    method Load(text: string)
      modifies `c
      ensures c == Loaded(old(c), text, pppd)
    {
      hide ReadLine;
      var rest := text;
      while rest != ""
        invariant Loaded(c, rest, pppd) == Loaded(old(c), text, pppd)
        decreases |rest|
      {
        var length := LineLength(rest);
        var more := TakeLine(rest[..length]);
        if !more {
          return;
        }
        rest := rest[length..];
      }
    }
  }

  // ---- the round trip

  predicate ClearEdges(v: string) {
    v != "" ==> !IsSpace(v[0]) && !IsSpace(v[|v| - 1])
  }

  lemma {:induction false} TrimRightOf(v: string)
    ensures v != "" && !IsSpace(v[|v| - 1]) ==> TrimRight(v) == v
    ensures |v| > 1 && IsSpace(v[|v| - 1]) ==> |TrimRight(v)| < |v|
  {
  }

  lemma TrimLeftOf(v: string)
    ensures v != "" && !IsSpace(v[0]) ==> TrimLeft(v) == v
    ensures v != "" && IsSpace(v[0]) ==> |TrimLeft(v)| < |v|
  {
  }

  /** A value survives the trimming exactly when it has no space at its ends. */
  lemma TrimExactly(v: string)
    ensures Trim(v) == v <==> ClearEdges(v)
  {
    TrimLeftOf(v);
    TrimRightOf(v);
    hide TrimRight, TrimLeft, IsSpace;
  }

  lemma {:induction false} TrimLeftAppend(v: string)
    ensures TrimLeft(v + "\n") == if TrimLeft(v) == "" then "" else TrimLeft(v) + "\n"
  {
    if v == "" {
      assert TrimLeft("\n") == TrimLeft("");
    } else {
      assert (v + "\n")[1..] == v[1..] + "\n";
      if IsSpace(v[0]) {
        TrimLeftAppend(v[1..]);
      }
    }
  }

  /** The space before a value and the line break after it do not count. */
  lemma TrimPrinted(v: string)
    ensures Trim(" " + v + "\n") == Trim(v)
  {
    assert (" " + v + "\n")[1..] == v + "\n";
    assert TrimLeft(" " + v + "\n") == TrimLeft(v + "\n");
    TrimLeftAppend(v);
    var w := TrimLeft(v);
    if w != "" {
      assert (w + "\n")[..|w|] == w;
      assert TrimRight(w + "\n") == TrimRight(w);
    }
  }

  predicate KeyText(key: string) {
    && key != "" && key[0] != '#' && '=' !in key && '\n' !in key
    && !IsSpace(key[0]) && !IsSpace(key[|key| - 1])
  }

  lemma TrimKey(key: string)
    requires KeyText(key)
    ensures Trim(key + " ") == key
  {
    assert TrimLeft(key + " ") == key + " ";
    assert (key + " ")[..|key|] == key;
    TrimRightOf(key);
  }

  /** What a printed line does to the configuration. */
  lemma ReadPrinted(c: Config, key: string, value: string, pppd: bool)
    requires KeyText(key) && value != "" && '\n' !in value
    ensures ReadLine(c, PushLine(key, value), pppd) == Assign(c, key, Trim(value), pppd)
  {
    var line := PushLine(key, value);
    var after := " " + value + "\n";
    SplitPrinted(key, value);
    TrimKey(key);
    TrimPrinted(value);
    hide Assign, Trim, IndexOf, KeyText, PushLine;
  }

  lemma SplitPrinted(key: string, value: string)
    requires KeyText(key) && value != ""
    ensures
      var line := PushLine(key, value);
      && |line| >= |key| + 4 && line[0] != '#' && IndexOf(line, '=') == |key| + 1
      && line[..|key| + 1] == key + " " && line[|key| + 2..] == " " + value + "\n"
  {
    assert PushLine(key, value) == (key + " ") + ['='] + (" " + value + "\n");
    IndexOfFirst(key + " ", '=', " " + value + "\n");
    hide IndexOf;
  }

  lemma LinePrinted(key: string, value: string, rest: string)
    requires KeyText(key) && value != "" && '\n' !in value
    ensures LineLength(PushLine(key, value) + rest) == |PushLine(key, value)|
  {
    IndexOfFirst(key + " = " + value, '\n', rest);
    assert PushLine(key, value) + rest == key + " = " + value + ['\n'] + rest;
  }

  function Continue(c: Option<Config>, old_: Config, rest: string, pppd: bool): Config {
    match c
    case Some(after) => Loaded(after, rest, pppd)
    case None => old_
  }

  /** Reading on from a line the manager pushed. */
  lemma LoadPrinted(c: Config, key: string, value: string, rest: string, pppd: bool)
    requires KeyText(key) && '\n' !in value
    ensures Loaded(c, PushLine(key, value) + rest, pppd)
              == if value == "" then Loaded(c, rest, pppd)
                 else Continue(Assign(c, key, Trim(value), pppd), c, rest, pppd)
  {
    var line := PushLine(key, value);
    if value == "" {
      assert line + rest == rest;
    } else {
      ReadPrinted(c, key, value, pppd);
      LinePrinted(key, value, rest);
      hide Assign, Trim, ReadLine, LineLength;
      assert (line + rest)[..|line|] == line;
      assert (line + rest)[|line|..] == rest;
      assert line + rest != "";
    }
  }

  lemma LoadComment(c: Config, text: string, rest: string, pppd: bool)
    requires text != "" && text[0] == '#' && '\n' !in text
    ensures Loaded(c, text + "\n" + rest, pppd) == Loaded(c, rest, pppd)
  {
    var line := text + "\n";
    IndexOfFirst(text, '\n', rest);
    assert line + rest == text + ['\n'] + rest;
    hide IndexOf;
    assert LineLength(line + rest) == |line|;
    assert (line + rest)[..|line|] == line;
    assert (line + rest)[|line|..] == rest;
  }

  lemma BannerIsComment()
    ensures '\n' !in BANNER && BANNER != "" && BANNER[0] == '#'
  {
  }

  // ---- numbers

  predicate AllDigits(s: string) {
    forall i :: 0 <= i < |s| ==> '0' <= s[i] <= '9'
  }

  lemma {:induction false} DigitsSnoc(s: string, d: char, sofar: nat)
    requires AllDigits(s) && '0' <= d <= '9'
    ensures Digits(s + [d], 10, sofar) == Digits(s, 10, sofar) * 10 + (d - '0') as nat
  {
    if s == "" {
      assert (s + [d])[1..] == "";
    } else {
      assert (s + [d])[1..] == s[1..] + [d];
      DigitsSnoc(s[1..], d, sofar * 10 + DigitOf(s[0]));
    }
  }

  lemma {:induction false} DecimalDigits(n: nat)
    ensures AllDigits(Decimal(n)) && Digits(Decimal(n), 10, 0) == n
    ensures n > 0 ==> Decimal(n)[0] != '0'
    ensures '\n' !in Decimal(n)
  {
    if n < 10 {
      assert Digits([], 10, n) == n;
      assert Decimal(n)[1..] == "";
    } else {
      DecimalDigits(n / 10);
      DigitsSnoc(Decimal(n / 10), '0' + (n % 10) as char, 0);
    }
  }

  lemma PortRead(n: nat)
    requires n > 0
    ensures Strtol(Trim(Decimal(n))) == n && '\n' !in Decimal(n)
  {
    DecimalDigits(n);
    TrimExactly(Decimal(n));
    hide Trim, Digits, Decimal;
  }

  lemma OneDigit(c: char)
    requires '0' <= c <= '7'
    ensures Strtol([c]) == (c - '0') as int
  {
    TrimLeftOf([c]);
    hide TrimLeft;
    assert [c][1..] == "";
    assert Digits([c], 10, 0) == Digits([c], 8, 0) == DigitOf(c) by {
      assert Digits([], 10, DigitOf(c)) == DigitOf(c) == Digits([], 8, DigitOf(c));
    }
    hide Digits;
  }

  lemma BoolRead(b: bool)
    ensures Strtob(Trim(BoolValue(b))) == Number(b) && '\n' !in BoolValue(b)
  {
    OneDigit(if b then '1' else '0');
    TrimExactly(BoolValue(b));
    hide Trim, Strtol;
  }

  // ---- the whole file

  /** What the engine makes of a value: an empty one leaves the prior value. */
  function Received(value: string, prior: string): string {
    if value == "" then prior else Trim(value)
  }

  function Number(b: bool): int {
    if b then 1 else 0
  }

  /** The configuration after reading the printed file. Without pppd the engine gives up
    * at pppd-use-peerdns, so that the last line has no effect.
    */
  function Expected(c: Config, p: Profile, password: string, pppd: bool): Config {
    Config(
      Received(p.host, c.host), p.port, Received(p.username, c.username), Received(password, c.password),
      c.passwordSet || password != "", Received(p.realm, c.realm), Number(p.setRoutes), Number(p.setDns),
      if pppd then Number(p.pppdUsePeerdns) else c.pppdUsePeerdns,
      if pppd then Number(p.halfInternetRoutes) else c.halfInternetRoutes,
      if p.trustedCert == "" then c.certs else c.certs + [p.trustedCert])
  }

  lemma TextLine(c: Config, key: string, value: string, size: nat, rest: string, pppd: bool)
    requires EngineField(value, size)
    requires (key == "host" && size == GATEWAY_HOST_SIZE) || (key == "username" && size == USERNAME_SIZE)
          || (key == "password" && size == PASSWORD_SIZE) || (key == "realm" && size == REALM_SIZE)
    ensures
      var after :=
        if key == "host" then c.(host := Received(value, c.host))
        else if key == "username" then c.(username := Received(value, c.username))
        else if key == "password" then
          c.(password := Received(value, c.password), passwordSet := c.passwordSet || value != "")
        else c.(realm := Received(value, c.realm));
      Loaded(c, PushLine(key, value) + rest, pppd) == Loaded(after, rest, pppd)
  {
    assert KeyText(key);
    LoadPrinted(c, key, value, rest, pppd);
    assert Cut(Trim(value), size) == Trim(value);
    hide KeyText, Trim, PushLine, Loaded;
  }

  lemma PortLine(c: Config, port: nat, rest: string, pppd: bool)
    requires 0 < port <= 65535
    ensures Loaded(c, PushLine("port", Decimal(port)) + rest, pppd) == Loaded(c.(port := port), rest, pppd)
  {
    PortRead(port);
    LoadPrinted(c, "port", Decimal(port), rest, pppd);
    hide Trim, Strtol, PushLine, Loaded, Decimal;
  }

  lemma PinLine(c: Config, pin: string, rest: string, pppd: bool)
    requires ValidPin(pin)
    ensures Loaded(c, PushLine("trusted-cert", pin) + rest, pppd)
              == Loaded(c.(certs := if pin == "" then c.certs else c.certs + [pin]), rest, pppd)
  {
    TrimExactly(pin);
    LoadPrinted(c, "trusted-cert", pin, rest, pppd);
    hide Trim, PushLine, Loaded;
  }

  lemma FlagKey(key: string)
    requires key in ["set-routes", "set-dns", "pppd-use-peerdns", "half-internet-routes"]
    ensures KeyText(key)
  {
  }

  lemma AssignFlag(c: Config, key: string, b: bool, pppd: bool)
    requires key in ["set-routes", "set-dns", "pppd-use-peerdns", "half-internet-routes"]
    ensures
      Assign(c, key, Trim(BoolValue(b)), pppd)
        == if key == "set-routes" then Some(c.(setRoutes := Number(b)))
           else if key == "set-dns" then Some(c.(setDns := Number(b)))
           else if key == "half-internet-routes" then Some(c.(halfInternetRoutes := Number(b)))
           else if pppd then Some(c.(pppdUsePeerdns := Number(b)))
           else None
  {
    BoolRead(b);
    hide Strtob, Trim, BoolValue;
  }

  lemma FlagLine(c: Config, key: string, b: bool, rest: string, pppd: bool)
    requires key in ["set-routes", "set-dns", "pppd-use-peerdns", "half-internet-routes"]
    ensures
      var after :=
        if key == "set-routes" then c.(setRoutes := Number(b))
        else if key == "set-dns" then c.(setDns := Number(b))
        else if key == "pppd-use-peerdns" then c.(pppdUsePeerdns := Number(b))
        else c.(halfInternetRoutes := Number(b));
      Loaded(c, PushLine(key, BoolValue(b)) + rest, pppd)
        == if key == "pppd-use-peerdns" && !pppd then c else Loaded(after, rest, pppd)
  {
    FlagKey(key);
    BoolRead(b);
    assert BoolValue(b) != "";
    LoadPrinted(c, key, BoolValue(b), rest, pppd);
    AssignFlag(c, key, b, pppd);
    hide KeyText, Trim, PushLine, Loaded, Strtob, Assign, BoolValue;
  }

  lemma LastFlags(c: Config, p: Profile, pppd: bool)
    ensures
      var text :=
        PushLine("set-routes", BoolValue(p.setRoutes))
        + (PushLine("set-dns", BoolValue(p.setDns))
           + (PushLine("pppd-use-peerdns", BoolValue(p.pppdUsePeerdns))
              + PushLine("half-internet-routes", BoolValue(p.halfInternetRoutes))));
      Loaded(c, text, pppd)
        == c.(setRoutes := Number(p.setRoutes), setDns := Number(p.setDns),
              pppdUsePeerdns := if pppd then Number(p.pppdUsePeerdns) else c.pppdUsePeerdns,
              halfInternetRoutes := if pppd then Number(p.halfInternetRoutes) else c.halfInternetRoutes)
  {
    var half := PushLine("half-internet-routes", BoolValue(p.halfInternetRoutes));
    assert half == half + "";
    hide PushLine, BoolValue;
    var c1 := c.(setRoutes := Number(p.setRoutes));
    var c2 := c1.(setDns := Number(p.setDns));
    var c3 := c2.(pppdUsePeerdns := Number(p.pppdUsePeerdns));
    FlagLine(c, "set-routes", p.setRoutes,
             PushLine("set-dns", BoolValue(p.setDns))
             + (PushLine("pppd-use-peerdns", BoolValue(p.pppdUsePeerdns)) + half), pppd);
    FlagLine(c1, "set-dns", p.setDns, PushLine("pppd-use-peerdns", BoolValue(p.pppdUsePeerdns)) + half, pppd);
    FlagLine(c2, "pppd-use-peerdns", p.pppdUsePeerdns, half, pppd);
    FlagLine(c3, "half-internet-routes", p.halfInternetRoutes, "", pppd);
  }

  /** Reading what was printed, for every valid profile and password and every prior
    * configuration.
    */
  lemma LoadInvertsPrint(c: Config, p: Profile, password: string, pppd: bool)
    requires ValidProfile(p) && ValidPassword(password)
    ensures Loaded(c, Printed(p, password), pppd) == Expected(c, p, password, pppd)
  {
    BannerIsComment();
    hide PushLine, BoolValue, Decimal, Loaded, EngineField, ValidPin, Blank, OneLine, Received, BANNER;
    var flags :=
      PushLine("set-routes", BoolValue(p.setRoutes))
      + (PushLine("set-dns", BoolValue(p.setDns))
         + (PushLine("pppd-use-peerdns", BoolValue(p.pppdUsePeerdns))
            + PushLine("half-internet-routes", BoolValue(p.halfInternetRoutes))));
    var pin := PushLine("trusted-cert", p.trustedCert) + flags;
    var realm := PushLine("realm", p.realm) + pin;
    var pass := PushLine("password", password) + realm;
    var user := PushLine("username", p.username) + pass;
    var port := PushLine("port", Decimal(p.port)) + user;
    var host := PushLine("host", p.host) + port;
    LoadComment(c, BANNER, host, pppd);
    TextLine(c, "host", p.host, GATEWAY_HOST_SIZE, port, pppd);
    var c1 := c.(host := Received(p.host, c.host));
    PortLine(c1, p.port, user, pppd);
    var c2 := c1.(port := p.port);
    TextLine(c2, "username", p.username, USERNAME_SIZE, pass, pppd);
    var c3 := c2.(username := Received(p.username, c.username));
    TextLine(c3, "password", password, PASSWORD_SIZE, realm, pppd);
    var c4 := c3.(password := Received(password, c.password), passwordSet := c.passwordSet || password != "");
    TextLine(c4, "realm", p.realm, REALM_SIZE, pin, pppd);
    var c5 := c4.(realm := Received(p.realm, c.realm));
    PinLine(c5, p.trustedCert, flags, pppd);
    var c6 := c5.(certs := if p.trustedCert == "" then c.certs else c.certs + [p.trustedCert]);
    LastFlags(c6, p, pppd);
  }

  predicate VerticalTabAtEdge(value: string) {
    value != "" && (value[0] == '\U{b}' || value[|value| - 1] == '\U{b}')
  }

  /** A non-empty value that passed the manager's validation reaches the engine unchanged
    * exactly when it has no vertical tab at its ends: the one character that the engine
    * trims and the validation lets through.
    */
  lemma ReceivedExactly(value: string, limit: nat, prior: string)
    requires value != "" && EngineField(value, limit)
    ensures Received(value, prior) == value <==> !VerticalTabAtEdge(value)
  {
    TrimExactly(value);
    assert forall c :: IsSpace(c) <==> AsciiWhitespace(c) || c == '\U{b}';
    assert value[0] != '\n' && value[|value| - 1] != '\n';
    hide Trim;
  }
}
