/** The private control channel from the manager to its engine: the frames the manager
  * prints (crates/manager-core/src/control.rs) and the engine's parser for them
  * (src/manager_control.c). Text is a sequence of characters, values are octets.
  */
module ControlFrame {
  import opened Wrappers
  import opened Base64

  const CONTROL_LINE_BYTES := 4096
  const PREFIX_BYTES := 160
  const VALUE_LIMIT := 1024

  function Bytes(text: string): (data: seq<Octet>)
    ensures |data| == |text|
  {
    seq(|text|, i requires 0 <= i < |text| => text[i] as int % 256)
  }

  // ---- the manager's side

  datatype Command = AuthResponse | AuthCancel | LeaseDecision | NetworkResult

  function Action(command: Command): string {
    match command
    case AuthResponse => "auth_response"
    case AuthCancel => "auth_cancel"
    case LeaseDecision => "lease_decision"
    case NetworkResult => "network_result"
  }

  predicate LowerHex(c: char) {
    '0' <= c <= '9' || 'a' <= c <= 'f'
  }

  predicate ValidAttempt(id: string) {
    && |id| == 36
    && forall i :: 0 <= i < 36 ==> if i == 8 || i == 13 || i == 18 || i == 23 then id[i] == '-' else LowerHex(id[i])
  }

  predicate ValidRequest(id: string) {
    |id| == 32 && forall i :: 0 <= i < 32 ==> LowerHex(id[i])
  }

  /** No NUL and no line break. */
  predicate Clean(value: seq<Octet>) {
    forall i :: 0 <= i < |value| ==> value[i] != 0 && value[i] != 10 && value[i] != 13
  }

  predicate ValidValue(command: Command, value: seq<Octet>) {
    match command
    case LeaseDecision => value == Bytes("grant") || value == Bytes("grant_native") || value == Bytes("deny")
    case NetworkResult => value == Bytes("applied") || value == Bytes("released") || value == Bytes("deny")
    case _ => true
  }

  function Header(attempt: string, request: string, action: string): string {
    "OFV2 " + attempt + " " + request + " " + action + " "
  }

  /** The frame without its newline. */
  function FrameText(attempt: string, request: string, action: string, value: seq<Octet>): string {
    Header(attempt, request, action) + Encode(value)
  }

  function Frame(attempt: string, request: string, command: Command, value: seq<Octet>): Result<string, ()> {
    if !ValidAttempt(attempt) || !ValidRequest(request) || value == [] || |value| > VALUE_LIMIT || !Clean(value) then
      Failure(())
    else if !ValidValue(command, value) then Failure(())
    else Success(FrameText(attempt, request, Action(command), value) + "\n")
  }

  // ---- the engine's side

  /** snprintf into the prefix buffer cuts what does not fit. */
  function Prefix(attempt: string, request: string, action: string): string {
    var header := Header(attempt, request, action);
    if |header| < PREFIX_BYTES then header else header[..PREFIX_BYTES - 1]
  }

  /** What manager_control_decode stores in a buffer of the given capacity. */
  function Decode(attempt: string, line: string, request: string, action: string, capacity: nat): Option<seq<Octet>> {
    var prefix := Prefix(attempt, request, action);
    if capacity == 0 || attempt == "" || !(prefix <= line) then None
    else DecodePayload(line[|prefix|..], capacity)
  }

  function DecodePayload(payload: string, capacity: nat): Option<seq<Octet>> {
    if |payload| == 0 || |payload| > CONTROL_LINE_BYTES - 1 || |payload| % 4 != 0 || !Padded(payload) then None
    else
      var size := |DecodeBlock(payload)| - Pads(payload);
      if size <= 0 || size >= capacity then None
      else
        var bytes := DecodeBlock(payload)[..size];
        if Encode(bytes) == payload && Clean(bytes) then Some(bytes) else None
  }

  predicate Carries(payload: string, capacity: nat, value: seq<Octet>) {
    0 < |value| < capacity && Clean(value) && |payload| <= CONTROL_LINE_BYTES - 1 && payload == Encode(value)
  }

  lemma DecodePayloadExactly(payload: string, capacity: nat, value: seq<Octet>)
    ensures DecodePayload(payload, capacity) == Some(value) <==> Carries(payload, capacity, value)
  {
    if Carries(payload, capacity, value) {
      EncodeAlphabet(value);
      DecodeEncode(value);
      hide Encode, DecodeBlock, Padded, Pads, Clean;
    } else {
      hide Encode, DecodeBlock, Padded, Pads, Clean;
    }
  }

  /** The parser accepts a line with a value exactly when the line is the frame of that
    * value for this attempt, request and action, and the value is not empty, fits the
    * buffer with its terminator, has no NUL and no line break, and encodes within a line.
    */
  lemma DecodeExactly(
      attempt: string, line: string, request: string, action: string, capacity: nat, value: seq<Octet>)
    requires |Header(attempt, request, action)| < PREFIX_BYTES
    ensures
      Decode(attempt, line, request, action, capacity) == Some(value) <==>
        && attempt != "" && 0 < |value| < capacity && Clean(value) && |Encode(value)| <= CONTROL_LINE_BYTES - 1
        && line == FrameText(attempt, request, action, value)
  {
    var header := Header(attempt, request, action);
    if header <= line {
      DecodePayloadExactly(line[|header|..], capacity, value);
      assert line == header + line[|header|..];
      hide Encode, Clean, DecodePayload;
    } else {
      assert header <= FrameText(attempt, request, action, value);
    }
  }

  /** Decoding inverts framing: the engine recovers what the manager framed, from the frame
    * without its newline, exactly when its buffer holds the value and a terminator.
    */
  lemma DecodeInvertsFrame(attempt: string, request: string, command: Command, value: seq<Octet>, capacity: nat)
    requires Frame(attempt, request, command, value).Success?
    ensures
      var text := Frame(attempt, request, command, value).value;
      && |text| > 0
      && Decode(attempt, text[..|text| - 1], request, Action(command), capacity)
           == if |value| < capacity then Some(value) else None
  {
    var line := FrameText(attempt, request, Action(command), value);
    var text := Frame(attempt, request, command, value).value;
    assert text[..|text| - 1] == line;
    match Decode(attempt, line, request, Action(command), capacity)
    case Some(other) =>
      DecodeExactly(attempt, line, request, Action(command), capacity, other);
      assert line[|Header(attempt, request, Action(command))|..] == Encode(other);
      assert line[|Header(attempt, request, Action(command))|..] == Encode(value);
      EncodeInjective(value, other);
    case None =>
      EncodeAlphabet(value);
      DecodeExactly(attempt, line, request, Action(command), capacity, value);
  }

  /** No two lines give the same value. */
  lemma DecodeInjective(
      attempt: string, request: string, action: string, capacity: nat, otherCapacity: nat, line: string, other: string)
    requires |Header(attempt, request, action)| < PREFIX_BYTES
    requires Decode(attempt, line, request, action, capacity).Some?
    requires Decode(attempt, line, request, action, capacity) == Decode(attempt, other, request, action, otherCapacity)
    ensures line == other
  {
    var value := Decode(attempt, line, request, action, capacity).value;
    DecodeExactly(attempt, line, request, action, capacity, value);
    DecodeExactly(attempt, other, request, action, otherCapacity, value);
  }

  lemma HeaderRequest(attempt: string, request: string, action: string)
    ensures |Header(attempt, request, action)| >= 6 + |attempt| + |request|
    ensures Header(attempt, request, action)[6 + |attempt|..6 + |attempt| + |request|] == request
  {
  }

  /** No line is accepted for two requests. */
  lemma OneRequest(
      attempt: string, line: string, request: string, action: string, capacity: nat, other: string,
      otherAction: string, otherCapacity: nat)
    requires |Header(attempt, request, action)| < PREFIX_BYTES
    requires |Header(attempt, other, otherAction)| < PREFIX_BYTES
    requires |request| == |other|
    requires Decode(attempt, line, request, action, capacity).Some?
    requires Decode(attempt, line, other, otherAction, otherCapacity).Some?
    ensures request == other
  {
    HeaderRequest(attempt, request, action);
    HeaderRequest(attempt, other, otherAction);
    hide Header, DecodePayload;
    var at := 6 + |attempt|;
    assert line[at..at + |request|] == Header(attempt, request, action)[at..at + |request|];
    assert line[at..at + |request|] == Header(attempt, other, otherAction)[at..at + |request|];
  }

  method CheckAlphabet(payload: string) returns (ok: bool)
    ensures ok == Padded(payload)
  {
    var i := 0;
    while i < |payload|
      invariant 0 <= i <= |payload|
      invariant forall j :: 0 <= j < i ==> InEncoded(payload, j)
    {
      if !InAlphabet(payload[i]) && !(payload[i] == PAD && i + 2 >= |payload|) {
        assert !InEncoded(payload, i);
        return false;
      }
      i := i + 1;
    }
    ok := true;
  }

  method CheckClean(bytes: seq<Octet>) returns (ok: bool)
    ensures ok == Clean(bytes)
  {
    for i := 0 to |bytes|
      invariant forall j :: 0 <= j < i ==> bytes[j] != 0 && bytes[j] != 10 && bytes[j] != 13
    {
      if bytes[i] == 0 || bytes[i] == 13 || bytes[i] == 10 {
        return false;
      }
    }
    ok := true;
  }

  /** The loops of manager_control_decode over the payload. */
  method ReadPayload(payload: string, capacity: nat) returns (value: Option<seq<Octet>>)
    ensures value == DecodePayload(payload, capacity)
    ensures value.Some? ==> 0 < |value.value| < capacity
  {
    hide Padded, InEncoded, Encode, DecodeBlock, Pads, Clean;
    value := None;
    var length := |payload|;
    if length == 0 || length > CONTROL_LINE_BYTES - 1 || length % 4 != 0 {
      return;
    }
    var ok := CheckAlphabet(payload);
    if !ok {
      return;
    }
    var bytes := DecodeBlock(payload);
    var decoded := |bytes| - Pads(payload);
    if decoded <= 0 || decoded >= capacity {
      return;
    }
    bytes := bytes[..decoded];
    if Encode(bytes) != payload {
      return;
    }
    ok := CheckClean(bytes);
    if ok {
      value := Some(bytes);
    }
  }

  /** manager_control_decode: fills the buffer or leaves an empty string in it. */
  method ManagerControlDecode(attempt: string, line: string, request: string, action: string, response: array<Octet>)
    returns (ok: bool)
    modifies response
    ensures ok == Decode(attempt, line, request, action, response.Length).Some?
    ensures ok ==>
      var value := Decode(attempt, line, request, action, response.Length).value;
      |value| < response.Length && response[..] == value + [0] + old(response[|value| + 1..])
    ensures !ok && response.Length > 0 ==> response[..] == [0] + old(response[1..])
  {
    if response.Length == 0 {
      return false;
    }
    response[0] := 0;
    var prefix := Prefix(attempt, request, action);
    hide Prefix;
    if attempt == "" || !(prefix <= line) {
      return false;
    }
    var value := ReadPayload(line[|prefix|..], response.Length);
    hide DecodePayload;
    if value.None? {
      return false;
    }
    Store(response, value.value);
    assert old(response[..])[1..] == old(response[1..]);
    assert old(response[..])[|value.value| + 1..] == old(response[|value.value| + 1..]);
    ok := true;
  }

  /** The copy into the caller's buffer with a terminator. */
  method Store(response: array<Octet>, bytes: seq<Octet>)
    requires |bytes| < response.Length
    modifies response
    ensures response[..] == bytes + [0] + old(response[..])[|bytes| + 1..]
  {
    forall k | 0 <= k < |bytes| {
      response[k] := bytes[k];
    }
    response[|bytes|] := 0;
  }

  // ---- releasing the network

  const ANSWER_BYTES := 16

  /** The frame, if there was one, answers the request with this text. */
  predicate Answers(attempt: string, frame: Option<string>, request: string, answer: string) {
    frame.Some? && Decode(attempt, frame.value, request, "network_result", ANSWER_BYTES) == Some(Bytes(answer))
  }

  /** strcmp of the buffer with a text finds no difference. */
  predicate Holds(buffer: seq<Octet>, text: string) {
    |text| < |buffer| && buffer[..|text|] == Bytes(text) && buffer[|text|] == 0
  }

  lemma HoldsExactly(buffer: seq<Octet>, value: seq<Octet>, text: string)
    requires |value| < |buffer| && buffer[..|value|] == value && buffer[|value|] == 0
    requires Clean(value) && Clean(Bytes(text)) && |text| < |buffer|
    ensures Holds(buffer, text) <==> value == Bytes(text)
  {
    if |value| < |text| {
      assert buffer[..|text|][|value|] != Bytes(text)[|value|];
    } else if |text| < |value| {
      assert buffer[..|value|][|text|] == buffer[|text|];
    }
  }

  lemma DecodedIsClean(attempt: string, line: string, request: string, action: string, capacity: nat)
    requires Decode(attempt, line, request, action, capacity).Some?
    ensures Clean(Decode(attempt, line, request, action, capacity).value)
  {
    hide Encode, DecodeBlock, Padded, Pads, Clean;
  }

  lemma AnswersAreClean()
    ensures Clean(Bytes("released")) && Clean(Bytes("applied")) && Clean(Bytes("deny"))
  {
  }

  method ReadAnswer(attempt: string, line: string, request: string, answer: array<Octet>)
    returns (ok: bool)
    requires answer.Length == ANSWER_BYTES
    modifies answer
    ensures ok == Decode(attempt, line, request, "network_result", ANSWER_BYTES).Some?
    ensures ok ==>
      && (Holds(answer[..], "released") <==> Answers(attempt, Some(line), request, "released"))
      && (Holds(answer[..], "applied") <==> Answers(attempt, Some(line), request, "applied"))
      && (Holds(answer[..], "deny") <==> Answers(attempt, Some(line), request, "deny"))
  {
    AnswersAreClean();
    hide Bytes, Clean, Holds;
    ok := ManagerControlDecode(attempt, line, request, "network_result", answer);
    if ok {
      DecodedIsClean(attempt, line, request, "network_result", ANSWER_BYTES);
      var value := Decode(attempt, line, request, "network_result", ANSWER_BYTES).value;
      hide Decode;
      assert answer[..][..|value|] == value && answer[..][|value|] == 0;
      HoldsExactly(answer[..], value, "released");
      HoldsExactly(answer[..], value, "applied");
      HoldsExactly(answer[..], value, "deny");
    }
  }

  lemma NotStale(attempt: string, line: string, id: string, earlier: string)
    requires attempt == "" || ValidAttempt(attempt)
    requires ValidRequest(id) && ValidRequest(earlier) && id != earlier
    requires Decode(attempt, line, id, "network_result", ANSWER_BYTES).Some?
    ensures Decode(attempt, line, earlier, "network_result", ANSWER_BYTES).None?
  {
    if Decode(attempt, line, earlier, "network_result", ANSWER_BYTES).Some? {
      OneRequest(attempt, line, id, "network_result", ANSWER_BYTES, earlier, "network_result", ANSWER_BYTES);
    }
  }

  /** The release of this request is granted: by the first frame, or by the second if the
    * first is the late answer to the apply.
    */
  predicate Granted(attempt: string, frames: seq<Option<string>>, id: string, earlier: string) {
    || (|frames| > 0 && Answers(attempt, frames[0], id, "released"))
    || (&& |frames| > 1 && earlier != "" && earlier != id
        && (Answers(attempt, frames[0], earlier, "applied") || Answers(attempt, frames[0], earlier, "deny"))
        && Answers(attempt, frames[1], id, "released"))
  }

  /** The loop over the frames read within the time limit, None where reading failed or time
    * ran out. earlier is the request of the attempt's apply, empty when there was none.
    */
  method AwaitRelease(attempt: string, frames: seq<Option<string>>, id: string, earlier: string)
    returns (released: bool)
    requires attempt == "" || ValidAttempt(attempt)
    requires ValidRequest(id) && (earlier == "" || ValidRequest(earlier))
    ensures released <==> Granted(attempt, frames, id, earlier)
  {
    var stale := 0;
    var k := 0;
    var answer := new Octet[ANSWER_BYTES];
    released := false;
    hide Decode, Holds, ValidAttempt, ValidRequest, Bytes;
    while k < |frames| && frames[k].Some?
      invariant k == stale <= 1 && k <= |frames|
      invariant !released
      invariant k == 1 ==>
        && earlier != "" && earlier != id
        && !Answers(attempt, frames[0], id, "released")
        && (Answers(attempt, frames[0], earlier, "applied") || Answers(attempt, frames[0], earlier, "deny"))
    {
      var ok := ReadAnswer(attempt, frames[k].value, id, answer);
      if ok {
        released := Holds(answer[..], "released");
        if earlier != "" && earlier != id {
          NotStale(attempt, frames[k].value, id, earlier);
        }
        break;
      }
      if stale != 0 || earlier == "" {
        break;
      }
      ok := ReadAnswer(attempt, frames[k].value, earlier, answer);
      if !ok || (!Holds(answer[..], "applied") && !Holds(answer[..], "deny")) {
        break;
      }
      stale := stale + 1;
      k := k + 1;
    }
  }

  /** manager_control_network_release: what it returns, and whether the plan still counts as
    * started. id is the request it makes up, if it can.
    */
  method NetworkRelease(
      attempt: string, started: bool, id: Option<string>, frames: seq<Option<string>>, earlier: string)
    returns (released: bool, stillStarted: bool)
    requires attempt == "" || ValidAttempt(attempt)
    requires (id.Some? ==> ValidRequest(id.value)) && (earlier == "" || ValidRequest(earlier))
    ensures released <==> !started || (id.Some? && Granted(attempt, frames, id.value, earlier))
    ensures stillStarted == (started && !released)
  {
    if !started {
      return true, false;
    }
    if id.None? {
      return false, true;
    }
    released := AwaitRelease(attempt, frames, id.value, earlier);
    stillStarted := !released;
  }
}
