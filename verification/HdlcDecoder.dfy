/** Finding and reading frames: hdlc_find_frame and hdlc_decode of src/hdlc.c. */
module HdlcDecoder {
  import opened Wrappers
  import opened Fcs
  import opened Hdlc

  type Decoded = Result<seq<Byte>, HdlcError>

  // ---- what decoding is

  function Prepend(front: seq<Byte>, r: Decoded): Decoded {
    match r
    case Success(rest) => Success(front + rest)
    case Failure(e) => Failure(e)
  }

  /** Undoes the escapes of s into at most capacity bytes. Control characters
    * outside an escape are dropped; an escape must be followed by another byte.
    */
  function Unstuff(s: seq<Byte>, inEscape: bool, capacity: nat): (r: Decoded)
    ensures r.Success? ==> |r.value| <= capacity
  {
    if s == [] then
      if inEscape then Failure(InvalidFrame) else Success([])
    else if s[0] == ESCAPE then
      if inEscape then Failure(InvalidFrame) else Unstuff(s[1..], true, capacity)
    else if !inEscape && InReceivingAccm(s[0]) then
      Unstuff(s[1..], false, capacity)
    else if capacity == 0 then
      Failure(BufferTooSmall)
    else
      Prepend([if inEscape then s[0] ^ 0x20 else s[0]], Unstuff(s[1..], false, capacity - 1))
  }

  predicate HasAddressControl(frame: seq<Byte>) {
    |frame| >= 3 && frame[..3] == ADDRESS_CONTROL
  }

  /** The sum that the check starts from and the part of the frame it covers. */
  function StartSum(frame: seq<Byte>): bv16 {
    if HasAddressControl(frame) then ADDRESS_CONTROL_FCS else INITIAL_FCS
  }

  function Covered(frame: seq<Byte>): seq<Byte> {
    if HasAddressControl(frame) then frame[3..] else frame
  }

  function DecodeFrame(frame: seq<Byte>, capacity: nat): Decoded {
    if |frame| < 5 then
      Failure(InvalidFrame)
    else
      match Unstuff(Covered(frame), false, capacity)
      case Failure(e) => Failure(e)
      case Success(content) =>
        if |content| < 3 then Failure(InvalidFrame)
        else if Crc(StartSum(frame), content) != GOOD_FCS then Failure(BadChecksum)
        else Success(content[..|content| - 2])
  }

  // ---- the decoder

  lemma UnstuffAt(frame: seq<Byte>, i: nat, inEscape: bool, capacity: nat)
    requires i < |frame|
    ensures Unstuff(frame[i..], inEscape, capacity)
         == if frame[i] == ESCAPE then
              if inEscape then Failure(InvalidFrame) else Unstuff(frame[i + 1..], true, capacity)
            else if !inEscape && InReceivingAccm(frame[i]) then
              Unstuff(frame[i + 1..], false, capacity)
            else if capacity == 0 then
              Failure(BufferTooSmall)
            else
              Prepend([if inEscape then frame[i] ^ 0x20 else frame[i]],
                      Unstuff(frame[i + 1..], false, capacity - 1))
  {
    assert frame[i..][1..] == frame[i + 1..];
  }

  lemma UnstuffAtEnd(frame: seq<Byte>, inEscape: bool, capacity: nat, front: seq<Byte>)
    ensures Prepend(front, Unstuff(frame[|frame|..], inEscape, capacity))
         == if inEscape then Failure(InvalidFrame) else Success(front)
  {
    assert front + [] == front;
  }

  lemma PrependFailure(front: seq<Byte>, r: Decoded)
    ensures r.Failure? ==> Prepend(front, r) == r
  {
  }

  /** The loop of the source that undoes the escapes of frame[start..]. */
  method UnstuffInto(frame: seq<Byte>, start: nat, packet: array<Byte>) returns (result: Result<nat, HdlcError>)
    requires start <= |frame|
    modifies packet
    ensures match Unstuff(frame[start..], false, packet.Length)
            case Failure(e) => result == Failure(e)
            case Success(p) => result == Success(|p|) && |p| <= packet.Length && packet[..|p|] == p
  {
    hide Unstuff;
    hide Prepend;
    hide InReceivingAccm;
    var written := 0;
    var inEscape := false;
    var i := start;
    ghost var all := Unstuff(frame[start..], false, packet.Length);
    PrependNothing(all);
    assert packet[..0] == [];
    while i < |frame|
      invariant start <= i <= |frame|
      invariant 0 <= written <= packet.Length
      invariant all == Prepend(packet[..written], Unstuff(frame[i..], inEscape, packet.Length - written))
    {
      var byte := frame[i];
      UnstuffAt(frame, i, inEscape, packet.Length - written);
      PrependFailure(packet[..written], Unstuff(frame[i..], inEscape, packet.Length - written));
      i := i + 1;
      if byte == ESCAPE {
        if inEscape {
          return Failure(InvalidFrame);
        }
        inEscape := true;
        continue;
      } else if inEscape {
        byte := byte ^ 0x20;
        inEscape := false;
      } else if InReceivingAccm(byte) {
        continue;
      }
      if written >= packet.Length {
        return Failure(BufferTooSmall);
      }
      ghost var front := packet[..written];
      packet[written] := byte;
      written := written + 1;
      PrependTwice(front, [byte], Unstuff(frame[i..], inEscape, packet.Length - written));
      assert packet[..written] == front + [byte];
    }
    UnstuffAtEnd(frame, inEscape, packet.Length - written, packet[..written]);
    if inEscape {
      return Failure(InvalidFrame);
    }
    return Success(written);
  }

  /** On success the packet buffer starts with the decoded packet. */
  method Decode(frame: seq<Byte>, packet: array<Byte>) returns (result: Result<nat, HdlcError>)
    modifies packet
    ensures match DecodeFrame(frame, packet.Length)
            case Failure(e) => result == Failure(e)
            case Success(p) => result == Success(|p|) && |p| <= packet.Length && packet[..|p|] == p
  {
    hide Crc;
    hide Unstuff;
    if |frame| < 5 {
      return Failure(InvalidFrame);
    }
    var start := 0;
    var hasAddressControl := false;
    if frame[0] == 0xff && frame[1] == ESCAPE && frame[2] == 0x03 ^ 0x20 {
      start := start + 3;
      hasAddressControl := true;
    }
    assert hasAddressControl == HasAddressControl(frame) && frame[start..] == Covered(frame);
    var content := UnstuffInto(frame, start, packet);
    if content.Failure? {
      return content;
    }
    var written := content.value;
    if written < 3 {
      return Failure(InvalidFrame);
    }
    var checksum := FrameChecksum16Bit(
      if hasAddressControl then ADDRESS_CONTROL_FCS else INITIAL_FCS, packet[..written]);
    if checksum != GOOD_FCS {
      return Failure(BadChecksum);
    }
    assert packet[..written][..written - 2] == packet[..written - 2];
    return Success(written - 2);
  }

  lemma PrependNothing(r: Decoded)
    ensures Prepend([], r) == r
  {
    if r.Success? {
      assert [] + r.value == r.value;
    }
  }

  lemma PrependTwice(a: seq<Byte>, b: seq<Byte>, r: Decoded)
    ensures Prepend(a, Prepend(b, r)) == Prepend(a + b, r)
  {
    if r.Success? {
      assert a + (b + r.value) == a + b + r.value;
    }
  }

  // ---- decoding inverts encoding

  lemma UnstuffStuffByte(b: Byte, rest: seq<Byte>, capacity: nat)
    ensures Unstuff(StuffByte(b) + rest, false, capacity)
         == if capacity == 0 then Failure(BufferTooSmall)
            else Prepend([b], Unstuff(rest, false, capacity - 1))
  {
    var s := StuffByte(b) + rest;
    if InSendingAccm(b) {
      EscapedByte(b);
      assert s[1..] == [b ^ 0x20] + rest;
      assert s[1..][1..] == rest;
    } else {
      assert s[1..] == rest;
    }
  }

  lemma {:induction false} UnstuffStuff(data: seq<Byte>, capacity: nat)
    ensures Unstuff(Stuff(data), false, capacity)
         == if |data| <= capacity then Success(data) else Failure(BufferTooSmall)
  {
    hide StuffByte;
    if data != [] {
      UnstuffStuffByte(data[0], Stuff(data[1..]), capacity);
      if capacity > 0 {
        UnstuffStuff(data[1..], capacity - 1);
        assert [data[0]] + data[1..] == data;
      }
    }
  }

  /** A frame decodes to the packet it was made from exactly when that packet is not
    * empty; an empty packet's frame is refused.
    */
  lemma RoundTrip(packet: seq<Byte>, capacity: nat)
    requires |packet| + 2 <= capacity
    ensures DecodeFrame(FrameBody(packet), capacity)
         == if packet == [] then Failure(InvalidFrame) else Success(packet)
  {
    hide Crc;
    var field := FcsField(Crc(ADDRESS_CONTROL_FCS, packet));
    var low, high := field[0], field[1];
    assert field == [low, high];
    hide FcsField;
    var frame := FrameBody(packet);
    var content := Content(packet);
    StuffLength(content);
    assert frame[..3] == ADDRESS_CONTROL;
    assert frame[3..] == Stuff(content);
    UnstuffStuff(content, capacity);
    GoodExactlyWithItsField(ADDRESS_CONTROL_FCS, packet, low, high);
    assert content == packet + [low, high];
    assert content[..|content| - 2] == packet;
  }

  /** What is accepted is a non-empty packet followed by its own check sequence. */
  lemma AcceptedExactly(frame: seq<Byte>, capacity: nat, packet: seq<Byte>)
    ensures DecodeFrame(frame, capacity) == Success(packet)
       <==> && |frame| >= 5
            && packet != []
            && Unstuff(Covered(frame), false, capacity)
            == Success(packet + FcsField(Crc(StartSum(frame), packet)))
  {
    hide Crc;
    var sum := StartSum(frame);
    var field := FcsField(Crc(sum, packet));
    assert |field| == 2;
    hide FcsField;
    hide Unstuff;
    var u := Unstuff(Covered(frame), false, capacity);
    if |frame| >= 5 && u.Success? && |u.value| >= 3 {
      var content := u.value;
      var n := |content| - 2;
      var low, high := content[n], content[n + 1];
      assert content == content[..n] + [low, high];
      GoodExactlyWithItsField(sum, content[..n], low, high);
      if content == packet + field {
        assert content[..n] == packet && [low, high] == field;
      }
    }
  }

  /** Whatever an accepted frame carries, changing its unescaped content inside two
    * adjacent bytes makes the decoder report a bad checksum.
    */
  lemma CorruptionIsReported(good: seq<Byte>, bad: seq<Byte>, capacity: nat,
                             pre: seq<Byte>, a: Byte, b: Byte, c: Byte, d: Byte, post: seq<Byte>)
    requires DecodeFrame(good, capacity).Success?
    requires Unstuff(Covered(good), false, capacity) == Success(pre + [a, b] + post)
    requires Unstuff(Covered(bad), false, capacity) == Success(pre + [c, d] + post)
    requires HasAddressControl(good) == HasAddressControl(bad) && |bad| >= 5
    requires a != c || b != d
    ensures DecodeFrame(bad, capacity) == Failure(BadChecksum)
  {
    hide Crc;
    WindowChangeIsSeen(StartSum(good), pre, a, b, c, d, post);
  }

  // ---- finding frames

  datatype Span = Span(start: nat, end: nat)

  /** The first flag at or after i, or the length of the buffer. */
  function NextFlag(b: seq<Byte>, i: nat): (f: nat)
    requires i <= |b|
    ensures i <= f <= |b| && (f < |b| ==> b[f] == FLAG)
    ensures forall k :: i <= k < f ==> b[k] != FLAG
    decreases |b| - i
  {
    if i == |b| || b[i] == FLAG then i else NextFlag(b, i + 1)
  }

  function SkipFlags(b: seq<Byte>, i: nat): (f: nat)
    requires i <= |b|
    ensures i <= f <= |b| && (f < |b| ==> b[f] != FLAG)
    ensures forall k :: i <= k < f ==> b[k] == FLAG
    decreases |b| - i
  {
    if i == |b| || b[i] != FLAG then i else SkipFlags(b, i + 1)
  }

  function FindFrame(b: seq<Byte>): (r: Option<Span>)
    ensures r.Some? ==> 0 < r.value.start < r.value.end < |b|
  {
    var s := NextFlag(b, 0);
    if s == |b| then None
    else
      var start := SkipFlags(b, s + 1);
      var end := NextFlag(b, start);
      if end == |b| then None else Some(Span(start, end))
  }

  predicate Delimited(b: seq<Byte>, s: nat, e: nat) {
    && 0 < s < e < |b| && b[s - 1] == FLAG && b[e] == FLAG
    && forall k :: s <= k < e ==> b[k] != FLAG
  }

  /** The span found is the first non-empty stretch between two flags, and none is
    * found exactly when there is none.
    */
  lemma FindFrameIsFirst(b: seq<Byte>)
    ensures FindFrame(b).None? <==> forall s: nat, e: nat :: !Delimited(b, s, e)
    ensures match FindFrame(b)
            case None => true
            case Some(f) =>
              && Delimited(b, f.start, f.end)
              && forall s: nat, e: nat :: Delimited(b, s, e) ==> f.start <= s
  {
    forall s: nat, e: nat | Delimited(b, s, e)
      ensures FindFrame(b).Some? && FindFrame(b).value.start <= s
    {
      var first := NextFlag(b, 0);
      assert b[s - 1] == FLAG && b[e] == FLAG;
      assert first <= s - 1;
      assert b[s] != FLAG;
      assert SkipFlags(b, first + 1) <= s;
    }
    if FindFrame(b).Some? {
      var f := FindFrame(b).value;
      assert b[f.start - 1] == FLAG;
      assert Delimited(b, f.start, f.end);
    }
  }

  method ScanToFlag(buffer: array<Byte>, size: nat, start: nat, i: nat) returns (f: nat)
    requires start <= i <= size <= buffer.Length
    ensures i <= f <= size && f - start == NextFlag(buffer[start..size], i - start)
  {
    f := i;
    while f < size && buffer[f] != FLAG
      invariant i <= f <= size
      invariant NextFlag(buffer[start..size], f - start) == NextFlag(buffer[start..size], i - start)
    {
      f := f + 1;
    }
  }

  method ScanPastFlags(buffer: array<Byte>, size: nat, start: nat, i: nat) returns (f: nat)
    requires start <= i <= size <= buffer.Length
    ensures i <= f <= size && f - start == SkipFlags(buffer[start..size], i - start)
  {
    f := i;
    while f < size && buffer[f] == FLAG
      invariant i <= f <= size
      invariant SkipFlags(buffer[start..size], f - start) == SkipFlags(buffer[start..size], i - start)
    {
      f := f + 1;
    }
  }

  /** The three scans of the source over buffer[start..size]. */
  method FindFrameIn(buffer: array<Byte>, size: nat, start: nat) returns (found: Option<Span>)
    requires start <= size <= buffer.Length
    ensures match FindFrame(buffer[start..size])
            case None => found == None
            case Some(f) => found == Some(Span(start + f.start, start + f.end))
  {
    hide NextFlag;
    hide SkipFlags;
    var flag := ScanToFlag(buffer, size, start, start);
    if flag == size {
      return None;
    }
    var s := ScanPastFlags(buffer, size, start, flag + 1);
    var e := ScanToFlag(buffer, size, start, s);
    if e == size {
      return None;
    }
    return Some(Span(s, e));
  }
}
