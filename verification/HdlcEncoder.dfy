/** Writing frames: hdlc_encode of src/hdlc.c and the caller's buffer bound. */
module HdlcEncoder {
  import opened Wrappers
  import opened Fcs
  import opened Hdlc

  /** The bytes written before the check sequence. */
  function Head(packet: seq<Byte>, needFlag: bool): seq<Byte> {
    (if needFlag then [FLAG] else []) + ADDRESS_CONTROL + Stuff(packet)
  }

  lemma HeadGrows(packet: seq<Byte>, i: nat, needFlag: bool)
    requires i < |packet|
    ensures Head(packet[..i + 1], needFlag) == Head(packet[..i], needFlag) + StuffByte(packet[i])
  {
    hide StuffByte;
    assert packet[..i + 1] == packet[..i] + [packet[i]];
    StuffAppend(packet[..i], [packet[i]]);
    StuffOne(packet[i]);
  }

  lemma HeadMonotone(packet: seq<Byte>, i: nat, needFlag: bool)
    requires i <= |packet|
    ensures |Head(packet[..i], needFlag)| <= |Head(packet, needFlag)|
  {
    assert packet == packet[..i] + packet[i..];
    StuffAppend(packet[..i], packet[i..]);
  }

  /** A frame is its head, the stuffed check sequence and the closing flag. */
  lemma EncodedParts(packet: seq<Byte>, needFlag: bool, low: Byte, high: Byte)
    requires [low, high] == FcsField(Crc(ADDRESS_CONTROL_FCS, packet))
    ensures Encoded(packet, needFlag)
         == Head(packet, needFlag) + StuffByte(low) + StuffByte(high) + [FLAG]
  {
    hide StuffByte;
    hide Stuff;
    hide Crc;
    hide FcsField;
    StuffAppend(packet, [low, high]);
    assert [low, high] == [low] + [high];
    StuffAppend([low], [high]);
    StuffOne(low);
    StuffOne(high);
    assert Stuff(Content(packet)) == Stuff(packet) + (StuffByte(low) + StuffByte(high));
  }

  // ---- the encoder

  datatype EncodeResult =
    | Written(length: nat)
    | TooSmall
    /** The source would go on writing behind the end of the caller's buffer. */
    | Overrun

  method PutStuffed(frame: array<Byte>, at: nat, b: Byte) returns (next: nat)
    requires at + |StuffByte(b)| <= frame.Length
    modifies frame
    ensures next == at + |StuffByte(b)|
    ensures frame[..next] == old(frame[..at]) + StuffByte(b)
    ensures frame[next..] == old(frame[..])[next..]
  {
    if InSendingAccm(b) {
      frame[at] := ESCAPE;
      frame[at + 1] := b ^ 0x20;
      next := at + 2;
    } else {
      frame[at] := b;
      next := at + 1;
    }
  }

  lemma TailStays(a: seq<Byte>, b: seq<Byte>, at: nat, next: nat)
    requires |a| == |b| && at <= next <= |a| && a[at..] == b[at..]
    ensures a[next..] == b[next..]
  {
    assert a[next..] == a[at..][next - at..];
    assert b[next..] == b[at..][next - at..];
  }

  /** Opening flag, Address and Control fields and the stuffed packet, with the
    * size checks of the source.
    */
  method PutHead(frame: array<Byte>, packet: seq<Byte>, needFlag: bool) returns (written: Option<nat>)
    modifies frame
    ensures written.None? <==> frame.Length < 7 || frame.Length < |Head(packet, needFlag)| + 3
    ensures written.Some? ==>
            && written.value == |Head(packet, needFlag)|
            && frame[..written.value] == Head(packet, needFlag)
            && frame[written.value..] == old(frame[..])[written.value..]
  {
    hide StuffByte;
    ghost var before := frame[..];
    HeadMonotone(packet, 0, needFlag);
    if frame.Length < 7 {
      return None;
    }
    var at := 0;
    if needFlag {
      frame[at] := FLAG;
      at := at + 1;
    }
    frame[at] := 0xff;
    frame[at + 1] := ESCAPE;
    frame[at + 2] := 0x03 ^ 0x20;
    at := at + 3;
    assert packet[..0] == [];
    assert frame[..at] == Head(packet[..0], needFlag);

    var i := 0;
    while i < |packet|
      invariant 0 <= i <= |packet|
      invariant at == |Head(packet[..i], needFlag)| <= frame.Length
      invariant frame[..at] == Head(packet[..i], needFlag)
      invariant frame[..][at..] == before[at..]
    {
      HeadGrows(packet, i, needFlag);
      StuffByteLength(packet[i]);
      HeadMonotone(packet, i + 1, needFlag);
      if frame.Length < at + 2 {
        return None;
      }
      ghost var held := frame[..];
      var next := PutStuffed(frame, at, packet[i]);
      TailStays(held, before, at, next);
      at := next;
      i := i + 1;
    }
    assert packet[..|packet|] == packet;
    if frame.Length < at + 3 {
      return None;
    }
    return Some(at);
  }

  /** The stuffed check sequence and the closing flag. */
  method PutTail(frame: array<Byte>, at: nat, low: Byte, high: Byte) returns (next: nat)
    requires at + |StuffByte(low)| + |StuffByte(high)| + 1 <= frame.Length
    modifies frame
    ensures next == at + |StuffByte(low)| + |StuffByte(high)| + 1
    ensures frame[..next] == old(frame[..at]) + StuffByte(low) + StuffByte(high) + [FLAG]
    ensures frame[next..] == old(frame[..])[next..]
  {
    hide StuffByte;
    ghost var before := frame[..];
    next := PutStuffed(frame, at, low);
    ghost var first, afterLow := next, frame[..];
    next := PutStuffed(frame, next, high);
    ghost var second, afterHigh := next, frame[..];
    TailStays(afterLow, before, first, second);
    assert afterHigh[..second] == afterLow[..first] + StuffByte(high);
    frame[next] := FLAG;
    next := next + 1;
    assert frame[..] == afterHigh[second := FLAG];
    TailStays(afterHigh, before, second, next);
    assert frame[..next] == afterHigh[..second] + [FLAG];
    assert frame[next..] == afterHigh[next..];
  }

  class Framer {
    var needFlagSequence: bool

    constructor Init()
      ensures needFlagSequence
    {
      needFlagSequence := true;
    }

    /** On success the buffer starts with the frame and the rest is untouched.
      * The size checks of the source miss the escapes of the check sequence: a
      * buffer that passes them but is shorter than the frame is overrun.
      */
    method Encode(frame: array<Byte>, packet: seq<Byte>) returns (result: EncodeResult)
      modifies this, frame
      ensures result.TooSmall? <==>
              frame.Length < 7 || frame.Length < |Head(packet, old(needFlagSequence))| + 3
      ensures result.Overrun? <==>
              !result.TooSmall? && frame.Length < |Encoded(packet, old(needFlagSequence))|
      ensures result.Written? ==>
              && !needFlagSequence
              && result.length == |Encoded(packet, old(needFlagSequence))| <= frame.Length
              && frame[..result.length] == Encoded(packet, old(needFlagSequence))
              && frame[result.length..] == old(frame[..])[result.length..]
      ensures !result.Written? ==> needFlagSequence == old(needFlagSequence)
    {
      hide Crc;
      hide StuffByte;
      hide Head;
      hide Encoded;
      ghost var before := frame[..];
      var head := PutHead(frame, packet, needFlagSequence);
      if head.None? {
        return TooSmall;
      }
      var checksum := FrameChecksum16Bit(ADDRESS_CONTROL_FCS, packet);
      var field := FcsField(checksum);
      var low, high := field[0], field[1];
      assert field == [low, high];
      hide FcsField;
      EncodedParts(packet, needFlagSequence, low, high);
      // Not in the source: without this stop it would write out of bounds.
      if frame.Length < head.value + |StuffByte(low)| + |StuffByte(high)| + 1 {
        return Overrun;
      }
      var written := PutTail(frame, head.value, low, high);
      assert before[written..] == before[head.value..][written - head.value..];
      needFlagSequence := false;
      result := Written(written);
    }
  }

  // ---- the caller's buffer

  /** The buffer size callers allocate for a packet of the given length. */
  function EstimatedEncodedSize(length: nat): nat {
    9 + 2 * length
  }

  lemma EncodedLength(packet: seq<Byte>, needFlag: bool)
    ensures |Head(packet, needFlag)| + 3 <= |Encoded(packet, needFlag)| <= EstimatedEncodedSize(|packet|)
  {
    hide StuffByte;
    hide Crc;
    var field := FcsField(Crc(ADDRESS_CONTROL_FCS, packet));
    var low, high := field[0], field[1];
    assert field == [low, high];
    hide FcsField;
    EncodedParts(packet, needFlag, low, high);
    StuffByteLength(low);
    StuffByteLength(high);
    StuffLength(packet);
  }

  /** With a buffer of the estimated size the encoder always succeeds. */
  method EncodeForCaller(framer: Framer, packet: seq<Byte>) returns (written: seq<Byte>)
    modifies framer
    ensures !framer.needFlagSequence
    ensures written == Encoded(packet, old(framer.needFlagSequence))
  {
    hide Encoded;
    hide Head;
    var frame := new Byte[EstimatedEncodedSize(|packet|)];
    EncodedLength(packet, framer.needFlagSequence);
    var result := framer.Encode(frame, packet);
    written := frame[..result.length];
  }

  // ---- the bound is exact

  function Repeat(b: Byte, k: nat): (s: seq<Byte>)
    ensures |s| == k
  {
    if k == 0 then [] else [b] + Repeat(b, k - 1)
  }

  /** A packet of each length from 2 on, all of whose bytes and both check bytes
    * need an escape. The sum after 0x00 0x0c 0x0a 0x14 is fixed by the byte 0x11.
    */
  function WorstPacket(n: nat): (packet: seq<Byte>)
    requires 2 <= n
    ensures |packet| == n
  {
    if n == 2 then [0x00, 0x0c]
    else if n == 3 then [0x00, 0x00, 0xfe]
    else [0x00, 0x0c, 0x0a, 0x14] + Repeat(0x11, n - 4)
  }

  predicate AllEscaped(data: seq<Byte>) {
    forall i :: 0 <= i < |data| ==> InSendingAccm(data[i])
  }

  lemma {:induction false} StuffDoublesExactlyEscaped(data: seq<Byte>)
    ensures |Stuff(data)| == 2 * |data| <==> AllEscaped(data)
  {
    hide InSendingAccm;
    if data != [] {
      StuffLength(data[1..]);
      StuffDoublesExactlyEscaped(data[1..]);
      if AllEscaped(data[1..]) && InSendingAccm(data[0]) {
        forall i | 0 <= i < |data| ensures InSendingAccm(data[i]) {
          assert i > 0 ==> data[i] == data[1..][i - 1];
        }
      }
    }
  }

  lemma LengthAtBound(packet: seq<Byte>)
    ensures |Encoded(packet, true)| == EstimatedEncodedSize(|packet|)
       <==> AllEscaped(packet) && AllEscaped(FcsField(Crc(ADDRESS_CONTROL_FCS, packet)))
  {
    hide Crc;
    hide InSendingAccm;
    var field := FcsField(Crc(ADDRESS_CONTROL_FCS, packet));
    assert |field| == 2;
    hide FcsField;
    StuffAppend(packet, field);
    StuffLength(packet);
    StuffLength(field);
    StuffDoublesExactlyEscaped(packet);
    StuffDoublesExactlyEscaped(field);
  }

  lemma {:induction false} RepeatKeepsTheSum(k: nat)
    ensures Crc(0xe6e0, Repeat(0x11, k)) == 0xe6e0
    ensures AllEscaped(Repeat(0x11, k))
  {
    if k > 0 {
      var s := Repeat(0x11, k);
      assert s[1..] == Repeat(0x11, k - 1);
      RepeatKeepsTheSum(k - 1);
      assert CrcByte(0xe6e0, 0x11) == 0xe6e0;
      forall i | 0 <= i < |s| ensures InSendingAccm(s[i]) {
        assert i > 0 ==> s[i] == s[1..][i - 1];
      }
    }
  }

  lemma WorstSums()
    ensures Crc(ADDRESS_CONTROL_FCS, [0x00, 0x0c]) == 0xe3fb
    ensures Crc(ADDRESS_CONTROL_FCS, [0x00, 0x00, 0xfe]) == 0xfeee
    ensures Crc(ADDRESS_CONTROL_FCS, [0x00, 0x0c, 0x0a, 0x14]) == 0xe6e0
  {
    CrcOfPair(ADDRESS_CONTROL_FCS, 0x00, 0x0c);
  }

  lemma WorstFields()
    ensures AllEscaped(FcsField(0xe3fb)) && AllEscaped(FcsField(0xfeee)) && AllEscaped(FcsField(0xe6e0))
  {
  }

  lemma WorstPacketAtBound(n: nat)
    requires 2 <= n
    ensures |Encoded(WorstPacket(n), true)| == EstimatedEncodedSize(n)
  {
    hide Crc;
    hide FcsField;
    hide Encoded;
    LengthAtBound(WorstPacket(n));
    WorstSums();
    WorstFields();
    if n > 3 {
      CrcAppend(ADDRESS_CONTROL_FCS, [0x00, 0x0c, 0x0a, 0x14], Repeat(0x11, n - 4));
      RepeatKeepsTheSum(n - 4);
    }
  }

  lemma NoEscapedFieldAfterOneByte(b: Byte)
    requires InSendingAccm(b)
    ensures !AllEscaped(FcsField(CrcByte(ADDRESS_CONTROL_FCS, b)))
  {
    var c := CrcByte(ADDRESS_CONTROL_FCS, b);
    assert FcsField(c)[0] == LowByte(c ^ 0xffff) && FcsField(c)[1] == HighByte(c ^ 0xffff);
    assert !InSendingAccm(LowByte(c ^ 0xffff)) || !InSendingAccm(HighByte(c ^ 0xffff));
  }

  lemma ShortPacketBelowBound(packet: seq<Byte>)
    requires |packet| < 2
    ensures |Encoded(packet, true)| < EstimatedEncodedSize(|packet|)
  {
    hide Encoded;
    EncodedLength(packet, true);
    LengthAtBound(packet);
    if |packet| == 0 {
      assert FcsField(ADDRESS_CONTROL_FCS)[1] == 0xc2;
    } else if InSendingAccm(packet[0]) {
      hide CrcByte;
      hide FcsField;
      NoEscapedFieldAfterOneByte(packet[0]);
      assert packet[1..] == [];
      assert Crc(ADDRESS_CONTROL_FCS, packet) == CrcByte(ADDRESS_CONTROL_FCS, packet[0]);
    }
  }

  /** The bound is attained by some packet of a length exactly when that length is
    * at least two.
    */
  lemma BoundAttained(n: nat)
    ensures 2 <= n <==>
            exists packet: seq<Byte> :: |packet| == n && |Encoded(packet, true)| == EstimatedEncodedSize(n)
  {
    if 2 <= n {
      WorstPacketAtBound(n);
    } else {
      forall packet: seq<Byte> | |packet| == n
        ensures |Encoded(packet, true)| != EstimatedEncodedSize(n)
      {
        ShortPacketBelowBound(packet);
      }
    }
  }
}
