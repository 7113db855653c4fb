/** HDLC-like framing of PPP packets (src/hdlc.c, RFC 1662 sections 3 and 4). */
module Hdlc {
  import opened Wrappers
  import opened Fcs

  const FLAG: Byte := 0x7e
  const ESCAPE: Byte := 0x7d
  /** The Address field and the escaped Control field. */
  const ADDRESS_CONTROL: seq<Byte> := [0xff, 0x7d, 0x23]

  datatype HdlcError = BufferTooSmall | InvalidFrame | BadChecksum

  // ---- what a frame is

  predicate InSendingAccm(b: Byte) {
    b < 0x20 || b & 0x7f == 0x7d || b & 0x7f == 0x7e
  }

  predicate InReceivingAccm(b: Byte) {
    b < 0x20
  }

  function StuffByte(b: Byte): seq<Byte> {
    if InSendingAccm(b) then [ESCAPE, b ^ 0x20] else [b]
  }

  function Stuff(data: seq<Byte>): seq<Byte> {
    if data == [] then [] else StuffByte(data[0]) + Stuff(data[1..])
  }

  /** What is protected by the escape mechanism: the packet and its check sequence. */
  function Content(packet: seq<Byte>): seq<Byte> {
    packet + FcsField(Crc(ADDRESS_CONTROL_FCS, packet))
  }

  /** A frame without its flags. */
  function FrameBody(packet: seq<Byte>): seq<Byte> {
    ADDRESS_CONTROL + Stuff(Content(packet))
  }

  /** A frame as written: the opening flag is omitted when the previous frame's
    * closing flag serves for it.
    */
  function Encoded(packet: seq<Byte>, needFlag: bool): seq<Byte> {
    (if needFlag then [FLAG] else []) + FrameBody(packet) + [FLAG]
  }

  // ---- byte stuffing

  lemma StuffByteLength(b: Byte)
    ensures 1 <= |StuffByte(b)| <= 2
  {
  }

  lemma {:induction false} StuffAppend(a: seq<Byte>, b: seq<Byte>)
    ensures Stuff(a + b) == Stuff(a) + Stuff(b)
  {
    hide StuffByte;
    if a == [] {
      assert a + b == b;
    } else {
      assert (a + b)[1..] == a[1..] + b;
      StuffAppend(a[1..], b);
    }
  }

  lemma StuffOne(b: Byte)
    ensures Stuff([b]) == StuffByte(b)
  {
    hide StuffByte;
    assert [b][1..] == [];
  }

  lemma {:induction false} StuffLength(data: seq<Byte>)
    ensures |data| <= |Stuff(data)| <= 2 * |data|
  {
    hide StuffByte;
    if data != [] {
      StuffByteLength(data[0]);
      StuffLength(data[1..]);
    }
  }

  // ---- transparency

  /** No flag, no byte of the control range, and the escape only in front of an
    * escaped byte.
    */
  predicate Transparent(s: seq<Byte>) {
    forall i :: 0 <= i < |s| ==> TransparentAt(s, i)
  }

  predicate TransparentAt(s: seq<Byte>, i: nat)
    requires i < |s|
  {
    && s[i] != FLAG
    && !InReceivingAccm(s[i])
    && (s[i] == ESCAPE ==> i + 1 < |s| && s[i + 1] != ESCAPE && InSendingAccm(s[i + 1] ^ 0x20))
  }

  lemma TransparentAppend(a: seq<Byte>, b: seq<Byte>)
    requires Transparent(a) && Transparent(b)
    ensures Transparent(a + b)
  {
    hide InSendingAccm;
    hide InReceivingAccm;
    var s := a + b;
    forall i | 0 <= i < |s|
      ensures TransparentAt(s, i)
    {
      if i < |a| {
        assert TransparentAt(a, i) && s[i] == a[i];
        assert i + 1 < |a| ==> s[i + 1] == a[i + 1];
      } else {
        assert TransparentAt(b, i - |a|) && s[i] == b[i - |a|];
        assert i + 1 < |s| ==> s[i + 1] == b[i - |a| + 1];
      }
    }
  }

  lemma EscapedByte(b: Byte)
    requires InSendingAccm(b)
    ensures (b ^ 0x20) != FLAG && (b ^ 0x20) != ESCAPE && !InReceivingAccm(b ^ 0x20)
    ensures (b ^ 0x20) ^ 0x20 == b
  {
  }

  lemma StuffByteTransparent(b: Byte)
    ensures Transparent(StuffByte(b))
  {
    if InSendingAccm(b) {
      EscapedByte(b);
    }
  }

  lemma {:induction false} StuffTransparent(data: seq<Byte>)
    ensures Transparent(Stuff(data))
  {
    hide StuffByte;
    if data != [] {
      StuffByteTransparent(data[0]);
      StuffTransparent(data[1..]);
      TransparentAppend(StuffByte(data[0]), Stuff(data[1..]));
    }
  }

  /** The body of every frame is transparent, so the flags delimit it uniquely. */
  lemma FrameBodyTransparent(packet: seq<Byte>)
    ensures Transparent(FrameBody(packet))
  {
    assert Transparent(ADDRESS_CONTROL);
    StuffTransparent(Content(packet));
    TransparentAppend(ADDRESS_CONTROL, Stuff(Content(packet)));
  }
}
