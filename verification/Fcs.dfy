/** The frame check sequence of the HDLC framing: the table-driven update of
  * src/hdlc.c against the bit-serial CRC of RFC 1662, Appendix C, and the algebra
  * of that CRC.
  *
  * Proofs about 16-bit registers hide the operators they do not need: the solver
  * then works with names instead of bits.
  */
module Fcs {
  type Byte = bv8

  const INITIAL_FCS: bv16 := 0xffff
  const GOOD_FCS: bv16 := 0xf0b8
  /** The precomputed sum over the Address and Control fields. */
  const ADDRESS_CONTROL_FCS: bv16 := 0x3de3

  // ---- register operations

  function Xor(s: bv16, t: bv16): bv16 {
    s ^ t
  }

  function Low(b: Byte): bv16 {
    b as bv16
  }

  function High(b: Byte): bv16 {
    (b as bv16) << 8
  }

  function LowByte(s: bv16): Byte {
    (s & 0xff) as Byte
  }

  function HighByte(s: bv16): Byte {
    (s >> 8) as Byte
  }

  // ---- the reference: one bit at a time

  /** One bit of the reflected CRC with generator x^16 + x^12 + x^5 + 1. */
  function BitStep(s: bv16): bv16 {
    if s & 1 == 1 then (s >> 1) ^ 0x8408 else s >> 1
  }

  function EightBits(s: bv16): bv16 {
    BitStep(BitStep(BitStep(BitStep(BitStep(BitStep(BitStep(BitStep(s))))))))
  }

  /** The reference update of the sum by one byte, low bit first. */
  function CrcByte(sum: bv16, b: Byte): bv16 {
    EightBits(Xor(sum, Low(b)))
  }

  /** The reference sum over a byte sequence. */
  function Crc(sum: bv16, data: seq<Byte>): bv16
    decreases |data|
  {
    if data == [] then sum else Crc(CrcByte(sum, data[0]), data[1..])
  }

  /** The check sequence sent for a sum: its complement, low byte first. */
  function FcsField(sum: bv16): seq<Byte> {
    [LowByte(sum ^ 0xffff), HighByte(sum ^ 0xffff)]
  }

  // ---- the lookup table

  function PickEntry(k: Byte, e0: bv16, e1: bv16, e2: bv16, e3: bv16,
                     e4: bv16, e5: bv16, e6: bv16, e7: bv16): bv16
  {
    if k == 0 then e0 else if k == 1 then e1 else if k == 2 then e2 else if k == 3 then e3
    else if k == 4 then e4 else if k == 5 then e5 else if k == 6 then e6 else e7
  }

  /** The 256 entries, in 32 rows of eight as in the source. */
  function FcsTab(i: Byte): bv16 {
    var k := i & 7;
    match i >> 3
    case  0 => PickEntry(k, 0x0000, 0x1189, 0x2312, 0x329b, 0x4624, 0x57ad, 0x6536, 0x74bf)
    case  1 => PickEntry(k, 0x8c48, 0x9dc1, 0xaf5a, 0xbed3, 0xca6c, 0xdbe5, 0xe97e, 0xf8f7)
    case  2 => PickEntry(k, 0x1081, 0x0108, 0x3393, 0x221a, 0x56a5, 0x472c, 0x75b7, 0x643e)
    case  3 => PickEntry(k, 0x9cc9, 0x8d40, 0xbfdb, 0xae52, 0xdaed, 0xcb64, 0xf9ff, 0xe876)
    case  4 => PickEntry(k, 0x2102, 0x308b, 0x0210, 0x1399, 0x6726, 0x76af, 0x4434, 0x55bd)
    case  5 => PickEntry(k, 0xad4a, 0xbcc3, 0x8e58, 0x9fd1, 0xeb6e, 0xfae7, 0xc87c, 0xd9f5)
    case  6 => PickEntry(k, 0x3183, 0x200a, 0x1291, 0x0318, 0x77a7, 0x662e, 0x54b5, 0x453c)
    case  7 => PickEntry(k, 0xbdcb, 0xac42, 0x9ed9, 0x8f50, 0xfbef, 0xea66, 0xd8fd, 0xc974)
    case  8 => PickEntry(k, 0x4204, 0x538d, 0x6116, 0x709f, 0x0420, 0x15a9, 0x2732, 0x36bb)
    case  9 => PickEntry(k, 0xce4c, 0xdfc5, 0xed5e, 0xfcd7, 0x8868, 0x99e1, 0xab7a, 0xbaf3)
    case 10 => PickEntry(k, 0x5285, 0x430c, 0x7197, 0x601e, 0x14a1, 0x0528, 0x37b3, 0x263a)
    case 11 => PickEntry(k, 0xdecd, 0xcf44, 0xfddf, 0xec56, 0x98e9, 0x8960, 0xbbfb, 0xaa72)
    case 12 => PickEntry(k, 0x6306, 0x728f, 0x4014, 0x519d, 0x2522, 0x34ab, 0x0630, 0x17b9)
    case 13 => PickEntry(k, 0xef4e, 0xfec7, 0xcc5c, 0xddd5, 0xa96a, 0xb8e3, 0x8a78, 0x9bf1)
    case 14 => PickEntry(k, 0x7387, 0x620e, 0x5095, 0x411c, 0x35a3, 0x242a, 0x16b1, 0x0738)
    case 15 => PickEntry(k, 0xffcf, 0xee46, 0xdcdd, 0xcd54, 0xb9eb, 0xa862, 0x9af9, 0x8b70)
    case 16 => PickEntry(k, 0x8408, 0x9581, 0xa71a, 0xb693, 0xc22c, 0xd3a5, 0xe13e, 0xf0b7)
    case 17 => PickEntry(k, 0x0840, 0x19c9, 0x2b52, 0x3adb, 0x4e64, 0x5fed, 0x6d76, 0x7cff)
    case 18 => PickEntry(k, 0x9489, 0x8500, 0xb79b, 0xa612, 0xd2ad, 0xc324, 0xf1bf, 0xe036)
    case 19 => PickEntry(k, 0x18c1, 0x0948, 0x3bd3, 0x2a5a, 0x5ee5, 0x4f6c, 0x7df7, 0x6c7e)
    case 20 => PickEntry(k, 0xa50a, 0xb483, 0x8618, 0x9791, 0xe32e, 0xf2a7, 0xc03c, 0xd1b5)
    case 21 => PickEntry(k, 0x2942, 0x38cb, 0x0a50, 0x1bd9, 0x6f66, 0x7eef, 0x4c74, 0x5dfd)
    case 22 => PickEntry(k, 0xb58b, 0xa402, 0x9699, 0x8710, 0xf3af, 0xe226, 0xd0bd, 0xc134)
    case 23 => PickEntry(k, 0x39c3, 0x284a, 0x1ad1, 0x0b58, 0x7fe7, 0x6e6e, 0x5cf5, 0x4d7c)
    case 24 => PickEntry(k, 0xc60c, 0xd785, 0xe51e, 0xf497, 0x8028, 0x91a1, 0xa33a, 0xb2b3)
    case 25 => PickEntry(k, 0x4a44, 0x5bcd, 0x6956, 0x78df, 0x0c60, 0x1de9, 0x2f72, 0x3efb)
    case 26 => PickEntry(k, 0xd68d, 0xc704, 0xf59f, 0xe416, 0x90a9, 0x8120, 0xb3bb, 0xa232)
    case 27 => PickEntry(k, 0x5ac5, 0x4b4c, 0x79d7, 0x685e, 0x1ce1, 0x0d68, 0x3ff3, 0x2e7a)
    case 28 => PickEntry(k, 0xe70e, 0xf687, 0xc41c, 0xd595, 0xa12a, 0xb0a3, 0x8238, 0x93b1)
    case 29 => PickEntry(k, 0x6b46, 0x7acf, 0x4854, 0x59dd, 0x2d62, 0x3ceb, 0x0e70, 0x1ff9)
    case 30 => PickEntry(k, 0xf78f, 0xe606, 0xd49d, 0xc514, 0xb1ab, 0xa022, 0x92b9, 0x8330)
    case 31 => PickEntry(k, 0x7bc7, 0x6a4e, 0x58d5, 0x495c, 0x3de3, 0x2c6a, 0x1ef1, 0x0f78)
    case _ => 0
  }

  /** The update the source performs for one byte. */
  function TableStep(sum: bv16, b: Byte): bv16 {
    Xor(sum >> 8, FcsTab(LowByte(Xor(sum, Low(b)))))
  }

  /** The checksum loop of the source; the table never departs from the reference. */
  method FrameChecksum16Bit(initial: bv16, data: seq<Byte>) returns (sum: bv16)
    ensures sum == Crc(initial, data)
  {
    hide FcsTab;
    hide TableStep;
    hide CrcByte;
    sum := initial;
    var i := 0;
    while i < |data|
      invariant 0 <= i <= |data|
      invariant Crc(sum, data[i..]) == Crc(initial, data)
    {
      TableUpdate(sum, data[i]);
      assert data[i..][1..] == data[i + 1..];
      sum := TableStep(sum, data[i]);
      i := i + 1;
    }
  }

  // ---- the table is the reference

  lemma TableQuarter0(i: Byte)
    requires i < 0x40
    ensures FcsTab(i) == EightBits(Low(i))
  {
  }

  lemma TableQuarter1(i: Byte)
    requires 0x40 <= i < 0x80
    ensures FcsTab(i) == EightBits(Low(i))
  {
  }

  lemma TableQuarter2(i: Byte)
    requires 0x80 <= i < 0xc0
    ensures FcsTab(i) == EightBits(Low(i))
  {
  }

  lemma TableQuarter3(i: Byte)
    requires 0xc0 <= i
    ensures FcsTab(i) == EightBits(Low(i))
  {
  }

  lemma TableEntry(i: Byte)
    ensures FcsTab(i) == EightBits(Low(i))
  {
    hide FcsTab;
    hide EightBits;
    if i < 0x40 {
      TableQuarter0(i);
    } else if i < 0x80 {
      TableQuarter1(i);
    } else if i < 0xc0 {
      TableQuarter2(i);
    } else {
      TableQuarter3(i);
    }
  }

  lemma BitStepXor(s: bv16, t: bv16)
    ensures BitStep(s ^ t) == BitStep(s) ^ BitStep(t)
  {
    if s & 1 == 1 {
      if t & 1 == 1 {
      } else {
        assert t & 1 == 0;
      }
    } else {
      assert s & 1 == 0;
      if t & 1 == 1 {
      } else {
        assert t & 1 == 0;
      }
    }
  }

  lemma BitStepLinear(s: bv16, t: bv16)
    ensures BitStep(Xor(s, t)) == Xor(BitStep(s), BitStep(t))
  {
    hide BitStep;
    BitStepXor(s, t);
  }

  /** Exclusive-or of two registers is carried through a whole byte. */
  lemma EightBitsLinear(s: bv16, t: bv16)
    ensures EightBits(Xor(s, t)) == Xor(EightBits(s), EightBits(t))
  {
    hide BitStep;
    hide Xor;
    var s1, t1 := BitStep(s), BitStep(t);
    var s2, t2 := BitStep(s1), BitStep(t1);
    var s3, t3 := BitStep(s2), BitStep(t2);
    var s4, t4 := BitStep(s3), BitStep(t3);
    var s5, t5 := BitStep(s4), BitStep(t4);
    var s6, t6 := BitStep(s5), BitStep(t5);
    var s7, t7 := BitStep(s6), BitStep(t6);
    BitStepLinear(s, t);
    BitStepLinear(s1, t1);
    BitStepLinear(s2, t2);
    BitStepLinear(s3, t3);
    BitStepLinear(s4, t4);
    BitStepLinear(s5, t5);
    BitStepLinear(s6, t6);
    BitStepLinear(s7, t7);
  }

  /** A byte in the upper half reaches the lower half unchanged. */
  lemma EightBitsOfHigh(b: Byte)
    ensures EightBits(High(b)) == Low(b)
  {
  }

  lemma Halves(x: bv16)
    ensures Xor(Low(LowByte(x)), High(HighByte(x))) == x
  {
  }

  lemma HighOfXor(s: bv16, b: Byte)
    ensures Low(HighByte(Xor(s, Low(b)))) == s >> 8
  {
  }

  lemma XorCommutes(s: bv16, t: bv16)
    ensures Xor(s, t) == Xor(t, s)
  {
  }

  lemma XorAssociates(s: bv16, t: bv16, u: bv16)
    ensures Xor(Xor(s, t), u) == Xor(s, Xor(t, u))
  {
  }

  lemma XorCancels(s: bv16, t: bv16, u: bv16)
    requires Xor(s, t) == Xor(s, u) || Xor(t, s) == Xor(u, s)
    ensures t == u
  {
  }

  /** For every register and byte, the table update is eight reference bit steps. */
  lemma TableUpdate(sum: bv16, b: Byte)
    ensures TableStep(sum, b) == CrcByte(sum, b)
  {
    hide FcsTab;
    hide EightBits;
    hide Xor;
    hide Low;
    hide High;
    var x := Xor(sum, Low(b));
    HighOfXor(sum, b);
    TableEntry(LowByte(x));
    Halves(x);
    EightBitsLinear(Low(LowByte(x)), High(HighByte(x)));
    EightBitsOfHigh(HighByte(x));
    XorCommutes(EightBits(Low(LowByte(x))), Low(HighByte(x)));
  }

  // ---- algebra of the reference

  lemma BitStepInjective(s: bv16, t: bv16)
    requires BitStep(s) == BitStep(t)
    ensures s == t
  {
  }

  lemma EightBitsInjective(s: bv16, t: bv16)
    requires EightBits(s) == EightBits(t)
    ensures s == t
  {
    hide BitStep;
    var s1, t1 := BitStep(s), BitStep(t);
    var s2, t2 := BitStep(s1), BitStep(t1);
    var s3, t3 := BitStep(s2), BitStep(t2);
    var s4, t4 := BitStep(s3), BitStep(t3);
    var s5, t5 := BitStep(s4), BitStep(t4);
    var s6, t6 := BitStep(s5), BitStep(t5);
    var s7, t7 := BitStep(s6), BitStep(t6);
    BitStepInjective(s7, t7);
    BitStepInjective(s6, t6);
    BitStepInjective(s5, t5);
    BitStepInjective(s4, t4);
    BitStepInjective(s3, t3);
    BitStepInjective(s2, t2);
    BitStepInjective(s1, t1);
    BitStepInjective(s, t);
  }

  /** For a fixed byte the update is injective in the sum. */
  lemma CrcByteInjective(s: bv16, t: bv16, b: Byte)
    requires CrcByte(s, b) == CrcByte(t, b)
    ensures s == t
  {
    hide EightBits;
    hide Xor;
    hide Low;
    EightBitsInjective(Xor(s, Low(b)), Xor(t, Low(b)));
    XorCancels(Low(b), s, t);
  }

  /** Two updates act on the pair as on one 16-bit word. */
  lemma TwoBytesAreAWord(s: bv16, a: Byte, b: Byte)
    ensures CrcByte(CrcByte(s, a), b) == EightBits(EightBits(Xor(s, Xor(Low(a), High(b)))))
  {
    hide EightBits;
    hide Xor;
    hide Low;
    hide High;
    EightBitsOfHigh(b);
    EightBitsLinear(Xor(s, Low(a)), High(b));
    XorAssociates(s, Low(a), High(b));
  }

  lemma BytesOfWord(a: Byte, b: Byte, c: Byte, d: Byte)
    requires Xor(Low(a), High(b)) == Xor(Low(c), High(d))
    ensures a == c && b == d
  {
    assert LowByte(Xor(Low(a), High(b))) == a && HighByte(Xor(Low(a), High(b))) == b;
    assert LowByte(Xor(Low(c), High(d))) == c && HighByte(Xor(Low(c), High(d))) == d;
  }

  /** For a fixed sum two updates are injective in the pair of bytes. */
  lemma PairInjective(s: bv16, a: Byte, b: Byte, c: Byte, d: Byte)
    requires CrcByte(CrcByte(s, a), b) == CrcByte(CrcByte(s, c), d)
    ensures a == c && b == d
  {
    hide EightBits;
    hide Xor;
    hide Low;
    hide High;
    TwoBytesAreAWord(s, a, b);
    TwoBytesAreAWord(s, c, d);
    var x, y := Xor(s, Xor(Low(a), High(b))), Xor(s, Xor(Low(c), High(d)));
    EightBitsInjective(EightBits(x), EightBits(y));
    EightBitsInjective(x, y);
    XorCancels(s, Xor(Low(a), High(b)), Xor(Low(c), High(d)));
    BytesOfWord(a, b, c, d);
  }

  lemma ResidueOfField(s: bv16)
    ensures CrcByte(CrcByte(s, LowByte(s ^ 0xffff)), HighByte(s ^ 0xffff)) == GOOD_FCS
  {
  }

  /** The precomputed constant is the sum over 0xff 0x03. */
  lemma AddressControlConstant()
    ensures Crc(INITIAL_FCS, [0xff, 0x03]) == ADDRESS_CONTROL_FCS
  {
  }

  // ---- sums over whole sequences

  lemma {:induction false} CrcAppend(sum: bv16, a: seq<Byte>, b: seq<Byte>)
    ensures Crc(sum, a + b) == Crc(Crc(sum, a), b)
    decreases |a|
  {
    hide CrcByte;
    if a == [] {
      assert a + b == b;
    } else {
      assert (a + b)[1..] == a[1..] + b;
      CrcAppend(CrcByte(sum, a[0]), a[1..], b);
    }
  }

  lemma {:induction false} CrcInjective(s: bv16, t: bv16, data: seq<Byte>)
    requires Crc(s, data) == Crc(t, data)
    ensures s == t
    decreases |data|
  {
    hide CrcByte;
    if data != [] {
      CrcInjective(CrcByte(s, data[0]), CrcByte(t, data[0]), data[1..]);
      CrcByteInjective(s, t, data[0]);
    }
  }

  lemma CrcOfPair(s: bv16, a: Byte, b: Byte)
    ensures Crc(s, [a, b]) == CrcByte(CrcByte(s, a), b)
  {
    hide CrcByte;
    assert [a, b][1..] == [b];
    assert Crc(s, [a, b]) == Crc(CrcByte(s, a), [b]);
    assert [b][1..] == [];
    assert Crc(CrcByte(s, a), [b]) == Crc(CrcByte(CrcByte(s, a), b), []);
  }

  /** Two trailing bytes leave the good value exactly when they are the check
    * sequence of what precedes them.
    */
  lemma GoodExactlyWithItsField(sum: bv16, data: seq<Byte>, a: Byte, b: Byte)
    ensures Crc(sum, data + [a, b]) == GOOD_FCS <==> [a, b] == FcsField(Crc(sum, data))
  {
    hide CrcByte;
    var s := Crc(sum, data);
    var c, d := LowByte(s ^ 0xffff), HighByte(s ^ 0xffff);
    CrcAppend(sum, data, [a, b]);
    CrcOfPair(s, a, b);
    ResidueOfField(s);
    assert FcsField(s) == [c, d];
    if Crc(sum, data + [a, b]) == GOOD_FCS {
      PairInjective(s, a, b, c, d);
    }
  }

  /** A change confined to two adjacent bytes of a sequence of any length always
    * changes its sum.
    */
  lemma WindowChangeIsSeen(sum: bv16, pre: seq<Byte>, a: Byte, b: Byte, c: Byte, d: Byte, post: seq<Byte>)
    ensures Crc(sum, pre + [a, b] + post) == Crc(sum, pre + [c, d] + post) <==> a == c && b == d
  {
    hide CrcByte;
    var s := Crc(sum, pre);
    CrcAppend(sum, pre + [a, b], post);
    CrcAppend(sum, pre, [a, b]);
    CrcAppend(sum, pre + [c, d], post);
    CrcAppend(sum, pre, [c, d]);
    CrcOfPair(s, a, b);
    CrcOfPair(s, c, d);
    if Crc(sum, pre + [a, b] + post) == Crc(sum, pre + [c, d] + post) {
      CrcInjective(Crc(s, [a, b]), Crc(s, [c, d]), post);
      PairInjective(s, a, b, c, d);
    }
  }
}
