/** Base 64 as in section 4 of RFC 4648, the encoding of the private control channel:
  * the encoder of crates/manager-core/src/control.rs and of EVP_EncodeBlock, and the
  * block decoder EVP_DecodeBlock, which reads the pad character as zero bits.
  */
module Base64 {
  import opened Wrappers

  type Sextet = x: int | 0 <= x < 64

  const PAD := '='

  function Symbol(n: Sextet): char {
    if n < 26 then 'A' + n as char
    else if n < 52 then 'a' + (n - 26) as char
    else if n < 62 then '0' + (n - 52) as char
    else if n == 62 then '+'
    else '/'
  }

  predicate InAlphabet(c: char) {
    'A' <= c <= 'Z' || 'a' <= c <= 'z' || '0' <= c <= '9' || c == '+' || c == '/'
  }

  /** The bits of a character; pads and strangers read as zero. */
  function Bits(c: char): Sextet {
    if 'A' <= c <= 'Z' then (c - 'A') as int
    else if 'a' <= c <= 'z' then 26 + (c - 'a') as int
    else if '0' <= c <= '9' then 52 + (c - '0') as int
    else if c == '+' then 62
    else if c == '/' then 63
    else 0
  }

  /** Three octets as four characters. */
  function Quad(x: Octet, y: Octet, z: Octet): (text: string)
    ensures |text| == 4
  {
    [Symbol(x / 4), Symbol(x % 4 * 16 + y / 16), Symbol(y % 16 * 4 + z / 64), Symbol(z % 64)]
  }

  /** One or two octets, and pads. */
  function PaddedTail(data: seq<Octet>): (text: string)
    requires |data| == 1 || |data| == 2
    ensures |text| == 4
  {
    if |data| == 1 then Quad(data[0], 0, 0)[..2] + [PAD, PAD] else Quad(data[0], data[1], 0)[..3] + [PAD]
  }

  function Encode(data: seq<Octet>): (text: string)
    ensures |text| % 4 == 0 && (data != [] ==> |text| >= 4)
  {
    if data == [] then []
    else if |data| < 3 then PaddedTail(data)
    else Quad(data[0], data[1], data[2]) + Encode(data[3..])
  }

  function Triple(a: char, b: char, c: char, d: char): (data: seq<Octet>)
    ensures |data| == 3
  {
    [Bits(a) * 4 + Bits(b) / 16, Bits(b) % 16 * 16 + Bits(c) / 4, Bits(c) % 4 * 64 + Bits(d)]
  }

  /** Three octets for every four characters. */
  function DecodeBlock(text: string): (data: seq<Octet>)
    requires |text| % 4 == 0
    ensures 4 * |data| == 3 * |text|
  {
    if text == [] then [] else Triple(text[0], text[1], text[2], text[3]) + DecodeBlock(text[4..])
  }

  /** How many pads end the text. */
  function Pads(text: string): nat
    requires |text| >= 2
  {
    (if text[|text| - 1] == PAD then 1 else 0) + (if text[|text| - 2] == PAD then 1 else 0)
  }

  lemma SymbolBits(n: Sextet)
    ensures InAlphabet(Symbol(n)) && Bits(Symbol(n)) == n
  {
  }

  /** A group is one 24-bit number, read in base 64 and in base 256. */
  lemma GroupIsOneNumber(x: Octet, y: Octet, z: Octet)
    ensures
      var text := Quad(x, y, z);
      x * 65536 + y * 256 + z ==
        Bits(text[0]) * 262144 + Bits(text[1]) * 4096 + Bits(text[2]) * 64 + Bits(text[3])
  {
    SymbolBits(x / 4);
    SymbolBits(x % 4 * 16 + y / 16);
    SymbolBits(y % 16 * 4 + z / 64);
    SymbolBits(z % 64);
  }

  lemma QuadParts(x: Octet, y: Octet, z: Octet) returns (a: Sextet, b: Sextet, c: Sextet, d: Sextet)
    ensures Quad(x, y, z) == [Symbol(a), Symbol(b), Symbol(c), Symbol(d)]
    ensures a * 4 + b / 16 == x && b % 16 * 16 + c / 4 == y && c % 4 * 64 + d == z
    ensures (y == z == 0 ==> c == 0) && (z == 0 ==> d == 0)
  {
    a, b, c, d := x / 4, x % 4 * 16 + y / 16, y % 16 * 4 + z / 64, z % 64;
    hide Symbol;
  }

  lemma TripleBits(a: char, b: char, c: char, d: char, i: Sextet, j: Sextet, k: Sextet, l: Sextet)
    requires Bits(a) == i && Bits(b) == j && Bits(c) == k && Bits(d) == l
    ensures Triple(a, b, c, d) == [i * 4 + j / 16, j % 16 * 16 + k / 4, k % 4 * 64 + l]
  {
    hide Bits;
  }

  lemma QuadSymbols(x: Octet, y: Octet, z: Octet)
    ensures
      var text := Quad(x, y, z);
      && InAlphabet(text[0]) && InAlphabet(text[1]) && InAlphabet(text[2]) && InAlphabet(text[3])
      && Triple(text[0], text[1], text[2], text[3]) == [x, y, z]
      && (y == z == 0 ==> Triple(text[0], text[1], PAD, PAD) == [x, 0, 0])
      && (z == 0 ==> Triple(text[0], text[1], text[2], PAD) == [x, y, 0])
  {
    var a, b, c, d := QuadParts(x, y, z);
    SymbolBits(a);
    SymbolBits(b);
    SymbolBits(c);
    SymbolBits(d);
    hide Quad, Triple, Symbol, InAlphabet;
    assert Bits(PAD) == 0;
    hide Bits;
    TripleBits(Symbol(a), Symbol(b), Symbol(c), Symbol(d), a, b, c, d);
    if z == 0 {
      TripleBits(Symbol(a), Symbol(b), Symbol(c), PAD, a, b, c, d);
      if y == 0 {
        TripleBits(Symbol(a), Symbol(b), PAD, PAD, a, b, c, d);
      }
    }
  }

  predicate InEncoded(text: string, i: nat)
    requires i < |text|
  {
    InAlphabet(text[i]) || (text[i] == PAD && i + 2 >= |text|)
  }

  predicate Padded(text: string) {
    forall i :: 0 <= i < |text| ==> InEncoded(text, i)
  }

  lemma PaddedAppend(quad: string, rest: string)
    requires |quad| == 4 && forall i :: 0 <= i < 4 ==> InAlphabet(quad[i])
    requires Padded(rest) && |rest| >= 2
    ensures Padded(quad + rest) && Pads(quad + rest) == Pads(rest)
  {
    hide InAlphabet;
    assert forall i :: 0 <= i < |rest| ==> (quad + rest)[i + 4] == rest[i];
    forall i | 0 <= i < |quad + rest| ensures InEncoded(quad + rest, i) {
      if i >= 4 {
        assert InEncoded(rest, i - 4);
      }
    }
  }

  lemma PaddedQuad(quad: string)
    requires |quad| == 4 && forall i :: 0 <= i < 4 ==> InAlphabet(quad[i])
    ensures Padded(quad) && Pads(quad) == 0
    ensures Padded(quad[..3] + [PAD]) && Pads(quad[..3] + [PAD]) == 1
    ensures Padded(quad[..2] + [PAD, PAD]) && Pads(quad[..2] + [PAD, PAD]) == 2
  {
    assert !InAlphabet(PAD);
    assert InAlphabet(quad[3]) && InAlphabet(quad[2]);
    hide InAlphabet;
  }

  /** Encoded text has only symbols, but for its last two places; its pads make up for the
    * octets missing from the last group.
    */
  lemma {:induction false} EncodeAlphabet(data: seq<Octet>)
    ensures Padded(Encode(data))
    ensures |data| > 0 ==> 3 * |Encode(data)| == 4 * (|data| + Pads(Encode(data)))
  {
    if |data| > 0 {
      var quad := Quad(data[0], if |data| > 1 then data[1] else 0, if |data| > 2 then data[2] else 0);
      QuadSymbols(data[0], if |data| > 1 then data[1] else 0, if |data| > 2 then data[2] else 0);
      PaddedQuad(quad);
      hide Quad, InAlphabet, Triple, Padded, Pads;
      if |data| > 3 {
        EncodeAlphabet(data[3..]);
        PaddedAppend(quad, Encode(data[3..]));
      } else if |data| == 3 {
        assert Encode(data) == quad;
      }
    } else {
      assert Encode(data) == [];
    }
  }

  lemma DecodeQuad(quad: string, rest: string)
    requires |quad| == 4 && |rest| % 4 == 0
    ensures DecodeBlock(quad + rest) == Triple(quad[0], quad[1], quad[2], quad[3]) + DecodeBlock(rest)
  {
    var text := quad + rest;
    assert text[4..] == rest;
    hide Triple;
  }

  /** The decoded block is the data and then only zeros. */
  predicate Extends(block: seq<Octet>, data: seq<Octet>) {
    |data| <= |block| && block[..|data|] == data && forall i :: |data| <= i < |block| ==> block[i] == 0
  }

  /** The octet at i, or zero beyond the end. */
  function At(data: seq<Octet>, i: nat): Octet {
    if i < |data| then data[i] else 0
  }

  lemma PaddedExtends(block: seq<Octet>, data: seq<Octet>)
    requires 0 < |data| <= 3 && |block| == 3 && forall i :: 0 <= i < 3 ==> block[i] == At(data, i)
    ensures Extends(block, data)
  {
    assert forall i :: 0 <= i < |data| ==> block[..|data|][i] == data[i];
  }

  /** The characters of the last group, of one to three octets. */
  lemma LastText(data: seq<Octet>)
    requires 0 < |data| <= 3
    ensures
      var quad := Quad(At(data, 0), At(data, 1), At(data, 2));
      Encode(data) == [quad[0], quad[1], if |data| > 1 then quad[2] else PAD, if |data| > 2 then quad[3] else PAD]
  {
    hide Quad;
    if |data| == 3 {
      assert Encode(data[3..]) == "";
    }
  }

  lemma LastBlock(data: seq<Octet>)
    requires 0 < |data| <= 3
    ensures DecodeBlock(Encode(data)) == [At(data, 0), At(data, 1), At(data, 2)]
  {
    hide Triple, InAlphabet, DecodeBlock, Quad, Encode;
    var quad := Quad(At(data, 0), At(data, 1), At(data, 2));
    QuadSymbols(At(data, 0), At(data, 1), At(data, 2));
    LastText(data);
    var text := [quad[0], quad[1], if |data| > 1 then quad[2] else PAD, if |data| > 2 then quad[3] else PAD];
    assert text + "" == text;
    DecodeQuad(text, "");
    assert |DecodeBlock("")| == 0;
  }

  lemma DecodeLast(data: seq<Octet>)
    requires 0 < |data| <= 3
    ensures Extends(DecodeBlock(Encode(data)), data)
  {
    hide *;
    LastBlock(data);
    PaddedExtends(DecodeBlock(Encode(data)), data);
  }

  lemma ExtendsFront(front: seq<Octet>, block: seq<Octet>, data: seq<Octet>)
    requires Extends(block, data)
    ensures Extends(front + block, front + data)
  {
    assert (front + block)[..|front + data|] == front + data;
  }

  lemma {:induction false} DecodeExtends(data: seq<Octet>)
    ensures Extends(DecodeBlock(Encode(data)), data)
  {
    if 0 < |data| <= 3 {
      DecodeLast(data);
    } else if |data| > 3 {
      var quad, rest := Quad(data[0], data[1], data[2]), data[3..];
      QuadSymbols(data[0], data[1], data[2]);
      DecodeExtends(rest);
      DecodeQuad(quad, Encode(rest));
      assert Encode(data) == quad + Encode(rest);
      hide Quad, Triple, InAlphabet, DecodeBlock, Encode;
      ExtendsFront([data[0], data[1], data[2]], DecodeBlock(Encode(rest)), rest);
      hide Extends;
      assert data == [data[0], data[1], data[2]] + rest;
    }
  }

  /** Decoding what was encoded gives the data back, followed by a zero for every pad. */
  lemma DecodeEncode(data: seq<Octet>)
    ensures Extends(DecodeBlock(Encode(data)), data)
    ensures |DecodeBlock(Encode(data))| == |data| + if data == [] then 0 else Pads(Encode(data))
  {
    DecodeExtends(data);
    EncodeAlphabet(data);
    assert Encode([]) == "";
    hide Encode, DecodeBlock, Pads, Padded, Extends;
  }

  lemma EncodeInjective(a: seq<Octet>, b: seq<Octet>)
    requires Encode(a) == Encode(b)
    ensures a == b
  {
    if a == [] || b == [] {
    } else {
      EncodeAlphabet(a);
      EncodeAlphabet(b);
      DecodeEncode(a);
      DecodeEncode(b);
      assert |a| == |b|;
    }
  }
}
