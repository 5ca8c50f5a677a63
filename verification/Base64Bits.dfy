/**
 * Base64 bit by bit: which character of the alphabet stands for which six bits of the data,
 * and which octets a text stands for, padded or not and whatever its stray bits.
 */
module Base64Bits {
  import opened Basics
  import opened Base64

  /** Table 1 of RFC 3548. */
  function Character(v: Sextet): char {
    if v < 26 then 'A' + v as char
    else if v < 52 then 'a' + (v - 26) as char
    else if v < 62 then '0' + (v - 52) as char
    else if v == 62 then '+'
    else '/'
  }

  function Code(v: Sextet): (c: Byte)
    ensures c != 61
  {
    Character(v) as int
  }

  lemma SymbolIsCode(v: Sextet)
    ensures Symbol(v) == Code(v) && Table64(Code(v)) == v
  {
  }

  lemma GarbageReadsAsOnes(c: Byte)
    ensures (forall v: Sextet :: Code(v) != c) ==> Table64(c) == 0xFF
  {
    if Table64(c) != 0xFF {
      SymbolInvertsTable(c);
      SymbolIsCode(Table64(c));
    }
  }

  // ----- encoding

  /** The octets from `i` on, with zero bits behind the last. */
  function Octet(x: Octets, i: nat): int {
    if i < |x| then x[i] else 0
  }

  /** Three octets as a number of 24 bits. */
  function Bits24(x: Octets, g: nat): int {
    (Octet(x, 3 * g) * 256 + Octet(x, 3 * g + 1)) * 256 + Octet(x, 3 * g + 2)
  }

  /** Six of the 24 bits, the highest first. */
  function SixBits(n: int, j: nat): Sextet {
    if j == 0 then n / 0x4_0000 % 64 else if j == 1 then n / 0x1000 % 64 else if j == 2 then n / 64 % 64 else n % 64
  }

  lemma SixBitsOf(a: Byte, b: Byte, c: Byte)
    ensures var n := ((a as int) * 256 + b) * 256 + c;
            && SixBits(n, 0) == a / 4 && SixBits(n, 1) == a % 4 * 16 + b / 16
            && SixBits(n, 2) == b % 16 * 4 + c / 64 && SixBits(n, 3) == c % 64
  {
    var n: int := ((a as int) * 256 + b) * 256 + c;
    var p, q, r, t := a / 4, a % 4 * 16 + b / 16, b % 16 * 4 + c / 64, c % 64;
    Divided(n, 64, (p * 64 + q) * 64 + r, t);
    Divided((p * 64 + q) * 64 + r, 64, p * 64 + q, r);
    Divided(n, 0x1000, p * 64 + q, r * 64 + t);
    Divided(p * 64 + q, 64, p, q);
    Divided(n, 0x4_0000, p, (q * 64 + r) * 64 + t);
  }

  lemma GroupInBits(x: Octets, j: nat)
    requires 1 <= |x| <= 3 && j < 4
    ensures EncodeGroup(x)[j] == if j <= |x| then Code(SixBits(Bits24(x, 0), j)) else 61
  {
    hide Symbol, Code, SixBits;
    var a, b, c := x[0], if |x| > 1 then x[1] else 0, if |x| > 2 then x[2] else 0;
    SixBitsOf(a, b, c);
    assert Bits24(x, 0) == ((a as int) * 256 + b) * 256 + c;
    SymbolIsCode(SixBits(Bits24(x, 0), j));
  }

  /** Character `4 * g + j` of an encoding stands for six bits of the octets from `3 * g` on, or is padding. */
  lemma {:induction false} EncodedInBits(x: Octets, g: nat, j: nat)
    requires j < 4 && 3 * g < |x|
    ensures 4 * g + j < |Encode(x)|
    ensures Encode(x)[4 * g + j] == if j <= |x| - 3 * g then Code(SixBits(Bits24(x, g), j)) else 61
    decreases g
  {
    hide EncodeGroup, Code, SixBits;
    if g == 0 {
      var first := if |x| <= 3 then x else x[..3];
      GroupInBits(first, j);
      assert Bits24(first, 0) == Bits24(x, 0);
    } else {
      EncodedInBits(x[3..], g - 1, j);
      assert Bits24(x[3..], g - 1) == Bits24(x, g);
      assert Encode(x)[4..] == Encode(x[3..]);
    }
  }

  // ----- decoding

  /** What any two octets are combined to, by their bits. */
  lemma OctetsInBits(c: Byte, d: Byte)
    ensures First(c, d) / 4 == c % 64 && First(c, d) % 4 == d / 16 % 4
    ensures Second(c, d) / 16 == c % 16 && Second(c, d) % 16 == d / 4 % 16
    ensures Third(c, d) == if d == 0xFF then 0xFF else c % 4 * 64 + d % 64
  {
    FirstInBits(c, d);
    SecondInBits(c, d);
    ThirdInBits(c, d);
    hide First, Second, Third;
  }

  lemma FirstInBits(c: Byte, d: Byte)
    ensures First(c, d) == c % 64 * 4 + d / 16 % 4
  {
    assert (c as int) * 4 == 256 * (c / 64) + c % 64 * 4;
    ShiftedOut(c / 64, c % 64 * 4);
  }

  lemma SecondInBits(c: Byte, d: Byte)
    ensures Second(c, d) == c % 16 * 16 + d / 4 % 16
  {
    assert (c as int) * 16 == 256 * (c / 16) + c % 16 * 16;
    ShiftedOut(c / 16, c % 16 * 16);
  }

  lemma ThirdInBits(c: Byte, d: Byte)
    ensures Third(c, d) == if d == 0xFF then 0xFF else c % 4 * 64 + d % 64
  {
    assert (c as int) * 64 == 256 * (c / 4) + c % 4 * 64;
    ShiftedOut(c / 4, c % 4 * 64);
  }

  /**
   * Four characters stand for three octets, three and a padding character for two, two and a
   * padding character for one, with which decoding ends; what is left of the bits does not matter.
   */
  lemma DecodedInBits(p: Sextet, q: Sextet, r: Sextet, t: Sextet, more: Octets)
    ensures var n := ((p * 64 + q) * 64 + r) * 64 + t;
            Decode([Code(p), Code(q), Code(r), Code(t)] + more)
              == [n / 0x1_0000, n / 256 % 256, n % 256] + Decode(more)
    ensures var n := ((p * 64 + q) * 64 + r) / 4;
            Decode([Code(p), Code(q), Code(r), 61] + more) == [n / 256, n % 256]
    ensures Decode([Code(p), Code(q), 61] + more) == [(p * 64 + q) / 16]
  {
    hide Code, Table64, First, Second, Third;
    SymbolIsCode(p);
    SymbolIsCode(q);
    SymbolIsCode(r);
    SymbolIsCode(t);
    FirstOf(p, q);
    SecondOf(q, r);
    ThirdOf(r, t);
    Joined(p, q, r, t);
    assert ([Code(p), Code(q), Code(r), Code(t)] + more)[4..] == more;
  }

  lemma Joined(p: Sextet, q: Sextet, r: Sextet, t: Sextet)
    ensures JoinedFour(((p * 64 + q) * 64 + r) * 64 + t, p, q, r, t)
    ensures var n := ((p * 64 + q) * 64 + r) / 4; n / 256 == p * 4 + q / 16 && n % 256 == q % 16 * 16 + r / 4
    ensures (p * 64 + q) / 16 == p * 4 + q / 16
  {
    var x, y, z := p * 4 + q / 16, q % 16 * 16 + r / 4, r % 4 * 64 + t;
    var n: int := ((p * 64 + q) * 64 + r) * 64 + t;
    Divided(n, 256, 256 * x + y, z);
    Divided(256 * x + y, 256, x, y);
    Divided(n, 0x1_0000, x, 256 * y + z);
    Divided((p * 64 + q) * 64 + r, 4, 256 * x + y, r % 4);
  }

  predicate JoinedFour(n: nat, p: Sextet, q: Sextet, r: Sextet, t: Sextet) {
    && n / 0x1_0000 == p * 4 + q / 16
    && n / 256 % 256 == q % 16 * 16 + r / 4
    && n % 256 == r % 4 * 64 + t
  }
}
