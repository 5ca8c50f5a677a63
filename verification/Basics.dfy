/** Small vocabulary shared by the other modules. */
module Basics {

  datatype Option<+T> = None | Some(value: T)

  /** An octet as a number. */
  type Byte = b: int | 0 <= b < 256

  type Octets = seq<Byte>

  /** The digit for a number below 16, in lower case. */
  function HexDigit(n: int): Byte
    requires 0 <= n < 16
  {
    if n < 10 then 48 + n else 87 + n
  }

  const LOWER_DIGITS := "0123456789abcdef"

  lemma HexDigitIs(n: int)
    requires 0 <= n < 16
    ensures HexDigit(n) == LOWER_DIGITS[n] as int
  {
  }

  /** The low `n` bytes of `v`, the lowest first. */
  function LittleEndian(v: nat, n: nat): (bytes: Octets)
    ensures |bytes| == n
    decreases n
  {
    if n == 0 then [] else [v % 256] + LittleEndian(v / 256, n - 1)
  }

  lemma LittleEndianInBytes(v: nat)
    ensures LittleEndian(v, 4) == [v % 256, v / 256 % 256, v / 0x1_0000 % 256, v / 0x100_0000 % 256]
  {
    assert LittleEndian(v / 0x100_0000, 1) == [v / 0x100_0000 % 256];
    assert LittleEndian(v / 0x1_0000, 2) == [v / 0x1_0000 % 256] + LittleEndian(v / 0x1_0000 / 256, 1);
    assert LittleEndian(v / 256, 3) == [v / 256 % 256] + LittleEndian(v / 256 / 256, 2);
  }

  /** What four bytes stand for, the lowest first. */
  function LittleWord(b: Octets): int
    requires |b| == 4
  {
    (b[0] as int) + (b[1] as int) * 256 + (b[2] as int) * 0x1_0000 + (b[3] as int) * 0x100_0000
  }

  lemma LittleWordOf(v: nat)
    requires v < 0x1_0000_0000
    ensures LittleWord(LittleEndian(v, 4)) == v
  {
    hide LittleEndian;
    LittleEndianInBytes(v);
    var q := v / 0x1_0000;
    assert v / 256 / 256 == q && v / 0x100_0000 == q / 256;
    assert v % 256 + v / 256 % 256 * 256 + q * 0x1_0000 == v;
    assert q == q % 256 + q / 256 * 256 && q / 256 < 256;
  }

  function Zeros(n: nat): (zeros: Octets)
    ensures |zeros| == n
  {
    seq(n, _ => 0)
  }

  /** `n` is where the string in `s` ends. */
  ghost predicate EndsAt(s: array<Byte>, n: nat)
    reads s
  {
    n < s.Length && s[n] == 0 && forall i :: 0 <= i < n ==> s[i] != 0
  }

  predicate NoneEmpty<T>(pieces: seq<seq<T>>) {
    forall i :: 0 <= i < |pieces| ==> |pieces[i]| > 0
  }

  lemma Regroup<T>(a: seq<T>, b: seq<T>, c: seq<T>)
    ensures a + (b + c) == a + b + c
  {
  }

  /** Quotient and remainder from any way of writing the number with them. */
  lemma Divided(n: int, d: int, q: int, r: int)
    requires d > 0 && n == d * q + r && 0 <= r < d
    ensures n / d == q && n % d == r
  {
    var k := n / d - q;
    assert d * k == r - n % d;
    assert k >= 1 ==> d * k >= d;
    assert k <= -1 ==> d * k <= -d;
  }

  /** The concatenation of a list of pieces. */
  function Concat<T>(pieces: seq<seq<T>>): seq<T> {
    if pieces == [] then [] else pieces[0] + Concat(pieces[1..])
  }

  lemma {:induction false} ConcatAppend<T>(left: seq<seq<T>>, right: seq<seq<T>>)
    ensures Concat(left + right) == Concat(left) + Concat(right)
  {
    if left == [] {
      assert left + right == right;
    } else {
      assert (left + right)[1..] == left[1..] + right;
      ConcatAppend(left[1..], right);
    }
  }

  ghost predicate IsLeast(k: int, keys: set<int>) {
    k in keys && forall j :: j in keys ==> k <= j
  }

  lemma {:induction false} LeastExists(keys: set<int>)
    requires keys != {}
    ensures exists k :: IsLeast(k, keys)
  {
    assert exists j :: j in keys by {
      if forall j :: j !in keys { assert false; }
    }
    var k :| k in keys;
    if keys == {k} {
      assert IsLeast(k, keys);
    } else {
      LeastExists(keys - {k});
      var m :| IsLeast(m, keys - {k});
      assert forall j :: j in keys ==> j == k || j in keys - {k};
      assert IsLeast(if k <= m then k else m, keys);
    }
  }
}
