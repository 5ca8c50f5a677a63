/**
 * Base64 (section 3 of RFC 3548) as gloox encodes and decodes it and as mongoose
 * encodes it.  Texts are strings of character codes.  Shifts and masks of octets are
 * written with / and %, and "or" of disjoint bits with +.
 */
module Base64 {
  import opened Basics

  type Sextet = v: int | 0 <= v < 64
  const PAD: Byte := 61   // '='
  const NP: Byte := 0xFF  // not in the alphabet: all bits set

  /** The alphabet A-Z a-z 0-9 + / by character code. */
  function Symbol(v: Sextet): (c: Byte)
    ensures c != PAD
  {
    if v < 26 then v + 65
    else if v < 52 then v + 71
    else if v < 62 then v - 4
    else if v == 62 then 43
    else 47
  }

  function Table64(c: Byte): (v: Byte)
    ensures v < 64 || v == NP
  {
    if c == 43 then 62
    else if c == 47 then 63
    else if 48 <= c <= 57 then c + 4
    else if 65 <= c <= 90 then c - 65
    else if 97 <= c <= 122 then c - 71
    else NP
  }

  lemma TableInvertsSymbol(v: Sextet)
    ensures Table64(Symbol(v)) == v
  {
  }

  lemma SymbolInvertsTable(c: Byte)
    requires Table64(c) != NP
    ensures Symbol(Table64(c)) == c
  {
  }

  // ----- the codec on whole texts

  function EncodeGroup(x: Octets): (r: Octets)
    requires 1 <= |x| <= 3
    ensures |r| == 4
  {
    var b := if |x| > 1 then x[1] else 0;
    var c := if |x| > 2 then x[2] else 0;
    [Symbol(x[0] / 4), Symbol(x[0] % 4 * 16 + b / 16),
     if |x| > 1 then Symbol(b % 16 * 4 + c / 64) else PAD,
     if |x| > 2 then Symbol(c % 64) else PAD]
  }

  function Encode(x: Octets): Octets {
    if x == [] then []
    else if |x| <= 3 then EncodeGroup(x)
    else EncodeGroup(x[..3]) + Encode(x[3..])
  }

  /** Reading a string at its length gives NUL. */
  function At(s: Octets, i: nat): Byte
    requires i <= |s|
  {
    if i < |s| then s[i] else 0
  }

  function First(c: Byte, d: Byte): Byte {
    (c as int) * 4 % 256 + d / 16 % 4
  }

  function Second(d: Byte, c: Byte): Byte {
    (d as int) * 16 % 256 + c / 4 % 16
  }

  function Third(c: Byte, d: Byte): Byte {
    if d == NP then NP else (c as int) * 64 % 256 + d % 64
  }

  /** What the first group of four decodes to, and whether decoding goes on behind it. */
  function DecodeGroup(s: Octets): (r: (Octets, bool))
    requires s != []
    ensures r.1 ==> |s| >= 4
  {
    var c, d := Table64(s[0]), Table64(At(s, 1));
    if |s| <= 2 || s[2] == PAD then ([First(c, d)], false)
    else
      var e := Table64(s[2]);
      if |s| <= 3 || s[3] == PAD then ([First(c, d), Second(d, e)], false)
      else ([First(c, d), Second(d, e), Third(e, Table64(s[3]))], true)
  }

  function Decode(s: Octets): Octets {
    if s == [] then []
    else
      var (x, more) := DecodeGroup(s);
      if more then x + Decode(s[4..]) else x
  }

  // ----- round trips

  lemma FirstOf(p: Sextet, q: Sextet)
    ensures First(p, q) == p * 4 + q / 16
  {
  }

  /** What is shifted out of an octet is gone. */
  lemma ShiftedOut(high: int, low: int)
    requires 0 <= low < 256
    ensures (256 * high + low) % 256 == low
  {
  }

  lemma SecondOf(q: Sextet, r: Sextet)
    ensures Second(q, r) == q % 16 * 16 + r / 4
  {
    assert q * 16 == 256 * (q / 16) + q % 16 * 16;
    ShiftedOut(q / 16, q % 16 * 16);
  }

  lemma ThirdOf(r: Sextet, t: Sextet)
    ensures Third(r, t) == r % 4 * 64 + t
  {
    assert r * 64 == 256 * (r / 4) + r % 4 * 64;
    ShiftedOut(r / 4, r % 4 * 64);
  }

  /** The octets of the sextets that octets were cut into. */
  lemma OctetsBack(a: Byte, b: Byte, c: Byte)
    ensures First(a / 4, a % 4 * 16 + b / 16) == a
    ensures Second(a % 4 * 16 + b / 16, b % 16 * 4 + c / 64) == b
    ensures Third(b % 16 * 4 + c / 64, c % 64) == c
  {
    FirstOf(a / 4, a % 4 * 16 + b / 16);
    SecondOf(a % 4 * 16 + b / 16, b % 16 * 4 + c / 64);
    ThirdOf(b % 16 * 4 + c / 64, c % 64);
    hide First, Second, Third;
  }

  lemma EncodedGroupDecodes(x: Octets, more: Octets)
    requires 1 <= |x| <= 3
    ensures DecodeGroup(EncodeGroup(x) + more) == (x, |x| == 3)
  {
    var s := EncodeGroup(x) + more;
    var a, b, c := x[0], if |x| > 1 then x[1] else 0, if |x| > 2 then x[2] else 0;
    var p, q, r, t := a / 4, a % 4 * 16 + b / 16, b % 16 * 4 + c / 64, c % 64;
    OctetsBack(a, b, c);
    TableInvertsSymbol(p);
    TableInvertsSymbol(q);
    TableInvertsSymbol(r);
    TableInvertsSymbol(t);
    hide Symbol, Table64, First, Second, Third;
    assert s[0] == Symbol(p) && s[1] == Symbol(q);
    assert s[2] == if |x| > 1 then Symbol(r) else PAD;
    assert s[3] == if |x| > 2 then Symbol(t) else PAD;
    assert x == if |x| == 1 then [a] else if |x| == 2 then [a, b] else [a, b, c];
  }

  /** Decoding undoes encoding, for every string of octets. */
  lemma {:induction false} DecodeOfEncode(x: Octets)
    ensures Decode(Encode(x)) == x
    decreases |x|
  {
    hide EncodeGroup, DecodeGroup;
    if x == [] {
    } else if |x| <= 3 {
      EncodedGroupDecodes(x, []);
      assert EncodeGroup(x) + [] == EncodeGroup(x);
      if |x| == 3 {
        assert EncodeGroup(x)[4..] == [];
      }
    } else {
      EncodedGroupDecodes(x[..3], Encode(x[3..]));
      assert Encode(x)[4..] == Encode(x[3..]);
      DecodeOfEncode(x[3..]);
    }
  }

  lemma {:induction false} EncodedLength(x: Octets)
    ensures |Encode(x)| == 4 * ((|x| + 2) / 3)
    decreases |x|
  {
    hide EncodeGroup;
    if |x| > 3 {
      EncodedLength(x[3..]);
    }
  }

  /** Four symbols, or a last group with padding and no stray bits. */
  predicate CanonicalGroup(s: Octets)
    requires |s| == 4
  {
    && Table64(s[0]) != NP && Table64(s[1]) != NP
    && if s[2] == PAD then s[3] == PAD && Table64(s[1]) % 16 == 0
       else Table64(s[2]) != NP && if s[3] == PAD then Table64(s[2]) % 4 == 0 else Table64(s[3]) != NP
  }

  /** Whole groups, padding only in the last. */
  predicate Canonical(s: Octets) {
    s == [] || (|s| >= 4 && CanonicalGroup(s[..4]) && (|s| == 4 || (s[3] != PAD && Canonical(s[4..]))))
  }

  /** The sextets of the octets that sextets were put together to. */
  lemma SextetsBack(p: Sextet, q: Sextet, r: Sextet, t: Sextet)
    ensures First(p, q) / 4 == p && First(p, q) % 4 * 16 + Second(q, r) / 16 == q
    ensures Second(q, r) % 16 * 4 + Third(r, t) / 64 == r && Third(r, t) % 64 == t
  {
    FirstOf(p, q);
    SecondOf(q, r);
    ThirdOf(r, t);
    hide First, Second, Third;
  }

  lemma CanonicalGroupEncodes(s: Octets)
    requires |s| >= 4 && CanonicalGroup(s[..4])
    ensures EncodeGroup(DecodeGroup(s).0) == s[..4] && (DecodeGroup(s).1 <==> s[3] != PAD)
  {
    hide Symbol, Table64, First, Second, Third;
    var p, q := Table64(s[0]), Table64(s[1]);
    SymbolInvertsTable(s[0]);
    SymbolInvertsTable(s[1]);
    if s[2] == PAD {
      SextetsBack(p, q, 0, 0);
      LastOctet(p, q);
    } else {
      SymbolInvertsTable(s[2]);
      var r := Table64(s[2]);
      if s[3] == PAD {
        SextetsBack(p, q, r, 0);
        LastTwoOctets(q, r);
      } else {
        SymbolInvertsTable(s[3]);
        SextetsBack(p, q, r, Table64(s[3]));
      }
    }
    var x := DecodeGroup(s).0;
    var g := EncodeGroup(x);
    assert g[0] == s[0] && g[1] == s[1] && g[2] == s[2] && g[3] == s[3];
  }

  lemma LastOctet(p: Sextet, q: Sextet)
    requires q % 16 == 0
    ensures First(p, q) % 4 * 16 == q
  {
    FirstOf(p, q);
    hide First;
  }

  lemma LastTwoOctets(q: Sextet, r: Sextet)
    requires r % 4 == 0
    ensures Second(q, r) % 16 * 4 == r
  {
    SecondOf(q, r);
    hide Second;
    assert r / 4 < 16;
  }

  lemma EncodedGroupIsCanonical(x: Octets)
    requires 1 <= |x| <= 3
    ensures CanonicalGroup(EncodeGroup(x)) && (EncodeGroup(x)[3] != PAD <==> |x| == 3)
  {
    var b := if |x| > 1 then x[1] else 0;
    var c := if |x| > 2 then x[2] else 0;
    TableInvertsSymbol(x[0] / 4);
    TableInvertsSymbol(x[0] % 4 * 16 + b / 16);
    TableInvertsSymbol(b % 16 * 4 + c / 64);
    TableInvertsSymbol(c % 64);
    hide Symbol, Table64;
  }

  lemma {:induction false} EncodeIsCanonical(x: Octets)
    ensures Canonical(Encode(x))
    decreases |x|
  {
    hide EncodeGroup, CanonicalGroup;
    if x == [] {
    } else if |x| <= 3 {
      EncodedGroupIsCanonical(x);
      assert EncodeGroup(x)[..4] == EncodeGroup(x);
    } else {
      EncodedGroupIsCanonical(x[..3]);
      EncodeIsCanonical(x[3..]);
      assert Encode(x)[..4] == EncodeGroup(x[..3]) && Encode(x)[4..] == Encode(x[3..]);
    }
  }

  lemma {:induction false} CanonicalRoundTrip(s: Octets)
    requires Canonical(s)
    ensures Encode(Decode(s)) == s && (s != [] ==> Decode(s) != [])
    decreases |s|
  {
    hide EncodeGroup, CanonicalGroup, DecodeGroup;
    if s != [] {
      CanonicalGroupEncodes(s);
      DecodedGroupSize(s);
      var (x, more) := DecodeGroup(s);
      if more {
        CanonicalRoundTrip(s[4..]);
        assert Decode(s)[..3] == x && Decode(s)[3..] == Decode(s[4..]);
        assert s == s[..4] + s[4..];
        if s[4..] == [] {
          assert Decode(s) == x;
        }
      } else {
        assert s == s[..4];
      }
    }
  }

  lemma DecodedGroupSize(s: Octets)
    requires s != []
    ensures 1 <= |DecodeGroup(s).0| <= 3 && (DecodeGroup(s).1 <==> |DecodeGroup(s).0| == 3)
  {
  }

  /** Encoding undoes decoding for the canonical texts and no others. */
  lemma EncodeOfDecodeIffCanonical(s: Octets)
    ensures Encode(Decode(s)) == s <==> Canonical(s)
  {
    if Canonical(s) {
      CanonicalRoundTrip(s);
    } else {
      EncodeIsCanonical(Decode(s));
    }
  }

  // ----- the code

  /** The octets of `input` from `i` on that one pass takes. */
  function Piece(input: Octets, i: nat): (x: Octets)
    requires i < |input|
    ensures 1 <= |x| <= 3
  {
    input[i..if i + 3 <= |input| then i + 3 else |input|]
  }

  /** One pass of gloox's loop: several increments of the index between the symbols. */
  method EncodePass(input: Octets, start: nat) returns (group: Octets, i: nat)
    requires start < |input|
    ensures group == EncodeGroup(Piece(input, start)) && i == start + 3
  {
    ghost var x := Piece(input, start);
    assert x[0] == input[start];
    assert start + 1 < |input| ==> |x| > 1 && x[1] == input[start + 1];
    assert start + 2 < |input| ==> |x| > 2 && x[2] == input[start + 2];
    hide Symbol, Piece;
    var length := |input|;
    i := start;
    var c := input[i] / 4;
    group := [Symbol(c)];
    c := input[i] % 4 * 16;
    i := i + 1;
    if i < length {
      c := c + input[i] / 16;
    }
    group := group + [Symbol(c)];
    if i < length {
      c := input[i] % 16 * 4;
      i := i + 1;
      if i < length {
        c := c + input[i] / 64;
      }
      group := group + [Symbol(c)];
    } else {
      i := i + 1;
      group := group + [PAD];
    }
    if i < length {
      c := input[i] % 64;
      group := group + [Symbol(c)];
    } else {
      group := group + [PAD];
    }
    i := i + 1;
  }

  method Encode64(input: Octets) returns (encoded: Octets)
    ensures encoded == Encode(input)
  {
    hide EncodeGroup, Encode, EncodeFrom, Piece;
    encoded := [];
    var i := 0;
    EncodeFromStart(input);
    while i < |input|
      invariant encoded + EncodeFrom(input, i) == Encode(input)
      decreases |input| - i
    {
      EncodeStep(input, i);
      var group, next := EncodePass(input, i);
      Regroup(encoded, group, EncodeFrom(input, next));
      encoded := encoded + group;
      i := next;
    }
    EncodeFromEnd(input, i);
  }

  /** What is still to be written when the index is at `i`, which may be beyond the end. */
  function EncodeFrom(input: Octets, i: nat): Octets {
    if i < |input| then Encode(input[i..]) else []
  }

  lemma EncodeStep(input: Octets, i: nat)
    requires i < |input|
    ensures EncodeFrom(input, i) == EncodeGroup(Piece(input, i)) + EncodeFrom(input, i + 3)
  {
    hide EncodeGroup;
    var x := input[i..];
    if |x| > 3 {
      assert x[..3] == Piece(input, i) && x[3..] == input[i + 3..];
    } else {
      assert x == Piece(input, i);
    }
  }

  /** One pass of gloox's decoding loop, which leaves the loop at a padding character. */
  method DecodePass(input: Octets, start: nat) returns (x: Octets, more: bool, i: nat)
    requires start < |input|
    ensures (x, more && start + 4 <= |input|) == DecodeGroup(input[start..]) && i <= start + 4
    ensures more ==> i == start + 4
  {
    hide Table64, First, Second, Third;
    ghost var s := input[start..];
    i := start;
    var c := Table64(input[i]);
    i := i + 1;
    assert At(s, 1) == At(input, i);
    var d := Table64(At(input, i));
    c := First(c, d);
    x := [c];
    i := i + 1;
    if i < |input| {
      assert s[2] == input[i];
      c := input[i];
      if c == PAD {
        return x, false, i;
      }
      c := Table64(input[i]);
      x := x + [Second(d, c)];
    }
    i := i + 1;
    if i < |input| {
      assert s[3] == input[i] && s[2] != PAD && |s| > 3;
      d := input[i];
      if d == PAD {
        assert x == DecodeGroup(s).0;
        return x, false, i;
      }
      d := Table64(input[i]);
      x := x + [Third(c, d)];
    }
    i := i + 1;
    more := true;
    assert x == DecodeGroup(s).0;
  }

  function DecodeFrom(input: Octets, i: nat): Octets {
    if i < |input| then Decode(input[i..]) else []
  }

  method Decode64(input: Octets) returns (decoded: Octets)
    ensures decoded == Decode(input)
  {
    hide DecodeGroup, Decode;
    decoded := [];
    var i, more := 0, true;
    DecodeFromStart(input);
    while more && i < |input|
      invariant more ==> decoded + DecodeFrom(input, i) == Decode(input)
      invariant !more ==> decoded == Decode(input)
      decreases more, |input| - i
    {
      DecodeStep(input, i);
      ghost var done := decoded;
      ghost var rest := if DecodeGroup(input[i..]).1 then DecodeFrom(input, i + 4) else [];
      var x, go, next := DecodePass(input, i);
      decoded := decoded + x;
      assert done + (x + rest) == decoded + rest;
      more := go;
      i := next;
    }
  }

  lemma DecodeStep(input: Octets, i: nat)
    requires i < |input|
    ensures var (x, more) := DecodeGroup(input[i..]);
            DecodeFrom(input, i) == x + if more then DecodeFrom(input, i + 4) else []
  {
    hide DecodeGroup;
    var x := DecodeGroup(input[i..]).0;
    assert x + [] == x;
    if i + 4 < |input| {
      assert input[i..][4..] == input[i + 4..];
    } else if i + 4 == |input| {
      assert input[i..][4..] == [] && Decode([]) == [];
      assert x + Decode(input[i..][4..]) == x;
    }
  }

  lemma DecodeFromStart(input: Octets)
    ensures DecodeFrom(input, 0) == Decode(input)
  {
    assert input[0..] == input;
  }

  /** One pass of mongoose's loop: two, three or four symbols, no padding. */
  method Base64Pass(src: Octets, i: nat, dst: array<Byte>, start: nat) returns (j: nat)
    requires i < |src| && start + 4 <= dst.Length
    modifies dst
    ensures var group := EncodeGroup(Piece(src, i));
            && start + 2 <= j <= start + 4 && j - start == (if i + 2 < |src| then 4 else if i + 1 < |src| then 3 else 2)
            && dst[..j] == old(dst[..start]) + group[..j - start]
            && forall k :: j - start <= k < 4 ==> group[k] == PAD
  {
    hide Symbol;
    var a := src[i];
    var b := if i + 1 >= |src| then 0 else src[i + 1];
    var c := if i + 2 >= |src| then 0 else src[i + 2];
    dst[start], dst[start + 1] := Symbol(a / 4), Symbol(a % 4 * 16 + b / 16);
    j := start + 2;
    if i + 1 < |src| {
      dst[j] := Symbol(b % 16 * 4 + c / 64);
      j := j + 1;
    }
    if i + 2 < |src| {
      dst[j] := Symbol(c % 64);
      j := j + 1;
    }
  }

  /** mongoose: the symbols first, the padding and the closing NUL at the end. */
  method Base64Encode(src: Octets, dst: array<Byte>) returns (j: nat)
    requires |Encode(src)| < dst.Length
    modifies dst
    ensures j == |Encode(src)| && dst[..j] == Encode(src) && dst[j] == 0
  {
    hide Encode, EncodeGroup, EncodeFrom, Encoding, Piece;
    var i := 0;
    j := 0;
    ghost var missing: Octets := [];
    EncodingStarts(src);
    while i < |src|
      invariant j <= dst.Length && Encoding(src, i, dst[..j], missing)
      decreases |src| - i
    {
      EncodingGoesOn(src, i, dst[..j], missing);
      ghost var start, group := j, EncodeGroup(Piece(src, i));
      j := Base64Pass(src, i, dst, j);
      missing := group[j - start..];
      i := i + 3;
    }
    EncodingEnds(src, i, dst[..j], missing);
    j := PutPadding(dst, j, missing);
    dst[j] := 0;
  }

  /** What is written, the padding put off to the end and what is still to come make up the encoding. */
  ghost predicate Encoding(src: Octets, i: nat, written: Octets, missing: Octets) {
    && |missing| < 3 && (forall k :: 0 <= k < |missing| ==> missing[k] == PAD)
    && (i < |src| ==> missing == [])
    && written + missing + EncodeFrom(src, i) == Encode(src)
  }

  lemma EncodingStarts(src: Octets)
    ensures Encoding(src, 0, [], [])
  {
    EncodeFromStart(src);
    hide Encode, EncodeFrom;
    assert [] + [] + EncodeFrom(src, 0) == EncodeFrom(src, 0);
  }

  lemma EncodingGoesOn(src: Octets, i: nat, written: Octets, missing: Octets)
    requires i < |src| && Encoding(src, i, written, missing)
    ensures |written| + 4 <= |Encode(src)|
    ensures var group := EncodeGroup(Piece(src, i));
            var n := if i + 2 < |src| then 4 else if i + 1 < |src| then 3 else 2;
            (forall k :: n <= k < 4 ==> group[k] == PAD) ==> Encoding(src, i + 3, written + group[..n], group[n..])
  {
    EncodeStep(src, i);
    hide Encode, EncodeFrom, EncodeGroup, Piece;
    var group, rest := EncodeGroup(Piece(src, i)), EncodeFrom(src, i + 3);
    assert written + missing == written;
    Regroup(written, group, rest);
    EncodingSplits(src, i, written, group, if i + 2 < |src| then 4 else if i + 1 < |src| then 3 else 2);
  }

  lemma EncodingSplits(src: Octets, i: nat, written: Octets, group: Octets, n: nat)
    requires |group| == 4 && 2 <= n <= 4 && (i + 3 < |src| ==> n == 4)
    requires written + group + EncodeFrom(src, i + 3) == Encode(src)
    ensures |written| + 4 <= |Encode(src)|
    ensures (forall k :: n <= k < 4 ==> group[k] == PAD) ==> Encoding(src, i + 3, written + group[..n], group[n..])
  {
    hide Encode, EncodeFrom;
    assert group[..n] + group[n..] == group;
    Regroup(written, group[..n], group[n..]);
  }

  lemma EncodingEnds(src: Octets, i: nat, written: Octets, missing: Octets)
    requires i >= |src| && Encoding(src, i, written, missing)
    ensures |missing| < 3 && (forall k :: 0 <= k < |missing| ==> missing[k] == PAD)
    ensures written + missing == Encode(src) && |Encode(src)| % 4 == 0
  {
    hide Encode, EncodeFrom, EncodeGroup;
    EncodeFromEnd(src, i);
    EncodedLength(src);
    assert written + missing + [] == written + missing;
  }

  /** The padding that is still missing, up to a multiple of four. */
  method PutPadding(dst: array<Byte>, start: nat, ghost missing: Octets) returns (j: nat)
    requires |missing| < 3 && (start + |missing|) % 4 == 0 && start + |missing| < dst.Length
    requires forall k :: 0 <= k < |missing| ==> missing[k] == PAD
    modifies dst
    ensures j == start + |missing| && dst[..j] == old(dst[..start]) + missing
  {
    j := start;
    ghost var left := missing;
    while j % 4 != 0
      invariant start <= j && j + |left| == start + |missing| && |left| < 3
      invariant forall k :: 0 <= k < |left| ==> left[k] == PAD
      invariant dst[..j] + left == old(dst[..start]) + missing
      decreases |left|
    {
      ghost var front := dst[..j];
      dst[j] := PAD;
      j := j + 1;
      assert dst[..j] == front + [left[0]];
      Regroup(front, [left[0]], left[1..]);
      assert left == [left[0]] + left[1..];
      left := left[1..];
    }
  }

  lemma EncodeFromStart(src: Octets)
    ensures EncodeFrom(src, 0) == Encode(src)
  {
    assert src[0..] == src;
  }

  lemma EncodeFromEnd(src: Octets, i: nat)
    requires i >= |src|
    ensures EncodeFrom(src, i) == []
  {
  }
}
