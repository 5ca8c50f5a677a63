/** Percent coding of URLs: the encoder, the decoder, and both over C buffers. */
module UrlCoding {
  import opened Basics

  const PERCENT: Byte := 37
  const PLUS: Byte := 43
  const SPACE: Byte := 32

  predicate IsAlnum(b: Byte) {
    48 <= b <= 57 || 65 <= b <= 90 || 97 <= b <= 122
  }

  /** Letters, digits and `._-$,;~()`. */
  predicate IsPlain(b: Byte) {
    IsAlnum(b) || b in [46, 95, 45, 36, 44, 59, 126, 40, 41]
  }

  predicate IsHexDigit(b: Byte) {
    48 <= b <= 57 || 65 <= b <= 70 || 97 <= b <= 102
  }

  /** The value of a digit of either case. */
  function HexToInt(b: Byte): (n: int)
    requires IsHexDigit(b)
    ensures 0 <= n < 16
  {
    var low := if 65 <= b <= 90 then b + 32 else b;
    if 48 <= low <= 57 then low - 48 else low - 87
  }

  function EncodeByte(b: Byte): (r: Octets)
    ensures 1 <= |r| <= 3
  {
    if IsPlain(b) then [b] else [PERCENT, HexDigit(b / 16), HexDigit(b % 16)]
  }

  function Encode(s: Octets): (r: Octets)
    ensures |s| <= |r| <= 3 * |s|
  {
    if s == [] then [] else EncodeByte(s[0]) + Encode(s[1..])
  }

  predicate IsEscape(s: Octets) {
    |s| >= 3 && s[0] == PERCENT && IsHexDigit(s[1]) && IsHexDigit(s[2])
  }

  /** One byte of output, and how much input it took. */
  function DecodeByte(s: Octets, form: bool): (Byte, nat)
    requires s != []
  {
    if IsEscape(s) then (16 * HexToInt(s[1]) + HexToInt(s[2]), 3)
    else if form && s[0] == PLUS then (SPACE, 1)
    else (s[0], 1)
  }

  function Decode(s: Octets, form: bool): (r: Octets)
    ensures |r| <= |s|
    decreases |s|
  {
    if s == [] then []
    else
      var (b, n) := DecodeByte(s, form);
      [b] + Decode(s[n..], form)
  }

  lemma DecodeEncodedByte(b: Byte, more: Octets, form: bool)
    ensures DecodeByte(EncodeByte(b) + more, form) == (b, |EncodeByte(b)|)
  {
    var s := EncodeByte(b) + more;
    if IsPlain(b) {
      assert s[0] == b;
    } else {
      assert s[0] == PERCENT && s[1] == HexDigit(b / 16) && s[2] == HexDigit(b % 16);
    }
  }

  /** Decoding undoes encoding, for form data and for paths. */
  lemma {:induction false} DecodeOfEncode(s: Octets, form: bool)
    ensures Decode(Encode(s), form) == s
    decreases |s|
  {
    if s != [] {
      var code, more := EncodeByte(s[0]), Encode(s[1..]);
      DecodeEncodedByte(s[0], more, form);
      assert (code + more)[|code|..] == more;
      DecodeOfEncode(s[1..], form);
    }
  }

  /** Text in which every byte is plain or an escape, in lower case, of a byte that is not plain. */
  predicate IsCanonical(s: Octets) {
    s == [] || (if IsPlain(s[0]) then IsCanonical(s[1..]) else IsCanonicalEscape(s) && IsCanonical(s[3..]))
  }

  predicate IsCanonicalEscape(s: Octets) {
    && IsEscape(s)
    && !(65 <= s[1] <= 70)
    && !(65 <= s[2] <= 70)
    && !IsPlain(16 * HexToInt(s[1]) + HexToInt(s[2]))
  }

  lemma {:induction false} EncodeIsCanonical(s: Octets)
    ensures IsCanonical(Encode(s))
    decreases |s|
  {
    if s != [] {
      var code, more := EncodeByte(s[0]), Encode(s[1..]);
      EncodeIsCanonical(s[1..]);
      DecodeEncodedByte(s[0], more, false);
      assert (code + more)[|code|..] == more;
      if !IsPlain(s[0]) {
        EscapeIsCanonical(s[0], more);
      }
    }
  }

  lemma EscapeIsCanonical(b: Byte, more: Octets)
    requires !IsPlain(b)
    ensures IsCanonicalEscape(EncodeByte(b) + more)
  {
    var s := EncodeByte(b) + more;
    assert s[0] == PERCENT && s[1] == HexDigit(b / 16) && s[2] == HexDigit(b % 16);
    assert 16 * (b / 16) + b % 16 == b;
    hide IsPlain;
  }

  lemma CanonicalEscapeIsEncoding(s: Octets)
    requires IsCanonicalEscape(s)
    ensures EncodeByte(DecodeByte(s, false).0) == s[..3]
  {
    var a, b := HexToInt(s[1]), HexToInt(s[2]);
    assert (16 * a + b) / 16 == a && (16 * a + b) % 16 == b;
    assert HexDigit(a) == s[1] && HexDigit(b) == s[2];
    hide IsPlain;
    assert s[..3] == [s[0], s[1], s[2]];
  }

  /** Encoding undoes decoding exactly on the canonical texts. */
  lemma {:induction false} EncodeOfDecodeIffCanonical(s: Octets)
    ensures Encode(Decode(s, false)) == s <==> IsCanonical(s)
    decreases |s|
  {
    if Encode(Decode(s, false)) == s {
      EncodeIsCanonical(Decode(s, false));
    }
    if IsCanonical(s) && s != [] {
      var (b, n) := DecodeByte(s, false);
      var rest := Decode(s[n..], false);
      EncodeOfDecodeIffCanonical(s[n..]);
      assert ([b] + rest)[1..] == rest;
      if IsPlain(s[0]) {
        assert s == [s[0]] + s[1..];
      } else {
        CanonicalEscapeIsEncoding(s);
        assert s == s[..3] + s[3..];
      }
    }
  }

  // ----- character by character

  const UNRESERVED := "._-$,;~()"
  const UPPER_DIGITS := "0123456789ABCDEF"

  /** Letters, digits and nine signs stand for themselves; all else is a percent sign and two lower-case digits. */
  lemma EncodedCharacter(b: Byte)
    ensures var c := b as char;
            var plain := '0' <= c <= '9' || 'A' <= c <= 'Z' || 'a' <= c <= 'z' || c in UNRESERVED;
            Encode([b]) == if plain then [b]
                           else ['%' as int, LOWER_DIGITS[b / 16] as int, LOWER_DIGITS[b % 16] as int]
  {
    PlainCharacter(b);
    HexDigitIs(b / 16);
    HexDigitIs(b % 16);
    hide IsPlain, HexDigit;
    assert [b][1..] == [] && Encode([]) == [];
  }

  lemma PlainCharacter(b: Byte)
    ensures var c := b as char;
            IsPlain(b) <==> '0' <= c <= '9' || 'A' <= c <= 'Z' || 'a' <= c <= 'z' || c in UNRESERVED
  {
  }

  lemma {:induction false} EncodeAppend(s: Octets, t: Octets)
    ensures Encode(s + t) == Encode(s) + Encode(t)
    decreases |s|
  {
    if s == [] {
      assert s + t == t;
    } else {
      assert (s + t)[1..] == s[1..] + t;
      EncodeAppend(s[1..], t);
    }
  }

  /** A digit in either case. */
  predicate IsDigitOf(b: Byte, n: int)
    requires 0 <= n < 16
  {
    b as char == LOWER_DIGITS[n] || b as char == UPPER_DIGITS[n]
  }

  lemma DigitValue(b: Byte, n: int)
    requires 0 <= n < 16 && IsDigitOf(b, n)
    ensures IsHexDigit(b) && HexToInt(b) == n
  {
  }

  /** A percent sign and two digits of either case stand for a byte. */
  lemma DecodedEscape(h: Byte, l: Byte, m: int, n: int, rest: Octets, form: bool)
    requires 0 <= m < 16 && 0 <= n < 16 && IsDigitOf(h, m) && IsDigitOf(l, n)
    ensures Decode(['%' as int, h, l] + rest, form) == [16 * m + n] + Decode(rest, form)
  {
    hide HexToInt, IsHexDigit, IsDigitOf;
    DigitValue(h, m);
    DigitValue(l, n);
    assert (['%' as int, h, l] + rest)[3..] == rest;
  }

  predicate IsDigit(b: Byte) {
    b as char in LOWER_DIGITS || b as char in UPPER_DIGITS
  }

  lemma DigitsAreHex(b: Byte)
    ensures IsDigit(b) <==> IsHexDigit(b)
  {
  }

  /** Anything else stands for itself, but a plus sign in form data for a space. */
  lemma DecodedCharacter(b: Byte, rest: Octets, form: bool)
    requires b as char == '%' ==> |rest| < 2 || !IsDigit(rest[0]) || !IsDigit(rest[1])
    ensures Decode([b] + rest, form) == [if form && b as char == '+' then ' ' as int else b] + Decode(rest, form)
  {
    if |rest| >= 2 {
      DigitsAreHex(rest[0]);
      DigitsAreHex(rest[1]);
    }
    hide IsHexDigit, IsDigit;
    var s := [b] + rest;
    assert s[1..] == rest;
    assert |rest| >= 2 ==> s[1] == rest[0] && s[2] == rest[1];
  }

  // ----- the code

  lemma EncodeFirst(s: Octets)
    requires s != []
    ensures Encode(s) == EncodeByte(s[0]) + Encode(s[1..])
  {
  }

  lemma DecodeFirst(s: Octets, form: bool)
    requires s != []
    ensures var (b, n) := DecodeByte(s, form);
            0 < n <= |s| && Decode(s, form) == [b] + Decode(s[n..], form)
  {
  }

  lemma OfNothing(form: bool)
    ensures Encode([]) == [] && Decode([], form) == []
  {
  }

  /** Encodes a string into another buffer, if the buffer has room for the code and a null byte. */
  method UrlEncode(src: array<Byte>, ghost n: nat, dst: array<Byte>)
    requires EndsAt(src, n) && src != dst && dst.Length > 0
    modifies dst
    ensures var code := Encode(src[..n]);
            |code| < dst.Length ==> dst[..|code|] == code && dst[|code|] == 0
    ensures exists k :: 0 <= k < dst.Length && dst[k] == 0
  {
    hide Encode, EncodeByte;
    var i, at := 0, 0;
    ghost var s := src[..n];
    ghost var code, done := Encode(s), [];
    var end := dst.Length - 1;
    assert s[0..] == s && done + code == code;
    while src[i] != 0 && at < end
      invariant 0 <= i <= n && 0 <= at <= end
      invariant |code| <= end ==> dst[..at] == done && done + Encode(s[i..]) == code
      decreases end - at
    {
      var b := src[i];
      assert b == s[i];
      EncodeFirst(s[i..]);
      Regroup(done, EncodeByte(b), Encode(s[i + 1..]));
      assert s[i..][1..] == s[i + 1..];
      at := PutEncoded(b, dst, at, end);
      done := done + EncodeByte(b);
      i := i + 1;
    }
    OfNothing(false);
    assert s[n..] == [];
    FullWhenLeft(s, i);
    dst[at] := 0;
  }

  lemma FullWhenLeft(s: Octets, i: nat)
    requires i <= |s|
    ensures i < |s| ==> |Encode(s[i..])| > 0
  {
  }

  /** One byte of the string: the code of the byte, or a gap if there is no room for an escape. */
  method PutEncoded(b: Byte, dst: array<Byte>, at: nat, end: nat) returns (next: nat)
    requires at < end < dst.Length
    modifies dst
    ensures at < next <= end
    ensures at + |EncodeByte(b)| <= end
            ==> next == at + |EncodeByte(b)| && dst[..next] == old(dst[..at]) + EncodeByte(b)
  {
    next := at;
    if IsPlain(b) {
      dst[next] := b;
    } else if next + 2 < end {
      dst[next] := PERCENT;
      dst[next + 1] := HexDigit(b / 16);
      dst[next + 2] := HexDigit(b % 16);
      next := next + 2;
    }
    next := next + 1;
  }

  /** Decodes within one buffer or into another; the result is -1 if the output does not fit. */
  method UrlDecode(src: array<Byte>, srcLen: nat, dst: array<Byte>, dstLen: nat, form: bool) returns (r: int)
    requires srcLen <= src.Length && 0 < dstLen <= dst.Length
    modifies dst
    ensures var text := Decode(old(src[..srcLen]), form);
            var k := if |text| < dstLen then |text| else dstLen - 1;
            && dst[..] == text[..k] + [0] + old(dst[..])[k + 1..]
            && r == if |text| < dstLen then |text| else -1
  {
    hide Decode, DecodeByte, Decoding;
    ghost var was, before, done := src[..srcLen], dst[..], [];
    var i, j := 0, 0;
    DecodingStarts(was, form, before);
    while i < srcLen && j < dstLen - 1
      invariant 0 <= j <= i <= srcLen && j <= dstLen - 1 && |done| == j
      invariant Decoding(was, form, before, dst[..], done, i)
      invariant src != dst ==> src[..srcLen] == was
      decreases srcLen - i
    {
      StillThere(src[..], dst[..], src == dst, was, form, before, done, i);
      var b, n := DecodeAt(src, i, srcLen, form);
      DecodingGoesOn(was, form, before, dst[..], done, i);
      Put(dst, j, b);
      done := done + [b];
      i, j := i + n, j + 1;
    }
    DecodingEnds(was, form, before, dst[..], done, i, dstLen);
    Put(dst, j, 0);
    r := if i >= srcLen then j else -1;
  }

  method Put(a: array<Byte>, i: nat, b: Byte)
    requires i < a.Length
    modifies a
    ensures a[..] == old(a[..])[i := b]
  {
    a[i] := b;
  }

  /** The output so far and the rest of the input make up the text; behind the output the buffer is as it was. */
  ghost predicate Decoding(was: Octets, form: bool, before: Octets, now: Octets, done: Octets, i: nat) {
    && |done| <= i <= |was|
    && |done| <= |before|
    && done + Decode(was[i..], form) == Decode(was, form)
    && now == done + before[|done|..]
  }

  lemma DecodingStarts(was: Octets, form: bool, before: Octets)
    ensures Decoding(was, form, before, before, [], 0)
  {
    hide Decode;
    var none: Octets := [];
    assert was[0..] == was && none + Decode(was, form) == Decode(was, form) && none + before[0..] == before;
  }

  lemma DecodingGoesOn(was: Octets, form: bool, before: Octets, now: Octets, done: Octets, i: nat)
    requires i < |was| && |done| < |before| && Decoding(was, form, before, now, done, i)
    ensures var (b, n) := DecodeByte(was[i..], form);
            Decoding(was, form, before, now[|done| := b], done + [b], i + n)
  {
    hide Decode, DecodeByte;
    var (b, n) := DecodeByte(was[i..], form);
    DecodeFirst(was[i..], form);
    assert was[i..][n..] == was[i + n..];
    Regroup(done, [b], Decode(was[i + n..], form));
    OneWritten(done, b, before);
  }

  lemma DecodingEnds(was: Octets, form: bool, before: Octets, now: Octets, done: Octets, i: nat, dstLen: nat)
    requires |done| < dstLen <= |before| && Decoding(was, form, before, now, done, i)
    requires i == |was| || |done| == dstLen - 1
    ensures var text := Decode(was, form);
            && |done| == (if |text| < dstLen then |text| else dstLen - 1)
            && now[|done| := 0] == text[..|done|] + [0] + before[|done| + 1..]
            && (i == |was| <==> |text| < dstLen)
  {
    hide Decode;
    OfNothing(form);
    if i < |was| {
      DecodeFirst(was[i..], form);
    } else {
      assert was[i..] == [];
    }
    OneWritten(done, 0, before);
    assert done == Decode(was, form)[..|done|];
  }

  lemma OneWritten(done: Octets, b: Byte, before: Octets)
    requires |done| < |before|
    ensures (done + before[|done|..])[|done| := b] == done + [b] + before[|done| + 1..]
  {
  }

  /** What has not been read yet has not been written over, even within one buffer. */
  lemma StillThere(src: Octets, dst: Octets, same: bool, was: Octets, form: bool, before: Octets, done: Octets, i: nat)
    requires |was| <= |src| && Decoding(was, form, before, dst, done, i)
    requires same ==> |was| <= |before|
    requires if same then src == dst && was == before[..|was|] else src[..|was|] == was
    ensures src[i..|was|] == was[i..]
  {
    hide Decode;
  }

  /** The byte at `i`, and how much input it takes. */
  method DecodeAt(src: array<Byte>, i: nat, srcLen: nat, form: bool) returns (b: Byte, n: nat)
    requires i < srcLen <= src.Length
    ensures (b, n) == DecodeByte(src[i..srcLen], form) && i < i + n <= srcLen
  {
    ghost var rest := src[i..srcLen];
    if src[i] == PERCENT && i < srcLen - 2 && IsHexDigit(src[i + 1]) && IsHexDigit(src[i + 2]) {
      b, n := 16 * HexToInt(src[i + 1]) + HexToInt(src[i + 2]), 3;
    } else if form && src[i] == PLUS {
      b, n := SPACE, 1;
    } else {
      b, n := src[i], 1;
    }
  }
}
