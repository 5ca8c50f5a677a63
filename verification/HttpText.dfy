/**
 * The text of HTTP answers, character by character: names in either case, line ends, numbers,
 * the status line.
 */
module HttpText {
  import opened Basics
  import opened Http

  predicate IsLetter(c: char) {
    'a' <= c <= 'z' || 'A' <= c <= 'Z'
  }

  /** The same character, or the same letter in the other case. */
  predicate SameName(a: string, b: string) {
    |a| == |b| && forall i :: 0 <= i < |a| ==> SameLetter(a[i], b[i])
  }

  predicate SameLetter(c: char, d: char) {
    c == d || (IsLetter(c) && IsLetter(d) && (c as int - d as int == 32 || d as int - c as int == 32))
  }

  lemma FoldingIsSameLetter(c: char, d: char)
    ensures Same(c, d, true) <==> SameLetter(c, d)
    ensures Same(c, d, false) <==> c == d
  {
  }

  lemma AlikeIsSameName(a: string, b: string)
    ensures Alike(a, b, true) <==> SameName(a, b)
  {
    hide Same, SameLetter;
    forall c: char, d: char
      ensures Same(c, d, true) <==> SameLetter(c, d)
    {
      FoldingIsSameLetter(c, d);
    }
  }

  /** A field in the line behind the status line is found under its name in any case, up to the end of that line. */
  lemma FieldInAnyCase(status: string, name: string, value: string, rest: string, field: string)
    requires SameName(name, field) && '\r' !in status && '\r' !in name && '\r' !in value
    ensures GetField(status + "\r\n" + name + ": " + value + "\r\n" + rest, field) == value
  {
    hide Find, GetField, StartsAt, SameName, Alike;
    var line := name + ": " + value;
    var behind := line + CRLF + rest;
    NameStarts(name, value, rest, field);
    FindPastLine(status, behind, field + ": ", true);
    assert CRLF + field + ": " == CRLF + (field + ": ");
    NameLength(name, field);
    assert line[|field| + 2..] == value;
    FieldHere(status, line, rest, field);
    assert status + "\r\n" + name + ": " + value + "\r\n" + rest == status + CRLF + behind;
  }

  lemma NameLength(name: string, field: string)
    requires SameName(name, field)
    ensures |name| == |field|
  {
  }

  lemma NameStarts(name: string, value: string, rest: string, field: string)
    requires SameName(name, field)
    ensures StartsAt(name + ": " + value + CRLF + rest, field + ": ", 0, true)
  {
    var text, q := name + ": " + value + CRLF + rest, field + ": ";
    assert text[0..0 + |q|] == name + ": ";
    assert SameName(name + ": ", q);
    AlikeIsSameName(name + ": ", q);
    hide Alike, SameName;
  }

  // ----- numbers

  /** The value of a decimal digit. */
  function DigitValue(c: char): int {
    c as int - '0' as int
  }

  predicate AllDigits(s: string) {
    forall i :: 0 <= i < |s| ==> '0' <= s[i] <= '9'
  }

  /** One more digit makes ten times the number and the digit. */
  lemma NumberGrows(s: string, d: char)
    requires AllDigits(s) && '0' <= d <= '9'
    ensures ToNumber(s + [d]) == 10 * ToNumber(s) + DigitValue(d)
  {
    PlainNumber(s);
    PlainNumber(s + [d]);
    DigitsAppend(s, [d], 0);
    assert [d][1..] == "";
  }

  lemma PlainNumber(s: string)
    requires AllDigits(s)
    ensures ToNumber(s) == Digits(s, 0) && ToNumber("") == 0
  {
  }

  /** Space in front does not count, a sign does, and the number ends with its last digit. */
  lemma NumberIsRead(space: string, s: string, more: string)
    requires AllDigits(s) && s != "" && (more == "" || !('0' <= more[0] <= '9'))
    requires forall i :: 0 <= i < |space| ==> space[i] in " \t\n\r" || space[i] as int in {11, 12}
    ensures ToNumber(space + s + more) == ToNumber(s)
    ensures ToNumber(space + "+" + s + more) == ToNumber(s)
    ensures ToNumber(space + "-" + s + more) == -ToNumber(s)
  {
    hide ToNumber;
    PlainNumber(s);
    DigitsAppend(s, more, 0);
    BehindSpace(space, s + more);
    BehindSpace(space, "+" + (s + more));
    BehindSpace(space, "-" + (s + more));
    assert space + s + more == space + (s + more);
    assert space + "+" + s + more == space + ("+" + (s + more));
    assert space + "-" + s + more == space + ("-" + (s + more));
    Signed(s + more);
    UnsignedNumber(s + more);
  }

  lemma Signed(t: string)
    ensures ToNumber("+" + t) == Digits(t, 0) && ToNumber("-" + t) == -Digits(t, 0)
  {
    assert ("+" + t)[1..] == t && ("-" + t)[1..] == t;
    assert ("+" + t)[0] == '+' && ("-" + t)[0] == '-';
  }

  lemma UnsignedNumber(t: string)
    requires t != "" && '0' <= t[0] <= '9'
    ensures ToNumber(t) == Digits(t, 0)
  {
  }

  lemma {:induction false} BehindSpace(space: string, t: string)
    requires forall i :: 0 <= i < |space| ==> space[i] in " \t\n\r" || space[i] as int in {11, 12}
    ensures ToNumber(space + t) == ToNumber(t)
    decreases |space|
  {
    if space == "" {
      assert space + t == t;
    } else {
      BehindSpace(space[1..], t);
      assert (space + t)[1..] == space[1..] + t && IsSpace(space[0]);
    }
  }

  // ----- the status line

  /** The status is the second word of an HTTP/1 status line, and HTTP/1.0 closes as the field does. */
  lemma StatusLine(lines: seq<string>, body: string)
    requires lines != [] && |lines[0]| >= 12
    ensures var r := MessageResponse(lines, body);
            && r.status == lines[0][9..12] && r.body == body
            && (r.closing <==> FieldIn(lines, "Connection") == "close" || lines[0][..8] == "HTTP/1.0")
  {
    hide FieldIn;
    var text := Text(lines);
    assert text[9..12] == lines[0][9..12] && text[0..8] == lines[0][..8];
  }

  lemma TwoLines(a: string, b: string, body: string)
    ensures MessageText([a, b], body) == a + "\r\n" + b + "\r\n\r\n" + body
  {
    assert [a, b][1..] == [b] && [b][1..] == [];
    assert Text([b]) == b + CRLF + "";
    assert Text([a, b]) == a + CRLF + Text([b]);
  }

  /** The plain answer of a connection manager, written out. */
  lemma PlainText(body: string)
    ensures MessageText(PlainLines(|body|), body)
         == "HTTP/1.1 200 OK" + "\r\n" + ("Content-Length: " + Decimal(|body|)) + "\r\n\r\n" + body
  {
    hide Decimal, MessageText;
    TwoLines("HTTP/1.1 200 OK", "Content-Length: " + Decimal(|body|), body);
  }
}
