/**
 * HTTP responses as the BOSH connection reads them: searching text for a header field and
 * for the blank line, reading the length, and cutting one response off the front of what
 * has arrived.
 */
module Http {
  import opened Basics
  import opened Splitter

  const CRLF := "\r\n"
  const BLANK_LINE := "\r\n\r\n"

  // ----- searching text

  function Upper(c: char): char {
    if 'a' <= c <= 'z' then c - ' ' else c
  }

  /** `fold` asks for a comparison that does not tell upper from lower case. */
  predicate Same(c: char, d: char, fold: bool) {
    if fold then Upper(c) == Upper(d) else c == d
  }

  predicate Alike(a: string, b: string, fold: bool) {
    |a| == |b| && forall i :: 0 <= i < |a| ==> Same(a[i], b[i], fold)
  }

  predicate StartsAt(text: string, pattern: string, at: nat, fold: bool) {
    at + |pattern| <= |text| && Alike(text[at..at + |pattern|], pattern, fold)
  }

  /** The first place from `from` on where the pattern stands. */
  function Find(text: string, pattern: string, from: nat, fold: bool): Option<nat>
    decreases |text| - from
  {
    if from + |pattern| > |text| then None
    else if StartsAt(text, pattern, from, fold) then Some(from)
    else Find(text, pattern, from + 1, fold)
  }

  lemma {:induction false} FindIsFirst(text: string, pattern: string, from: nat, fold: bool)
    ensures match Find(text, pattern, from, fold)
            case None => forall q :: from <= q ==> !StartsAt(text, pattern, q, fold)
            case Some(p) =>
              && from <= p
              && StartsAt(text, pattern, p, fold)
              && (forall q :: from <= q < p ==> !StartsAt(text, pattern, q, fold))
    decreases |text| - from
  {
    hide Alike;
    if from + |pattern| <= |text| && !StartsAt(text, pattern, from, fold) {
      FindIsFirst(text, pattern, from + 1, fold);
    }
  }

  lemma {:induction false} FindFits(text: string, pattern: string, from: nat, fold: bool)
    ensures match Find(text, pattern, from, fold)
            case None => true
            case Some(p) => from <= p && p + |pattern| <= |text|
    decreases |text| - from
  {
    hide Alike;
    if from + |pattern| <= |text| && !StartsAt(text, pattern, from, fold) {
      FindFits(text, pattern, from + 1, fold);
    }
  }

  /** What `Find` returns is decided by where the pattern first stands. */
  lemma FindThere(text: string, pattern: string, from: nat, fold: bool, p: nat)
    requires from <= p && StartsAt(text, pattern, p, fold)
    requires forall q :: from <= q < p ==> !StartsAt(text, pattern, q, fold)
    ensures Find(text, pattern, from, fold) == Some(p)
  {
    hide StartsAt;
    FindIsFirst(text, pattern, from, fold);
  }

  lemma StartsShift(before: string, text: string, pattern: string, at: nat, fold: bool)
    ensures StartsAt(before + text, pattern, |before| + at, fold) == StartsAt(text, pattern, at, fold)
  {
    hide Alike;
    if at + |pattern| <= |text| {
      var from := |before| + at;
      assert (before + text)[from..from + |pattern|] == text[at..at + |pattern|];
    }
  }

  /** Text in front moves every find by its length. */
  lemma {:induction false} FindShift(before: string, text: string, pattern: string, from: nat, fold: bool)
    ensures Find(before + text, pattern, |before| + from, fold)
         == match Find(text, pattern, from, fold) case None => None case Some(p) => Some(|before| + p)
    decreases |text| - from
  {
    hide StartsAt;
    StartsShift(before, text, pattern, from, fold);
    if from + |pattern| <= |text| && !StartsAt(text, pattern, from, fold) {
      FindShift(before, text, pattern, from + 1, fold);
    }
  }

  /** What has been found is found again however the text goes on. */
  lemma FindStays(text: string, more: string, pattern: string, fold: bool)
    requires Find(text, pattern, 0, fold).Some?
    ensures Find(text + more, pattern, 0, fold) == Find(text, pattern, 0, fold)
  {
    FindIsFirst(text, pattern, 0, fold);
    var p := Find(text, pattern, 0, fold).value;
    forall q | 0 <= q <= p
      ensures StartsAt(text + more, pattern, q, fold) == StartsAt(text, pattern, q, fold)
    {
      assert (text + more)[q..q + |pattern|] == text[q..q + |pattern|];
    }
    FindThere(text + more, pattern, 0, fold, p);
  }

  // ----- lines and fields

  /** Each line with its line end. */
  function Text(lines: seq<string>): string {
    if lines == [] then "" else lines[0] + CRLF + Text(lines[1..])
  }

  predicate AreLines(lines: seq<string>) {
    forall i :: 0 <= i < |lines| ==> lines[i] != "" && '\r' !in lines[i]
  }

  /** A pattern that begins with a line end is found at the end of the first line or beyond it. */
  lemma FindPastLine(line: string, rest: string, q: string, fold: bool)
    requires '\r' !in line
    ensures Find(line + CRLF + rest, CRLF + q, 0, fold)
         == if StartsAt(rest, q, 0, fold) then Some(|line|)
            else match Find(rest, CRLF + q, 0, fold) case None => None case Some(p) => Some(|line| + 2 + p)
  {
    hide StartsAt, Find;
    var text, pattern := line + CRLF + rest, CRLF + q;
    StartsAfterLine(line, rest, q, fold);
    forall k: nat | k < |line|
      ensures !StartsAt(text, pattern, k, fold)
    {
      NotWithinLine(line, rest, q, fold, k);
    }
    FindSkips(text, pattern, 0, |line|, fold);
    if StartsAt(rest, q, 0, fold) {
      FindThere(text, pattern, |line|, fold, |line|);
    } else {
      NotWithinLine(line, rest, q, fold, |line| + 1);
      FindSkips(text, pattern, |line|, 1, fold);
      FindSkips(text, pattern, |line| + 1, 1, fold);
      FindShift(line + CRLF, rest, pattern, 0, fold);
    }
  }

  lemma {:induction false} FindSkips(text: string, pattern: string, from: nat, n: nat, fold: bool)
    requires forall k: nat :: from <= k < from + n ==> !StartsAt(text, pattern, k, fold)
    ensures Find(text, pattern, from, fold) == Find(text, pattern, from + n, fold)
    decreases n
  {
    hide StartsAt;
    if n > 0 {
      FindSkips(text, pattern, from + 1, n - 1, fold);
      assert !StartsAt(text, pattern, from, fold);
    }
  }

  lemma NotWithinLine(line: string, rest: string, q: string, fold: bool, k: nat)
    requires '\r' !in line && (k < |line| || k == |line| + 1)
    ensures !StartsAt(line + CRLF + rest, CRLF + q, k, fold)
  {
    var text, pattern := line + CRLF + rest, CRLF + q;
    if k + |pattern| <= |text| {
      assert pattern[0] == '\r';
      assert text[k] != '\r' by {
        if k < |line| { assert text[k] == line[k]; }
      }
      var part := text[k..k + |pattern|];
      assert part[0] == text[k];
      assert !Same(part[0], pattern[0], fold);
    }
  }

  lemma StartsAfterLine(line: string, rest: string, q: string, fold: bool)
    ensures StartsAt(line + CRLF + rest, CRLF + q, |line|, fold) == StartsAt(rest, q, 0, fold)
  {
    assert line + CRLF + rest == line + (CRLF + rest);
    StartsShift(line, CRLF + rest, CRLF + q, 0, fold);
    if |q| <= |rest| {
      var a, b := (CRLF + rest)[0..2 + |q|], CRLF + q;
      assert a == CRLF + rest[0..|q|];
      assert Alike(a, b, fold) == Alike(rest[0..|q|], q, fold) by {
        if Alike(a, b, fold) {
          forall i | 0 <= i < |q|
            ensures Same(rest[0..|q|][i], q[i], fold)
          {
            assert Same(a[i + 2], b[i + 2], fold);
          }
        }
      }
    }
  }

  /** A pattern without a line end starts the text if and only if it starts the first line. */
  lemma StartsFirstLine(line: string, rest: string, q: string, fold: bool)
    requires '\r' !in q
    ensures StartsAt(line + CRLF + rest, q, 0, fold) == StartsAt(line, q, 0, fold)
  {
    var text := line + CRLF + rest;
    if |q| <= |line| {
      assert text[0..|q|] == line[0..|q|];
    } else if |q| <= |text| {
      assert text[0..|q|][|line|] == '\r';
      assert q[|line|] != '\r';
    }
  }

  /** The value of a header field: what follows its name, up to the end of the line. */
  function GetField(header: string, field: string): string {
    match Find(header, CRLF + field + ": ", 0, true)
    case None => ""
    case Some(p) =>
      var from := p + |field| + 4;
      match Find(header, CRLF, from, false)
      case None => ""
      case Some(to) => FindFits(header, CRLF, from, false); header[from..to]
  }

  /** The field as a reader of lines sees it: in the first line after the status line that has its name. */
  function FieldIn(lines: seq<string>, field: string): string {
    if |lines| < 2 then ""
    else if StartsAt(lines[1], field + ": ", 0, true) then lines[1][|field| + 2..]
    else FieldIn(lines[1..], field)
  }

  lemma {:induction false} FieldOfLines(lines: seq<string>, field: string)
    requires AreLines(lines) && '\r' !in field
    ensures GetField(Text(lines), field) == FieldIn(lines, field)
  {
    hide Find, GetField, StartsAt;
    var q := field + ": ";
    assert CRLF + field + ": " == CRLF + q;
    if lines == [] {
      FieldOfNothing(field);
    } else {
      var line, rest := lines[0], Text(lines[1..]);
      FindPastLine(line, rest, q, true);
      if |lines| == 1 {
        StartsInNothing(q);
        FieldBeyond(line, rest, field);
        FieldOfNothing(field);
      } else {
        assert lines[1..][1..] == lines[2..];
        StartsFirstLine(lines[1], Text(lines[2..]), q, true);
        if StartsAt(lines[1], q, 0, true) {
          StartsWithin(lines[1], q);
          FieldHere(line, lines[1], Text(lines[2..]), field);
        } else {
          FieldBeyond(line, rest, field);
          FieldOfLines(lines[1..], field);
        }
      }
    }
  }

  lemma FieldOfNothing(field: string)
    ensures GetField("", field) == ""
  {
  }

  lemma StartsInNothing(q: string)
    requires q != ""
    ensures !StartsAt("", q, 0, true)
  {
  }

  lemma StartsWithin(line: string, q: string)
    requires StartsAt(line, q, 0, true)
    ensures |q| <= |line|
  {
  }

  lemma FieldHere(status: string, line: string, rest: string, field: string)
    requires '\r' !in line && |field| + 2 <= |line|
    requires Find(status + CRLF + (line + CRLF + rest), CRLF + field + ": ", 0, true) == Some(|status|)
    ensures GetField(status + CRLF + (line + CRLF + rest), field) == line[|field| + 2..]
  {
    hide Find;
    var header, n := status + CRLF + (line + CRLF + rest), |field| + 2;
    var before, value := status + CRLF + line[..n], line[n..];
    assert header == before + (value + CRLF + rest);
    FindShift(before, value + CRLF + rest, CRLF, 0, false);
    LineEnds(value, rest);
    assert header[|before|..|before| + |value|] == value;
  }

  lemma LineEnds(line: string, rest: string)
    requires '\r' !in line
    ensures Find(line + CRLF + rest, CRLF, 0, false) == Some(|line|)
  {
    hide Find;
    assert CRLF + "" == CRLF;
    FindPastLine(line, rest, "", false);
  }

  lemma FieldBeyond(line: string, rest: string, field: string)
    requires Find(line + CRLF + rest, CRLF + field + ": ", 0, true)
          == match Find(rest, CRLF + field + ": ", 0, true) case None => None case Some(p) => Some(|line| + 2 + p)
    ensures GetField(line + CRLF + rest, field) == GetField(rest, field)
  {
    hide Find;
    var header, k := line + CRLF + rest, |line| + 2;
    match Find(rest, CRLF + field + ": ", 0, true)
    case None =>
    case Some(p) =>
      var from := p + |field| + 4;
      FindShift(line + CRLF, rest, CRLF, from, false);
      match Find(rest, CRLF, from, false)
      case None =>
      case Some(to) =>
        FindFits(rest, CRLF, from, false);
        assert header[k + from..k + to] == rest[from..to];
  }

  /** The blank line that ends a header is the first one in the text, whatever the body holds. */
  lemma {:induction false} HeaderEnds(lines: seq<string>, body: string)
    requires lines != [] && AreLines(lines)
    ensures |Text(lines)| >= 2
    ensures Find(Text(lines) + CRLF + body, BLANK_LINE, 0, false) == Some(|Text(lines)| - 2)
  {
    var line := lines[0];
    var rest := Text(lines[1..]) + CRLF + body;
    assert Text(lines) + CRLF + body == line + CRLF + rest;
    assert BLANK_LINE == CRLF + CRLF;
    FindPastLine(line, rest, CRLF, false);
    if |lines| == 1 {
      assert rest[0..2] == CRLF;
    } else {
      HeaderEnds(lines[1..], body);
      assert rest[0] == lines[1][0] != '\r';
      assert rest[0..2][0] != CRLF[0];
    }
  }

  // ----- numbers

  predicate IsSpace(c: char) {
    c == ' ' || '\t' <= c <= '\r'
  }

  predicate IsDigit(c: char) {
    '0' <= c <= '9'
  }

  function SkipSpaces(s: string): string {
    if s != "" && IsSpace(s[0]) then SkipSpaces(s[1..]) else s
  }

  function Digits(s: string, value: int): int {
    if s == "" || !IsDigit(s[0]) then value
    else Digits(s[1..], 10 * value + (s[0] - '0') as int)
  }

  /** `atol`, on unbounded numbers. */
  function ToNumber(s: string): int {
    var t := SkipSpaces(s);
    if t != "" && t[0] == '-' then -Digits(t[1..], 0)
    else if t != "" && t[0] == '+' then Digits(t[1..], 0)
    else Digits(t, 0)
  }

  function Digit(n: int): char
    requires 0 <= n < 10
  {
    '0' + n as char
  }

  function Decimal(n: nat): (s: string)
    ensures s != "" && forall i :: 0 <= i < |s| ==> IsDigit(s[i])
  {
    if n < 10 then [Digit(n)] else Decimal(n / 10) + [Digit(n % 10)]
  }

  lemma {:induction false} DigitsAppend(a: string, b: string, value: int)
    requires forall i :: 0 <= i < |a| ==> IsDigit(a[i])
    ensures Digits(a + b, value) == Digits(b, Digits(a, value))
  {
    if a == "" {
      assert a + b == b;
    } else {
      assert (a + b)[1..] == a[1..] + b;
      DigitsAppend(a[1..], b, 10 * value + (a[0] - '0') as int);
    }
  }

  lemma {:induction false} DigitsOfDecimal(n: nat)
    ensures Digits(Decimal(n), 0) == n
  {
    if n >= 10 {
      DigitsOfDecimal(n / 10);
      DigitsAppend(Decimal(n / 10), [Digit(n % 10)], 0);
      assert [Digit(n % 10)][1..] == "";
    } else {
      assert [Digit(n)][1..] == "";
    }
  }

  lemma NumberOfDecimal(n: nat)
    ensures ToNumber(Decimal(n)) == n
  {
    DigitsOfDecimal(n);
  }

  // ----- responses

  /** `s.substr(from, n)` for a `from` within `s`. */
  function Part(s: string, from: nat, n: nat): string
    requires from <= |s|
  {
    if from + n <= |s| then s[from..from + n] else s[from..]
  }

  function Length(header: string): int {
    ToNumber(GetField(header, "Content-Length"))
  }

  function Status(header: string): string
    requires |header| >= 9
  {
    Part(header, 9, 3)
  }

  predicate Closing(header: string) {
    GetField(header, "Connection") == "close" || Part(header, 0, 8) == "HTTP/1.0"
  }

  datatype Response = Response(status: string, closing: bool, body: string)

  /** What a complete header says, and where the body begins; none if it is shorter than a status line. */
  datatype Head = Head(begin: nat, length: int, status: string, closing: bool)

  function ReadHead(b: string): (r: Option<Head>)
    ensures r.Some? ==> 0 < r.value.begin <= |b|
  {
    match Find(b, BLANK_LINE, 0, false)
    case None => None
    case Some(h) =>
      if h + 2 < 9 then None
      else
        FindFits(b, BLANK_LINE, 0, false);
        var header := b[..h + 2];
        Some(Head(h + 4, Length(header), Status(header), Closing(header)))
  }

  /** The first response in the buffer, once its header and as much body as the header announces are there. */
  function ParseResponse(b: string): Option<(Response, nat)> {
    match ReadHead(b)
    case None => None
    case Some(head) =>
      var end := head.begin + head.length;
      if head.length <= 0 || |b| < end then None
      else Some((Response(head.status, head.closing, b[head.begin..end]), end))
  }

  /** Once a header is complete it stays the header. */
  lemma HeadStays(b: string, more: string)
    requires ReadHead(b).Some?
    ensures ReadHead(b + more) == ReadHead(b)
  {
    hide Find, Length, Closing, Status;
    var h := Find(b, BLANK_LINE, 0, false).value;
    FindFits(b, BLANK_LINE, 0, false);
    FindStays(b, more, BLANK_LINE, false);
    assert (b + more)[..h + 2] == b[..h + 2];
  }

  lemma ResponseStays(b: string, more: string)
    requires ParseResponse(b).Some?
    ensures 0 < ParseResponse(b).value.1 <= |b|
    ensures ParseResponse(b + more) == ParseResponse(b)
  {
    hide ReadHead;
    HeadStays(b, more);
    var head := ReadHead(b).value;
    var end := head.begin + head.length;
    assert (b + more)[head.begin..end] == b[head.begin..end];
  }

  lemma ResponsesStream()
    ensures Streaming(ParseResponse)
  {
    hide ParseResponse;
    forall b: string, more: string | ParseResponse(b).Some?
      ensures 0 < ParseResponse(b).value.1 <= |b| && ParseResponse(b + more) == ParseResponse(b)
    {
      ResponseStays(b, more);
    }
    forall b: string | ParseResponse(b).Some?
      ensures 0 < ParseResponse(b).value.1 <= |b|
    {
      ResponseStays(b, "");
    }
  }

  /** Header lines and a body; the first length field among the lines gives the body's length. */
  predicate IsMessage(lines: seq<string>, body: string) {
    && lines != []
    && AreLines(lines)
    && |lines[0]| >= 9
    && body != ""
    && ToNumber(FieldIn(lines, "Content-Length")) == |body|
  }

  function MessageText(lines: seq<string>, body: string): string {
    Text(lines) + CRLF + body
  }

  function MessageResponse(lines: seq<string>, body: string): Response
    requires lines != [] && |lines[0]| >= 9
  {
    Response(
      Part(Text(lines), 9, 3),
      FieldIn(lines, "Connection") == "close" || Part(Text(lines), 0, 8) == "HTTP/1.0",
      body)
  }

  lemma MessageFields(lines: seq<string>, body: string)
    requires IsMessage(lines, body)
    ensures |Text(lines)| >= 9 && Length(Text(lines)) == |body|
    ensures MessageResponse(lines, body) == Response(Status(Text(lines)), Closing(Text(lines)), body)
  {
    FieldOfLines(lines, "Content-Length");
    FieldOfLines(lines, "Connection");
    HeaderIsLong(lines);
    hide GetField, FieldIn, ToNumber, AreLines, Text, Part;
  }

  /** What is read off a complete header. */
  lemma HeadRead(b: string, header: string)
    requires |header| >= 9 && |header| <= |b| && b[..|header|] == header
    requires Find(b, BLANK_LINE, 0, false) == Some(|header| - 2)
    ensures ReadHead(b) == Some(Head(|header| + 2, Length(header), Status(header), Closing(header)))
  {
    hide Find, Length, Closing, Status;
    FindFits(b, BLANK_LINE, 0, false);
  }

  lemma MessageLines(lines: seq<string>, body: string)
    requires IsMessage(lines, body)
    ensures lines != [] && AreLines(lines)
  {
  }

  lemma FrontText(a: string, b: string, c: string)
    ensures (a + b + c)[..|a|] == a
  {
  }

  /** The header of a message is read as soon as it is complete. */
  lemma MessageHead(lines: seq<string>, body: string, more: string)
    requires IsMessage(lines, body)
    ensures var response := MessageResponse(lines, body);
            ReadHead(Text(lines) + CRLF + more)
              == Some(Head(|Text(lines)| + 2, |body|, response.status, response.closing))
  {
    hide Find, Length, Closing, Status, Text, MessageResponse, IsMessage, ReadHead, AreLines;
    var header := Text(lines);
    MessageFields(lines, body);
    MessageLines(lines, body);
    HeaderEnds(lines, more);
    FrontText(header, CRLF, more);
    HeadRead(header + CRLF + more, header);
  }

  lemma CutText(a: string, b: string, c: string, d: string)
    ensures var text := a + b + c + d;
            && text == a + b + (c + d)
            && text[|a| + |b|..|a| + |b| + |c|] == c
  {
  }

  lemma MessageFound(lines: seq<string>, body: string, more: string)
    requires IsMessage(lines, body)
    ensures ParseResponse(MessageText(lines, body) + more)
         == Some((MessageResponse(lines, body), |MessageText(lines, body)|))
  {
    assert body != "";
    MessageHead(lines, body, body + more);
    hide ReadHead, Text, IsMessage, MessageResponse, ParseResponse;
    CutText(Text(lines), CRLF, body, more);
    ParseWith(Text(lines) + CRLF, body, more, MessageResponse(lines, body));
  }

  lemma ParseWith(before: string, body: string, more: string, response: Response)
    requires response.body == body != ""
    requires ReadHead(before + (body + more)) == Some(Head(|before|, |body|, response.status, response.closing))
    ensures ParseResponse(before + body + more) == Some((response, |before + body|))
  {
    hide ReadHead;
    assert before + body + more == before + (body + more);
    assert (before + body + more)[|before|..|before| + |body|] == body;
  }

  lemma MessageNotFoundEarly(lines: seq<string>, body: string, n: nat)
    requires IsMessage(lines, body) && n < |MessageText(lines, body)|
    ensures ParseResponse(MessageText(lines, body)[..n]) == None
  {
    MessageHead(lines, body, body);
    hide ReadHead, Text, IsMessage, MessageResponse;
    var code := MessageText(lines, body);
    if ReadHead(code[..n]).Some? {
      HeadStays(code[..n], code[n..]);
      assert code[..n] + code[n..] == code;
    }
  }

  /** Any such message is read as itself, in front of anything and not before it is complete. */
  lemma MessageIsWireForm(lines: seq<string>, body: string)
    requires IsMessage(lines, body)
    ensures IsWireForm(ParseResponse, MessageResponse(lines, body), MessageText(lines, body))
  {
    var code := MessageText(lines, body);
    assert code != [];
    hide ParseResponse, IsMessage, MessageText;
    forall more: string
      ensures ParseResponse(code + more) == Some((MessageResponse(lines, body), |code|))
    {
      MessageFound(lines, body, more);
    }
    forall n | 0 <= n < |code|
      ensures ParseResponse(code[..n]) == None
    {
      MessageNotFoundEarly(lines, body, n);
    }
  }

  lemma HeaderIsLong(lines: seq<string>)
    requires lines != []
    ensures |Text(lines)| >= |lines[0]|
  {
  }

  function PlainLines(length: nat): seq<string> {
    ["HTTP/1.1 200 OK", "Content-Length: " + Decimal(length)]
  }

  lemma PlainFields(length: nat)
    ensures FieldIn(PlainLines(length), "Content-Length") == Decimal(length)
    ensures FieldIn(PlainLines(length), "Connection") == ""
  {
    hide Decimal;
    var lines, field := PlainLines(length), "Content-Length: " + Decimal(length);
    assert lines[1] == field && |lines[1..]| == 1;
    assert field[0..16] == "Content-Length" + ": ";
    assert field[16..] == Decimal(length);
    var name := "Connection" + ": ";
    assert field[0..12][3] == 't' && name[3] == 'n';
    assert !Same(field[0..12][3], name[3], true);
    assert !Alike(field[0..12], name, true);
  }

  lemma StatusOfPlain(rest: string)
    ensures Part("HTTP/1.1 200 OK" + CRLF + rest, 9, 3) == "200"
    ensures Part("HTTP/1.1 200 OK" + CRLF + rest, 0, 8) == "HTTP/1.1"
  {
    var text := "HTTP/1.1 200 OK" + CRLF + rest;
    assert text[9..12] == "200" && text[0..8] == "HTTP/1.1";
  }

  lemma PlainLinesAreLines(length: nat)
    ensures AreLines(PlainLines(length))
  {
    hide Decimal;
    var digits := Decimal(length);
    assert forall i :: 0 <= i < |digits| ==> digits[i] != '\r';
  }

  lemma PlainText(length: nat)
    ensures Text(PlainLines(length)) == "HTTP/1.1 200 OK" + CRLF + Text(PlainLines(length)[1..])
  {
    hide Decimal;
  }

  /** A plain answer of a connection manager: its length stands in the second line. */
  lemma PlainMessage(body: string)
    requires body != ""
    ensures IsMessage(PlainLines(|body|), body)
    ensures MessageResponse(PlainLines(|body|), body) == Response("200", false, body)
  {
    PlainFields(|body|);
    NumberOfDecimal(|body|);
    PlainLinesAreLines(|body|);
    PlainText(|body|);
    hide FieldIn, ToNumber, Decimal, AreLines, Text;
    StatusOfPlain(Text(PlainLines(|body|)[1..]));
  }
}
