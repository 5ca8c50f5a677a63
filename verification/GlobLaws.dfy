/** What each sign of a glob pattern means, as laws of the search alone. */
module GlobLaws {
  import opened Glob

  /** The longest run of at most `top` characters behind which the rest matches, if there is one. */
  ghost predicate IsLongest(r: int, rest: string, s: string, top: nat)
    requires top <= |s|
  {
    if r == -1 then forall k :: 0 <= k <= top ==> MatchOne(rest, s[k..]) == -1
    else exists k :: 0 <= k <= top && IsLast(k, r, rest, s, top)
  }

  ghost predicate IsLast(k: nat, r: int, rest: string, s: string, top: nat)
    requires k <= top <= |s|
  {
    && MatchOne(rest, s[k..]) != -1 && r == k + MatchOne(rest, s[k..])
    && forall j :: k < j <= top ==> MatchOne(rest, s[j..]) == -1
  }

  lemma {:induction false} LongestIsLongest(rest: string, s: string, top: nat)
    requires top <= |s|
    ensures IsLongest(Longest(rest, s, top), rest, s, top)
    decreases top
  {
    hide MatchOne;
    var r := Longest(rest, s, top);
    if MatchOne(rest, s[top..]) != -1 {
      assert IsLast(top, r, rest, s, top);
    } else if top > 0 {
      LongestIsLongest(rest, s, top - 1);
      if r != -1 {
        var k :| 0 <= k <= top - 1 && IsLast(k, r, rest, s, top - 1);
        assert IsLast(k, r, rest, s, top);
      }
    }
  }

  /** The rest of the pattern matches behind the first `k` characters. */
  ghost predicate Follows(rest: string, s: string, k: int) {
    0 <= k <= |s| && Match(rest, s[k..]) != -1
  }

  /** `r` is the end of such a match. */
  ghost predicate EndsAt(rest: string, s: string, k: int, r: int) {
    Follows(rest, s, k) && r == k + Match(rest, s[k..])
  }

  predicate NoSeparator(s: string, k: int) {
    0 <= k <= |s| && '/' !in s[..k]
  }

  /**
   * Two stars stand for any run of characters: the pattern matches if and only if the rest
   * matches behind some run, and then with the longest such run.
   */
  lemma DoubleStarIsAnyRun(rest: string, s: string)
    requires '|' !in rest
    ensures Match("**" + rest, s) != -1 <==> exists k :: Follows(rest, s, k)
    ensures forall k :: Follows(rest, s, k) ==> exists j :: k <= j && EndsAt(rest, s, j, Match("**" + rest, s))
  {
    DoubleStarIsLongest(rest, s);
    hide Match, MatchOne, Longest, IsLongest;
    LongestIsLongest(rest, s, |s|);
    LastFollows(rest, s, |s|);
  }

  lemma DoubleStarIsLongest(rest: string, s: string)
    requires '|' !in rest
    ensures Match("**" + rest, s) == Longest(rest, s, |s|)
  {
    var p := "**" + rest;
    assert p[2..] == rest && '|' !in p;
    hide Longest;
  }

  /** One star stands for any run without a separator. */
  lemma StarIsRunWithinSegment(rest: string, s: string)
    requires '|' !in rest && (rest == "" || rest[0] != '*')
    ensures Match("*" + rest, s) != -1 <==> exists k :: NoSeparator(s, k) && Follows(rest, s, k)
    ensures forall k :: NoSeparator(s, k) && Follows(rest, s, k) ==>
              exists j :: k <= j && NoSeparator(s, j) && EndsAt(rest, s, j, Match("*" + rest, s))
  {
    StarIsLongest(rest, s);
    hide Match, MatchOne, Longest, IsLongest, Segment, Follows, EndsAt, NoSeparator;
    LongestIsLongest(rest, s, Segment(s));
    LastFollows(rest, s, Segment(s));
    WithinSegment(s);
  }

  lemma StarIsLongest(rest: string, s: string)
    requires '|' !in rest && (rest == "" || rest[0] != '*')
    ensures Match("*" + rest, s) == Longest(rest, s, Segment(s))
  {
    var p := "*" + rest;
    assert p[1..] == rest && '|' !in p;
    hide Longest, Segment;
  }

  lemma LastFollows(rest: string, s: string, top: nat)
    requires '|' !in rest && top <= |s| && IsLongest(Longest(rest, s, top), rest, s, top)
    ensures Longest(rest, s, top) != -1 <==> exists k :: k <= top && Follows(rest, s, k)
    ensures forall k :: k <= top && Follows(rest, s, k) ==>
              exists j :: k <= j <= top && EndsAt(rest, s, j, Longest(rest, s, top))
  {
    hide MatchOne, Longest;
    var r := Longest(rest, s, top);
    forall k | 0 <= k <= |s|
      ensures Match(rest, s[k..]) == MatchOne(rest, s[k..])
    {
    }
    if r != -1 {
      var j :| 0 <= j <= top && IsLast(j, r, rest, s, top);
      assert EndsAt(rest, s, j, r);
    }
  }

  lemma WithinSegment(s: string)
    ensures forall k :: NoSeparator(s, k) <==> 0 <= k <= Segment(s)
  {
    var n := Segment(s);
    forall k
      ensures NoSeparator(s, k) <==> 0 <= k <= n
    {
      if n < k <= |s| {
        assert s[..k][n] == '/';
      }
    }
  }

  predicate IsLetter(c: char) {
    'a' <= c <= 'z' || 'A' <= c <= 'Z'
  }

  /** The same character, or the same letter in the other case. */
  predicate SameLetter(c: char, d: char) {
    c == d || (IsLetter(c) && IsLetter(d) && (c as int - d as int == 32 || d as int - c as int == 32))
  }

  /** A question mark takes any one character, any other sign but `*` and `$` the same one in either case. */
  lemma SignTakesOne(c: char, rest: string, s: string)
    requires '|' !in rest && c != '|' && c != '*' && c != '$'
    ensures Match([c] + rest, s)
         == if s != "" && (c == '?' || SameLetter(c, s[0])) && Match(rest, s[1..]) != -1
            then 1 + Match(rest, s[1..]) else -1
  {
    var p := [c] + rest;
    assert p[1..] == rest;
    assert s != "" ==> (Lower(c) == Lower(s[0]) <==> SameLetter(c, s[0]));
    hide Lower, SameLetter;
  }

  /** A dollar sign asks for the end of the string; an empty pattern asks for nothing. */
  lemma DollarIsEnd(rest: string, s: string)
    requires '|' !in rest
    ensures Match("$" + rest, s) == if s == "" then 0 else -1
    ensures Match("", s) == 0
  {
  }

  /** Of two alternatives the first counts if it matches something, and otherwise the second. */
  lemma BarIsChoice(left: string, right: string, s: string)
    requires '|' !in left
    ensures Match(left + "|" + right, s) == if Match(left, s) > 0 then Match(left, s) else Match(right, s)
  {
    var p, n := left + "|" + right, |left|;
    assert p[n] == '|';
    var b := Bar(p);
    assert p[..n] == left;
    assert b == n && p[n + 1..] == right;
    hide MatchOne;
  }
}
