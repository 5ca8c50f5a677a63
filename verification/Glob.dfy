/**
 * mongoose's glob patterns: `?` one character, `*` any run within a path segment, `**`
 * any run, `$` the end of the string, `|` between alternatives, letters in either case.
 * `Matches` is the pattern language; `Match` is what the backtracking search returns.
 * Strings and patterns hold no NUL; a pattern is not followed by `*` in memory.
 */
module Glob {
  function Lower(c: char): char {
    if 'A' <= c <= 'Z' then c + 32 as char else c
  }

  /** The length of the first path segment. */
  function Segment(s: string): (n: nat)
    ensures n <= |s|
    ensures forall i :: 0 <= i < n ==> s[i] != '/'
    ensures n < |s| ==> s[n] == '/'
  {
    if s == [] || s[0] == '/' then 0 else 1 + Segment(s[1..])
  }

  /** The pattern behind the stars at the front, and how much they may stand for. */
  function AfterStar(p: string): string
    requires p != [] && p[0] == '*'
  {
    if |p| > 1 && p[1] == '*' then p[2..] else p[1..]
  }

  function Reach(p: string, s: string): (n: nat)
    requires p != [] && p[0] == '*'
    ensures n <= |s|
  {
    if |p| > 1 && p[1] == '*' then |s| else Segment(s)
  }

  // ----- the pattern language

  /** Pattern `p`, one alternative, matches the first `n` characters of `s`. */
  ghost predicate Matches(p: string, s: string, n: int)
    decreases |p|
  {
    if p == [] then n == 0
    else if p[0] == '$' then s == [] && n == 0
    else if p[0] == '*' then exists k :: 0 <= k <= Reach(p, s) && Matches(AfterStar(p), s[k..], n - k)
    else s != [] && (p[0] == '?' || Lower(p[0]) == Lower(s[0])) && Matches(p[1..], s[1..], n - 1)
  }

  function Alternatives(p: string): (alts: seq<string>)
    ensures |alts| > 0
    decreases |p|
  {
    if '|' in p then [p[..Bar(p)]] + Alternatives(p[Bar(p) + 1..]) else [p]
  }

  /** The place of the first `|`. */
  function Bar(p: string): (i: nat)
    requires '|' in p
    ensures i < |p| && p[i] == '|' && '|' !in p[..i]
  {
    if p[0] == '|' then 0
    else
      assert p == [p[0]] + p[1..];
      assert p[..1 + Bar(p[1..])] == [p[0]] + p[1..][..Bar(p[1..])];
      1 + Bar(p[1..])
  }

  // ----- the search

  function Then(k: nat, r: int): int {
    if r == -1 then -1 else k + r
  }

  /** The search for one alternative: a star stands for as much as lets the rest match. */
  function MatchOne(p: string, s: string): (r: int)
    ensures r >= -1
    decreases |p|, 0
  {
    if p == [] then 0
    else if p[0] == '$' then if s == [] then 0 else -1
    else if p[0] == '*' then Longest(AfterStar(p), s, Reach(p, s))
    else if s != [] && (p[0] == '?' || Lower(p[0]) == Lower(s[0])) then Then(1, MatchOne(p[1..], s[1..]))
    else -1
  }

  function Longest(rest: string, s: string, k: nat): (r: int)
    requires k <= |s|
    ensures r >= -1
    decreases |rest|, k + 1
  {
    var r := MatchOne(rest, s[k..]);
    if r != -1 then k + r
    else if k == 0 then -1
    else Longest(rest, s, k - 1)
  }

  /** The search for a pattern with alternatives: the left one's result counts only if it is positive. */
  function Match(p: string, s: string): (r: int)
    ensures r >= -1
    decreases |p|
  {
    if '|' in p then
      var left := Match(p[..Bar(p)], s);
      if left > 0 then left else Match(p[Bar(p) + 1..], s)
    else MatchOne(p, s)
  }

  // ----- the search agrees with the language

  lemma {:induction false} MatchOneSound(p: string, s: string)
    ensures MatchOne(p, s) != -1 ==> Matches(p, s, MatchOne(p, s))
    decreases |p|, 0
  {
    if p == [] || p[0] == '$' {
    } else if p[0] == '*' {
      LongestSound(p, s, Reach(p, s));
    } else if s != [] {
      MatchOneSound(p[1..], s[1..]);
    }
  }

  lemma {:induction false} LongestSound(p: string, s: string, k: nat)
    requires p != [] && p[0] == '*' && k <= Reach(p, s)
    ensures Longest(AfterStar(p), s, k) != -1 ==> Matches(p, s, Longest(AfterStar(p), s, k))
    decreases |AfterStar(p)|, k + 1
  {
    var r := MatchOne(AfterStar(p), s[k..]);
    MatchOneSound(AfterStar(p), s[k..]);
    if r != -1 {
      assert Matches(AfterStar(p), s[k..], k + r - k);
    } else if k > 0 {
      LongestSound(p, s, k - 1);
    }
  }

  /** If anything matches, the search finds a match, and not the empty one if a longer one exists. */
  lemma {:induction false} MatchOneComplete(p: string, s: string, n: int)
    requires Matches(p, s, n)
    ensures 0 <= n <= |s| && MatchOne(p, s) != -1 && (n > 0 ==> MatchOne(p, s) > 0)
    decreases |p|, 0
  {
    if p == [] || p[0] == '$' {
    } else if p[0] == '*' {
      var k :| 0 <= k <= Reach(p, s) && Matches(AfterStar(p), s[k..], n - k);
      LongestComplete(AfterStar(p), s, Reach(p, s), k, n);
    } else {
      MatchOneComplete(p[1..], s[1..], n - 1);
    }
  }

  lemma {:induction false} LongestComplete(rest: string, s: string, top: nat, k: nat, n: int)
    requires k <= top <= |s| && Matches(rest, s[k..], n - k)
    ensures 0 <= n <= |s| && Longest(rest, s, top) != -1 && (n > 0 ==> Longest(rest, s, top) > 0)
    decreases |rest|, top + 1
  {
    if k == top {
      MatchOneComplete(rest, s[k..], n - k);
    } else {
      MatchOneComplete(rest, s[k..], n - k);
      LongestComplete(rest, s, top - 1, k, n);
    }
  }

  ghost predicate MatchesNothing(p: string, s: string) {
    forall n :: !Matches(p, s, n)
  }

  /** Nothing matches beyond the empty string. */
  ghost predicate OnlyEmpty(p: string, s: string) {
    forall n :: Matches(p, s, n) ==> n == 0
  }

  /** For one alternative the search returns a match, and -1 only if there is none. */
  lemma OneAlternative(p: string, s: string)
    requires '|' !in p
    ensures Match(p, s) >= 0 ==> Match(p, s) <= |s| && Matches(p, s, Match(p, s))
    ensures Match(p, s) == -1 <==> MatchesNothing(p, s)
  {
    MatchOneSound(p, s);
    forall n | Matches(p, s, n)
      ensures 0 <= n <= |s| && MatchOne(p, s) != -1
    {
      MatchOneComplete(p, s, n);
    }
  }

  lemma PositiveIffMore(p: string, s: string)
    requires '|' !in p
    ensures Match(p, s) > 0 <==> !OnlyEmpty(p, s)
  {
    OneAlternative(p, s);
    if !OnlyEmpty(p, s) {
      var n :| Matches(p, s, n) && n != 0;
      MatchOneComplete(p, s, n);
    }
  }

  ghost predicate NoneCounts(alts: seq<string>, s: string)
    requires |alts| > 0
  {
    && (forall i :: 0 <= i < |alts| - 1 ==> OnlyEmpty(alts[i], s))
    && MatchesNothing(alts[|alts| - 1], s)
  }

  lemma NoneCountsSplit(left: string, more: seq<string>, s: string)
    requires |more| > 0
    ensures NoneCounts([left] + more, s) <==> OnlyEmpty(left, s) && NoneCounts(more, s)
  {
    hide OnlyEmpty, MatchesNothing;
    var alts := [left] + more;
    assert alts[|alts| - 1] == more[|more| - 1];
    assert alts[0] == left;
    assert forall i :: 0 <= i < |more| ==> alts[i + 1] == more[i];
    if NoneCounts(alts, s) {
      forall i | 0 <= i < |more| - 1
        ensures OnlyEmpty(more[i], s)
      {
        assert OnlyEmpty(alts[i + 1], s);
      }
    }
  }

  /**
   * With alternatives, a result is a match of one of them; the search fails exactly
   * when the last one matches nothing and no other matches more than the empty string.
   */
  lemma {:induction false} AnyAlternative(p: string, s: string)
    ensures Match(p, s) >= 0 ==> exists a :: a in Alternatives(p) && Matches(a, s, Match(p, s))
    ensures Match(p, s) == -1 <==> NoneCounts(Alternatives(p), s)
    decreases |p|
  {
    hide Matches, MatchOne, OnlyEmpty, MatchesNothing;
    if '|' in p {
      var left, right := p[..Bar(p)], p[Bar(p) + 1..];
      OneAlternative(left, s);
      PositiveIffMore(left, s);
      AnyAlternative(right, s);
      var more := Alternatives(right);
      NoneCountsSplit(left, more, s);
      if Match(p, s) >= 0 {
        assert left in [left] + more;
        if Match(left, s) <= 0 {
          var a :| a in more && Matches(a, s, Match(right, s));
          assert a in [left] + more;
        }
      }
    } else {
      OneAlternative(p, s);
      assert p in [p];
    }
  }

  /** So a failed search does not mean that nothing matches: here the empty left side does. */
  lemma FailureDespiteEmptyMatch()
    ensures Match("|b", "a") == -1 && Matches(Alternatives("|b")[0], "a", 0)
  {
    assert Bar("|b") == 0;
    assert "|b"[..0] == "" && "|b"[1..] == "b";
    assert Match("", "a") == 0;
    assert Match("b", "a") == -1;
  }

  // ----- the code

  lemma NoBarWithin(p: string, i: nat)
    requires i <= |p| && '|' !in p
    ensures '|' !in p[i..]
  {
  }

  method MatchPrefix(pattern: string, str: string) returns (res: int)
    requires '\0' !in pattern && '\0' !in str
    ensures res == Match(pattern, str)
    decreases |pattern|, 2
  {
    if '|' in pattern {
      var bar := Bar(pattern);
      res := MatchPrefix(pattern[..bar], str);
      if res <= 0 {
        res := MatchPrefix(pattern[bar + 1..], str);
      }
      return;
    }
    hide Longest, Lower;
    var i, j := 0, 0;
    while i < |pattern|
      invariant 0 <= i <= |pattern| && 0 <= j <= |str|
      invariant Match(pattern, str) == Then(j, MatchOne(pattern[i..], str[j..]))
    {
      var p, s := pattern[i..], str[j..];
      assert p[1..] == pattern[i + 1..];
      if pattern[i] == '?' && j < |str| {
        assert s[1..] == str[j + 1..];
      } else if pattern[i] == '$' {
        return if j == |str| then j else -1;
      } else if pattern[i] == '*' {
        NoBarWithin(pattern, i);
        res := MatchStar(p, s);
        res := if res == -1 then -1 else j + res;
        return;
      } else if j == |str| || Lower(pattern[i]) != Lower(str[j]) {
        return -1;
      } else {
        assert s[1..] == str[j + 1..];
      }
      i := i + 1;
      j := j + 1;
    }
    res := j;
  }

  /** A star, or two, at the front of the pattern. */
  method MatchStar(p: string, s: string) returns (res: int)
    requires '\0' !in p && '\0' !in s && '|' !in p && p != [] && p[0] == '*'
    ensures res == MatchOne(p, s)
    decreases |p|, 1
  {
    hide Longest;
    var i, len := 1, 0;
    if i < |p| && p[i] == '*' {
      i := i + 1;
      len := |s|;
    } else {
      len := Segment(s);
    }
    assert AfterStar(p) == p[i..] && Reach(p, s) == len;
    if i == |p| {
      LongestOfNothing(s, len);
      return len;
    }
    res := Backtrack(p[i..], s, len);
  }

  lemma LongestOfNothing(s: string, k: nat)
    requires k <= |s|
    ensures Longest([], s, k) == k
  {
  }

  /** The loop behind a star: the longest run first. */
  method Backtrack(rest: string, s: string, top: nat) returns (res: int)
    requires '\0' !in rest && '\0' !in s && '|' !in rest && top <= |s|
    ensures res == Longest(rest, s, top)
    decreases |rest|, 3
  {
    var len := top;
    res := MatchPrefix(rest, s[len..]);
    while res == -1 && len > 0
      invariant 0 <= len <= top
      invariant res == MatchOne(rest, s[len..])
      invariant Longest(rest, s, top) == Longest(rest, s, len)
    {
      len := len - 1;
      res := MatchPrefix(rest, s[len..]);
    }
    res := if res == -1 then -1 else res + len;
  }
}
