/** The clean-up of request paths, in place on a string that ends with a null byte. */
module PathCleaning {
  import opened Basics

  const DOT: Byte := 46

  predicate IsSeparator(b: Byte) {
    b == 47 || b == 92
  }

  /** Without the separators and double dots at the front. */
  function Skip(s: Octets): (r: Octets)
    ensures |r| <= |s|
    ensures Settled(r)
  {
    if s != [] && IsSeparator(s[0]) then Skip(s[1..])
    else if |s| >= 2 && s[0] == DOT && s[1] == DOT then Skip(s[2..])
    else s
  }

  function Clean(s: Octets): (r: Octets)
    ensures |r| <= |s|
    decreases |s|
  {
    if s == [] then []
    else if IsSeparator(s[0]) then [s[0]] + Clean(Skip(s[1..]))
    else [s[0]] + Clean(s[1..])
  }

  /** May follow a separator: begins neither with a separator nor with two dots. */
  predicate Settled(s: Octets) {
    && !(s != [] && IsSeparator(s[0]))
    && !(|s| >= 2 && s[0] == DOT && s[1] == DOT)
  }

  predicate IsClean(s: Octets) {
    forall i :: 0 <= i < |s| ==> SettledAt(s, i)
  }

  /** A separator at `i` is followed by what may follow it. */
  predicate SettledAt(s: Octets, i: nat)
    requires i < |s|
  {
    IsSeparator(s[i]) ==> Settled(s[i + 1..])
  }

  lemma IsCleanFirst(c: Byte, s: Octets)
    ensures IsClean([c] + s) <==> IsClean(s) && (IsSeparator(c) ==> Settled(s))
  {
    var t := [c] + s;
    assert SettledAt(t, 0) <==> (IsSeparator(c) ==> Settled(s)) by {
      assert t[1..] == s && t[0] == c;
    }
    forall i | 0 <= i < |s|
      ensures SettledAt(t, i + 1) <==> SettledAt(s, i)
    {
      assert t[i + 1] == s[i] && t[i + 2..] == s[i + 1..];
    }
    hide SettledAt, Settled, IsSeparator;
    if IsClean(t) {
      forall i | 0 <= i < |s|
        ensures SettledAt(s, i)
      {
        assert SettledAt(t, i + 1);
      }
    }
    if IsClean(s) && SettledAt(t, 0) {
      forall k | 0 <= k < |t|
        ensures SettledAt(t, k)
      {
        if k > 0 {
          assert SettledAt(s, k - 1) && SettledAt(t, k - 1 + 1);
        }
      }
    }
  }

  lemma CleanKeepsSettled(s: Octets)
    requires Settled(s)
    ensures Settled(Clean(s))
  {
    if s != [] {
      assert Clean(s) == [s[0]] + Clean(s[1..]);
      if |s| >= 2 {
        assert Clean(s[1..]) != [] && Clean(s[1..])[0] == s[1];
      }
    }
  }

  /** No separator of the result is followed by another separator or by two dots. */
  lemma {:induction false} CleanIsClean(s: Octets)
    ensures IsClean(Clean(s))
    decreases |s|
  {
    hide IsClean, Settled;
    if s == [] {
      assert IsClean([]) by { NothingIsClean(); }
    } else if IsSeparator(s[0]) {
      var t := Skip(s[1..]);
      CleanIsClean(t);
      CleanKeepsSettled(t);
      IsCleanFirst(s[0], Clean(t));
    } else {
      CleanIsClean(s[1..]);
      IsCleanFirst(s[0], Clean(s[1..]));
    }
  }

  lemma NothingIsClean()
    ensures IsClean([])
  {
  }

  /** A path is left alone if and only if it is clean already. */
  lemma {:induction false} UnchangedIffClean(s: Octets)
    ensures Clean(s) == s <==> IsClean(s)
    decreases |s|
  {
    if Clean(s) == s {
      CleanIsClean(s);
    }
    if IsClean(s) && s != [] {
      assert s == [s[0]] + s[1..];
      IsCleanFirst(s[0], s[1..]);
      UnchangedIffClean(s[1..]);
    }
  }

  lemma CleaningTwiceIsCleaningOnce(s: Octets)
    ensures Clean(Clean(s)) == Clean(s)
  {
    CleanIsClean(s);
    UnchangedIffClean(Clean(s));
  }

  /** What a path may not have behind a separator. */
  predicate IsRedundant(d: Octets) {
    (|d| == 1 && IsSeparator(d[0])) || d == [DOT, DOT]
  }

  lemma SkipRedundant(d: Octets, b: Octets)
    requires IsRedundant(d)
    ensures Skip(d + b) == Skip(b)
  {
    assert (d + b)[|d|..] == b;
  }

  /**
   * A separator or a double dot behind a separator makes no difference, wherever it stands.
   * With `UnchangedIffClean` this fixes the cleaned path: it is what is left when all such
   * pieces are gone.
   */
  lemma {:induction false} RedundantIsRemoved(a: Octets, c: Byte, d: Octets, b: Octets)
    requires IsSeparator(c) && IsRedundant(d)
    ensures Clean(a + ([c] + (d + b))) == Clean(a + ([c] + b))
    decreases |a|
  {
    hide IsRedundant, Settled;
    var long, short := [c] + (d + b), [c] + b;
    assert long[1..] == d + b && short[1..] == b;
    SkipRedundant(d, b);
    if a == [] {
      assert a + long == long && a + short == short;
    } else {
      var x := a[1..];
      assert (a + long)[1..] == x + long && (a + short)[1..] == x + short;
      if !IsSeparator(a[0]) {
        RedundantIsRemoved(x, c, d, b);
      } else if x == [] {
        assert x + long == long && x + short == short;
      } else if IsSeparator(x[0]) {
        SkippedInFront(a, 1, long);
        SkippedInFront(a, 1, short);
        RedundantIsRemoved([a[0]] + x[1..], c, d, b);
      } else if |x| >= 2 && x[0] == DOT && x[1] == DOT {
        SkippedInFront(a, 2, long);
        SkippedInFront(a, 2, short);
        RedundantIsRemoved([a[0]] + x[2..], c, d, b);
      } else {
        StopsThere(x, long);
        StopsThere(x, short);
        RedundantIsRemoved(x, c, d, b);
      }
    }
  }

  lemma SkippedInFront(a: Octets, n: nat, t: Octets)
    requires |a| > n && IsSeparator(a[0])
    requires if n == 1 then IsSeparator(a[1]) else n == 2 && a[1] == DOT && a[2] == DOT
    ensures Clean(a + t) == Clean([a[0]] + a[1..][n..] + t)
  {
    var x := a[1..];
    assert (a + t)[1..] == x + t && (x + t)[n..] == x[n..] + t;
    assert ([a[0]] + x[n..] + t)[1..] == x[n..] + t;
  }

  lemma StopsThere(x: Octets, t: Octets)
    requires x != [] && t != [] && IsSeparator(t[0]) && Settled(x)
    ensures Skip(x + t) == x + t
  {
  }

  // ----- character by character

  predicate IsSlash(b: Byte) {
    b as char in "/\\"
  }

  /** What may not stand at `i`: two separators in a row, or a separator and two dots. */
  predicate RedundantAt(s: Octets, i: nat) {
    || (i + 1 < |s| && IsSlash(s[i]) && IsSlash(s[i + 1]))
    || (i + 2 < |s| && IsSlash(s[i]) && s[i + 1] as char == '.' && s[i + 2] as char == '.')
  }

  /** A path is left alone if and only if nothing redundant stands in it, and a cleaned path has nothing of the kind. */
  lemma CleanIffNothingRedundant(s: Octets)
    ensures Clean(s) == s <==> forall i :: 0 <= i < |s| ==> !RedundantAt(s, i)
    ensures forall i :: 0 <= i < |Clean(s)| ==> !RedundantAt(Clean(s), i)
  {
    CleanIsClean(s);
    UnchangedIffClean(s);
    hide Clean;
    CleanInCharacters(s);
    CleanInCharacters(Clean(s));
  }

  lemma CleanInCharacters(s: Octets)
    ensures IsClean(s) <==> forall i :: 0 <= i < |s| ==> !RedundantAt(s, i)
  {
    forall i | 0 <= i < |s|
      ensures RedundantAt(s, i) <==> !SettledAt(s, i)
    {
      SlashesAreSeparators(s[i]);
      if i + 1 < |s| {
        SlashesAreSeparators(s[i + 1]);
      }
    }
    hide RedundantAt, SettledAt;
  }

  lemma SlashesAreSeparators(b: Byte)
    ensures IsSlash(b) <==> IsSeparator(b)
  {
  }

  /** What is redundant makes no difference wherever it stands. */
  lemma RedundantCharacters(a: Octets, c: Byte, d: Byte, b: Octets)
    requires IsSlash(c) && IsSlash(d)
    ensures Clean(a + [c, d] + b) == Clean(a + [c] + b)
    ensures Clean(a + [c, '.' as int, '.' as int] + b) == Clean(a + [c] + b)
  {
    hide Clean;
    RedundantIsRemoved(a, c, [d], b);
    RedundantIsRemoved(a, c, [DOT, DOT], b);
    assert a + [c, d] + b == a + ([c] + ([d] + b));
    assert a + [c, '.' as int, '.' as int] + b == a + ([c] + ([DOT, DOT] + b));
    assert a + [c] + b == a + ([c] + b);
  }

  /** Everything but separators and dots. */
  function Names(s: Octets): Octets {
    if s == [] then []
    else if IsSeparator(s[0]) || s[0] == DOT then Names(s[1..])
    else [s[0]] + Names(s[1..])
  }

  lemma {:induction false} SkipKeepsNames(s: Octets)
    ensures Names(Skip(s)) == Names(s)
    decreases |s|
  {
    if s != [] && IsSeparator(s[0]) {
      SkipKeepsNames(s[1..]);
    } else if |s| >= 2 && s[0] == DOT && s[1] == DOT {
      SkipKeepsNames(s[2..]);
      assert s[1..][1..] == s[2..];
    }
  }

  /** Only separators and dots are ever removed. */
  lemma {:induction false} CleanKeepsNames(s: Octets)
    ensures Names(Clean(s)) == Names(s)
    decreases |s|
  {
    if s != [] {
      var t := if IsSeparator(s[0]) then Skip(s[1..]) else s[1..];
      CleanKeepsNames(t);
      SkipKeepsNames(s[1..]);
      assert Clean(s)[1..] == Clean(t);
    }
  }

  // ----- the code

  method RemoveDoubleDotsAndDoubleSlashes(s: array<Byte>, ghost n: nat)
    requires EndsAt(s, n)
    modifies s
    ensures var path := Clean(old(s[..n]));
            s[..|path|] == path && EndsAt(s, |path|)
  {
    hide Clean, Skip, Settled;
    ghost var was, done, text := s[..], [], s[..n];
    var p, q := 0, 0;
    assert text[0..] == text && done + Clean(text) == Clean(text);
    while s[q] != 0
      invariant 0 <= p <= q <= n
      invariant |done| == p && s[..p] == done && s[q..] == was[q..]
      invariant done + Clean(text[q..]) == Clean(text)
      decreases n - q
    {
      var c := s[q];
      assert c == s[q..][0] == was[q..][0] == text[q];
      CleanFirst(text[q..]);
      assert text[q..][1..] == text[q + 1..];
      assert s[q + 1..] == s[q..][1..] == was[q..][1..] == was[q + 1..];
      KeepByte(s, p, q, c);
      done := done + [c];
      p, q := p + 1, q + 1;
      if IsSeparator(c) {
        q := SkipFrom(s, q, n, was);
        assert s[q..] == was[q..];
        assert was[q..n] == text[q..];
      }
    }
    assert s[q..][0] == was[q..][0];
    assert q == n;
    s[p] := 0;
    CleanOfNothing();
    CleanHasNoNull(text);
    assert Clean(text) == done;
  }

  /** The byte read at `q` goes to `p`. */
  method KeepByte(s: array<Byte>, p: nat, q: nat, c: Byte)
    requires p <= q < s.Length
    modifies s
    ensures s[..p + 1] == old(s[..p]) + [c] && s[q + 1..] == old(s[q + 1..])
  {
    s[p] := c;
  }

  lemma CleanFirst(t: Octets)
    requires t != []
    ensures forall done: Octets ::
              done + Clean(t) == done + [t[0]] + Clean(if IsSeparator(t[0]) then Skip(t[1..]) else t[1..])
  {
  }

  lemma CleanOfNothing()
    ensures Clean([]) == []
  {
  }

  lemma SkipFirst(t: Octets)
    ensures t != [] && IsSeparator(t[0]) ==> Skip(t) == Skip(t[1..])
    ensures |t| >= 2 && t[0] == DOT && t[1] == DOT ==> Skip(t) == Skip(t[2..])
    ensures Settled(t) ==> Skip(t) == t
  {
  }

  /** Past all following separators and double dots. */
  method SkipFrom(s: array<Byte>, from: nat, ghost n: nat, ghost was: Octets) returns (q: nat)
    requires from <= n < s.Length == |was| && s[from..] == was[from..]
    requires was[n] == 0 && forall i :: 0 <= i < n ==> was[i] != 0
    ensures from <= q <= n && was[q..n] == Skip(was[from..n])
  {
    hide Skip;
    q := from;
    while true
      invariant from <= q <= n
      invariant Skip(was[q..n]) == Skip(was[from..n])
      decreases n - q
    {
      ghost var rest := was[q..n];
      SkipFirst(rest);
      assert s[q] == s[from..][q - from] == was[q];
      if q < n {
        assert rest[0] == was[q] && rest[1..] == was[q + 1..n];
        assert s[q + 1] == s[from..][q + 1 - from] == was[q + 1];
      }
      if q + 1 < n {
        assert rest[1] == was[q + 1] && rest[2..] == was[q + 2..n];
      }
      if s[q] == 0 {
        break;
      }
      if IsSeparator(s[q]) {
        q := q + 1;
      } else if s[q] == DOT && s[q + 1] == DOT {
        q := q + 2;
      } else {
        break;
      }
    }
  }

  lemma {:induction false} CleanHasNoNull(s: Octets)
    requires 0 !in s
    ensures 0 !in Clean(s)
    decreases |s|
  {
    if s != [] {
      if IsSeparator(s[0]) {
        SkipHasNoNull(s[1..]);
        CleanHasNoNull(Skip(s[1..]));
      } else {
        CleanHasNoNull(s[1..]);
      }
    }
  }

  lemma {:induction false} SkipHasNoNull(s: Octets)
    requires 0 !in s
    ensures 0 !in Skip(s)
    decreases |s|
  {
    if s != [] && IsSeparator(s[0]) {
      SkipHasNoNull(s[1..]);
    } else if |s| >= 2 && s[0] == DOT && s[1] == DOT {
      SkipHasNoNull(s[2..]);
    }
  }
}
