/**
 * Cutting a byte stream into items as it arrives.  A parser looks at what is buffered
 * and finds the first complete item and its length, or none yet; the reader appends
 * each piece that arrives and takes items off the front for as long as there are any.
 */
module Splitter {
  import opened Basics

  type Parser<!B, !I> = seq<B> -> Option<(I, nat)>

  /** An item found lies within the buffer, is not empty, and is found again however the buffer goes on. */
  ghost predicate Streaming<B(!new), I(!new)>(parse: Parser<B, I>) {
    && (forall b: seq<B> :: parse(b).Some? ==> 0 < parse(b).value.1 <= |b|)
    && (forall b: seq<B>, more: seq<B> :: parse(b).Some? ==> parse(b + more) == parse(b))
  }

  /** Takes items off the front while there are any: the items and what is left. */
  function Drain<B, I>(parse: Parser<B, I>, b: seq<B>): (seq<I>, seq<B>)
    decreases |b|
  {
    var r := parse(b);
    if r.None? || !(0 < r.value.1 <= |b|) then ([], b)
    else
      var (items, rest) := Drain(parse, b[r.value.1..]);
      ([r.value.0] + items, rest)
  }

  /** Reads the pieces one after another. */
  function Feed<B, I>(parse: Parser<B, I>, b: seq<B>, pieces: seq<seq<B>>): (seq<I>, seq<B>)
    decreases |pieces|
  {
    if pieces == [] then ([], b)
    else
      var (items, rest) := Drain(parse, b + pieces[0]);
      var (items2, rest2) := Feed(parse, rest, pieces[1..]);
      (items + items2, rest2)
  }

  lemma DrainNone<B, I>(parse: Parser<B, I>, b: seq<B>)
    requires parse(b).None?
    ensures Drain(parse, b) == ([], b)
  {
  }

  lemma DrainOne<B, I>(parse: Parser<B, I>, b: seq<B>)
    requires parse(b).Some? && 0 < parse(b).value.1 <= |b|
    ensures var (items, rest) := Drain(parse, b[parse(b).value.1..]);
            Drain(parse, b) == ([parse(b).value.0] + items, rest)
  {
  }

  lemma {:induction false} DrainAppend<B(!new), I(!new)>(parse: Parser<B, I>, b: seq<B>, more: seq<B>)
    requires Streaming(parse)
    ensures var (items, rest) := Drain(parse, b);
            var (items2, rest2) := Drain(parse, rest + more);
            Drain(parse, b + more) == (items + items2, rest2)
    decreases |b|
  {
    var r := parse(b);
    if r.None? {
      var (items2, rest2) := Drain(parse, b + more);
      assert [] + items2 == items2;
    } else {
      var n := r.value.1;
      assert parse(b + more) == r;
      assert (b + more)[n..] == b[n..] + more;
      DrainAppend(parse, b[n..], more);
      var (items, rest) := Drain(parse, b[n..]);
      var (items2, rest2) := Drain(parse, rest + more);
      assert [r.value.0] + (items + items2) == [r.value.0] + items + items2;
    }
  }

  lemma {:induction false} DrainStops<B(!new), I(!new)>(parse: Parser<B, I>, b: seq<B>)
    requires Streaming(parse)
    ensures parse(Drain(parse, b).1).None?
    decreases |b|
  {
    var r := parse(b);
    if r.Some? {
      DrainStops(parse, b[r.value.1..]);
    }
  }

  /** However the stream is cut into pieces, the reader finds the same items and is left with the same rest. */
  lemma {:induction false} PiecesDoNotMatter<B(!new), I(!new)>(parse: Parser<B, I>, b: seq<B>, pieces: seq<seq<B>>)
    requires Streaming(parse) && parse(b).None?
    ensures Feed(parse, b, pieces) == Drain(parse, b + Concat(pieces))
    decreases |pieces|
  {
    hide Drain, Streaming;
    if pieces == [] {
      assert b + Concat(pieces) == b;
      DrainNone(parse, b);
    } else {
      var (items, rest) := Drain(parse, b + pieces[0]);
      DrainStops(parse, b + pieces[0]);
      PiecesDoNotMatter(parse, rest, pieces[1..]);
      DrainAppend(parse, b + pieces[0], Concat(pieces[1..]));
      assert b + Concat(pieces) == b + pieces[0] + Concat(pieces[1..]);
    }
  }

  /** `code` is the wire form of `item`: the parser finds it in front of anything and not before it is complete. */
  ghost predicate IsWireForm<B(!new), I>(parse: Parser<B, I>, item: I, code: seq<B>) {
    && code != []
    && (forall more: seq<B> :: parse(code + more) == Some((item, |code|)))
    && (forall n :: 0 <= n < |code| ==> parse(code[..n]) == None)
  }

  /** A stream of complete wire forms and the beginning of another is cut exactly there. */
  lemma {:induction false} DrainOfWireForms<B(!new), I(!new)>(
      parse: Parser<B, I>, items: seq<I>, codes: seq<seq<B>>, partial: seq<B>)
    requires |items| == |codes| && (forall i :: 0 <= i < |items| ==> IsWireForm(parse, items[i], codes[i]))
    requires parse(partial).None?
    ensures Drain(parse, Concat(codes) + partial) == (items, partial)
    decreases |codes|
  {
    if codes == [] {
      assert Concat(codes) + partial == partial;
    } else {
      var b := Concat(codes) + partial;
      var more := Concat(codes[1..]) + partial;
      assert b == codes[0] + more;
      assert IsWireForm(parse, items[0], codes[0]);
      assert b[|codes[0]|..] == more;
      DrainOfWireForms(parse, items[1..], codes[1..], partial);
      assert [items[0]] + items[1..] == items;
    }
  }
}
