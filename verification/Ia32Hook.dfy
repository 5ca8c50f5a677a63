/**
 * Moving the start of a function out of the way of a hook: what relocation does to
 * jump targets, the loop that moves whole instructions, and the patch itself.
 */
module Ia32Hook {
  import opened Basics
  import opened Ia32Instruction
  import opened Ia32Code

  const THUNK_BUFFER_SIZE := 256
  const MAX_INSTRUCTION := 36

  // ----- jump targets

  function Signed(v: nat, n: nat): int {
    if 2 * v < Modulus(n) then v else v - Modulus(n)
  }

  /** Where a relative operand of `i` points in the 32-bit address space. */
  function Target(i: Insn, op: Operand): int {
    (i.address + i.codeSize + Signed(op.value, op.size)) % WORD
  }

  /** The displacement, as a signed word, that reaches the old target from the new place. */
  function Reach(op: Operand, from: int, to: int): int {
    (Signed(op.value, op.size) + from - to + WORD / 2) % WORD - WORD / 2
  }

  /** The operand is as wide as an address, or the new displacement happens to fit it. */
  predicate Fits(op: Operand, from: int, to: int) {
    op.size >= 4 || 0 <= 2 * Reach(op, from, to) + Modulus(op.size) < 2 * Modulus(op.size)
  }

  lemma Moduli()
    ensures Modulus(1) == 0x100 && Modulus(2) == 0x1_0000 && Modulus(4) == WORD && Modulus(8) == QWORD
  {
    assert Modulus(2) == 256 * Modulus(1);
    assert Modulus(3) == 256 * Modulus(2);
    assert Modulus(4) == 256 * Modulus(3);
    assert Modulus(5) == 256 * Modulus(4);
    assert Modulus(6) == 256 * Modulus(5);
    assert Modulus(7) == 256 * Modulus(6);
    assert Modulus(8) == 256 * Modulus(7);
  }

  function SignedBelow(v: int, modulus: int): int {
    if 2 * v < modulus then v else v - modulus
  }

  lemma SameModuloWord(x: int, y: int)
    ensures x % WORD == y % WORD <==> (x - y) % WORD == 0
  {
  }

  lemma Truncate8(x: int)
    ensures x % QWORD % 0x100 == x % 0x100
  {
  }

  lemma Truncate16(x: int)
    ensures x % QWORD % 0x1_0000 == x % 0x1_0000
  {
  }

  lemma Truncate32(x: int)
    ensures x % QWORD % WORD == x % WORD
  {
  }

  lemma Narrow8(v: int, delta: int)
    requires 0 <= v < 0x100
    ensures var s, s2 := SignedBelow(v, 0x100), SignedBelow((v + delta) % 0x100, 0x100);
            var reach := (s + delta + WORD / 2) % WORD - WORD / 2;
            (s2 - (s + delta)) % WORD == 0 <==> -0x100 <= 2 * reach < 0x100
  {
    var x, s2 := SignedBelow(v, 0x100) + delta, SignedBelow((v + delta) % 0x100, 0x100);
    var reach := (x + WORD / 2) % WORD - WORD / 2;
    var t, j := (x + WORD / 2) / WORD, (s2 - x) / WORD;
    assert reach == x - WORD * t;
    Near8(v, delta, x, s2);
    if (s2 - x) % WORD == 0 {
      assert s2 - reach == WORD * (j + t);
    }
    if -0x100 <= 2 * reach < 0x100 {
      var m := (s2 - x) / 0x100;
      assert s2 - reach == 0x100 * (m + WORD / 0x100 * t);
      assert s2 - x == WORD * -t;
    }
  }

  lemma Near8(v: int, delta: int, x: int, s2: int)
    requires 0 <= v < 0x100 && x == SignedBelow(v, 0x100) + delta && s2 == SignedBelow((v + delta) % 0x100, 0x100)
    ensures (s2 - x) % 0x100 == 0 && -0x100 <= 2 * s2 < 0x100
  {
    var q := (v + delta) / 0x100;
    var b, c := if 2 * v < 0x100 then 0 else 1, if 2 * ((v + delta) % 0x100) < 0x100 then 0 else 1;
    assert s2 - x == 0x100 * (b - q - c);
  }

  lemma Narrow16(v: int, delta: int)
    requires 0 <= v < 0x1_0000
    ensures var s, s2 := SignedBelow(v, 0x1_0000), SignedBelow((v + delta) % 0x1_0000, 0x1_0000);
            var reach := (s + delta + WORD / 2) % WORD - WORD / 2;
            (s2 - (s + delta)) % WORD == 0 <==> -0x1_0000 <= 2 * reach < 0x1_0000
  {
    var x, s2 := SignedBelow(v, 0x1_0000) + delta, SignedBelow((v + delta) % 0x1_0000, 0x1_0000);
    var reach := (x + WORD / 2) % WORD - WORD / 2;
    var t, j := (x + WORD / 2) / WORD, (s2 - x) / WORD;
    assert reach == x - WORD * t;
    Near16(v, delta, x, s2);
    if (s2 - x) % WORD == 0 {
      assert s2 - reach == WORD * (j + t);
    }
    if -0x1_0000 <= 2 * reach < 0x1_0000 {
      var m := (s2 - x) / 0x1_0000;
      assert s2 - reach == 0x1_0000 * (m + WORD / 0x1_0000 * t);
      assert s2 - x == WORD * -t;
    }
  }

  lemma Near16(v: int, delta: int, x: int, s2: int)
    requires 0 <= v < 0x1_0000 && x == SignedBelow(v, 0x1_0000) + delta
             && s2 == SignedBelow((v + delta) % 0x1_0000, 0x1_0000)
    ensures (s2 - x) % 0x1_0000 == 0 && -0x1_0000 <= 2 * s2 < 0x1_0000
  {
    var q := (v + delta) / 0x1_0000;
    var b, c := if 2 * v < 0x1_0000 then 0 else 1, if 2 * ((v + delta) % 0x1_0000) < 0x1_0000 then 0 else 1;
    assert s2 - x == 0x1_0000 * (b - q - c);
  }

  lemma Wide32(v: int, delta: int)
    requires 0 <= v < WORD
    ensures (SignedBelow((v + delta) % WORD, WORD) - (SignedBelow(v, WORD) + delta)) % WORD == 0
  {
  }

  lemma Wide64(v: int, delta: int)
    requires 0 <= v < QWORD
    ensures (SignedBelow((v + delta) % QWORD, QWORD) - (SignedBelow(v, QWORD) + delta)) % WORD == 0
  {
    var q := (v + delta) / QWORD;
    var b, c := if 2 * v < QWORD then 0 else 1, if 2 * ((v + delta) % QWORD) < QWORD then 0 else 1;
    assert SignedBelow((v + delta) % QWORD, QWORD) - (SignedBelow(v, QWORD) + delta) == WORD * (WORD * (b - q - c));
  }

  lemma RelocatedValue(op: Operand, from: int, to: int, codeSize: nat)
    requires IsRelative(op.kind) && op.size in {1, 2, 4, 8}
    ensures RelocatedOperand(op, from, to, codeSize).value == (op.value + (from - to)) % Modulus(op.size)
  {
    hide Modulus;
    Moduli();
    var w := from + codeSize + op.value - (to + codeSize);
    assert w == op.value + (from - to);
    Truncate8(w);
    Truncate16(w);
    Truncate32(w);
  }

  lemma SameTarget(op: Operand, op2: Operand, from: int, to: int, codeSize: nat)
    ensures var i, i2 := FRESH.(address := from, codeSize := codeSize), FRESH.(address := to, codeSize := codeSize);
            Target(i2, op2) == Target(i, op)
            <==> (Signed(op2.value, op2.size) - (Signed(op.value, op.size) + (from - to))) % WORD == 0
  {
    hide Signed;
    var s, s2 := Signed(op.value, op.size), Signed(op2.value, op2.size);
    SameModuloWord(to + codeSize + s2, from + codeSize + s);
    assert to + codeSize + s2 - (from + codeSize + s) == s2 - (s + (from - to));
  }

  /** Relocation keeps a jump's target exactly when the new displacement fits the operand. */
  lemma TargetKeptIffFits(op: Operand, from: int, to: int, codeSize: nat)
    requires IsRelative(op.kind) && op.size in {1, 2, 4, 8} && op.value < Modulus(op.size)
    ensures var i, i2 := FRESH.(address := from, codeSize := codeSize), FRESH.(address := to, codeSize := codeSize);
            Target(i2, RelocatedOperand(op, from, to, codeSize)) == Target(i, op) <==> Fits(op, from, to)
  {
    hide Modulus, Target;
    Moduli();
    var v, delta := op.value, from - to;
    var op2 := RelocatedOperand(op, from, to, codeSize);
    SameTarget(op, op2, from, to, codeSize);
    RelocatedValue(op, from, to, codeSize);
    hide RelocatedOperand;
    assert Signed(v, op.size) + delta + WORD / 2 == Signed(v, op.size) + from - to + WORD / 2;
    if op.size == 1 {
      Narrow8(v, delta);
    } else if op.size == 2 {
      Narrow16(v, delta);
    } else if op.size == 4 {
      Wide32(v, delta);
    } else {
      Wide64(v, delta);
    }
  }

  // ----- moving whole instructions

  function Total(insns: seq<Insn>): nat {
    if insns == [] then 0 else insns[0].codeSize + Total(insns[1..])
  }

  /**
   * The instructions from `src` on that the loop moves to reach `min` bytes, `done` of
   * them already behind it; none if one cannot be decoded or does not fit.
   */
  function ToMove(table: OpcodeTable, m: Memory, src: int, done: nat, min: int, max: int): Option<seq<Insn>>
    decreases min - done
  {
    if done >= min then Some([])
    else
      match DecodeAt(table, m, src, FRESH)
      case None => None
      case Some(i) =>
        if done + i.codeSize >= max then None
        else
          match ToMove(table, m, src + i.codeSize, done + i.codeSize, min, max)
          case None => None
          case Some(rest) => Some([i] + rest)
  }

  /** Each instruction that the loop decodes has no more prefix bytes than the decoder has room for. */
  predicate PrefixesFitAlong(table: OpcodeTable, m: Memory, src: int, done: nat, min: int, max: int)
    decreases min - done
  {
    done >= min ||
    (PrefixesFit(m, src) &&
     match DecodeAt(table, m, src, FRESH)
     case None => true
     case Some(i) =>
       done + i.codeSize >= max || PrefixesFitAlong(table, m, src + i.codeSize, done + i.codeSize, min, max))
  }

  lemma PrefixesFitOn(table: OpcodeTable, m: Memory, src: int, done: nat, min: int, max: int)
    requires PrefixesFitAlong(table, m, src, done, min, max) && done < min
    ensures PrefixesFit(m, src)
    ensures var r := DecodeAt(table, m, src, FRESH);
            r.Some? && done + r.value.codeSize < max
            ==> PrefixesFitAlong(table, m, src + r.value.codeSize, done + r.value.codeSize, min, max)
  {
    hide PrefixesFit, DecodeAt;
  }

  /** The code of instructions moved to `to`. */
  function MovedCode(insns: seq<Insn>, to: int): seq<Byte> {
    if insns == [] then [] else Encoding(Relocated(insns[0], to)) + MovedCode(insns[1..], to + insns[0].codeSize)
  }

  /** Consecutive instructions of `m` from `src` on. */
  ghost predicate Consecutive(table: OpcodeTable, m: Memory, src: int, insns: seq<Insn>)
    decreases |insns|
  {
    insns == [] ||
    (DecodeAt(table, m, src, FRESH) == Some(insns[0]) && Consecutive(table, m, src + insns[0].codeSize, insns[1..]))
  }

  lemma PostfixIsShort(e: OpcodeInfo, m: Memory, q: int)
    ensures OperandStart(e, m, q) <= q + 6
  {
  }

  lemma RelocatedEncodingSize(i: Insn, to: int)
    ensures |Encoding(Relocated(i, to))| == |Encoding(i)|
  {
    assert Head(Relocated(i, to)) == Head(i);
  }

  lemma InstructionIsShort(table: OpcodeTable, m: Memory, a: int, to: int)
    requires PrefixesFit(m, a) && DecodeAt(table, m, a, FRESH).Some?
    ensures var i := DecodeAt(table, m, a, FRESH).value;
            0 < i.codeSize <= MAX_INSTRUCTION && |Encoding(Relocated(i, to))| == i.codeSize
  {
    hide OperandStart, Lookup, PrefixCount, ModRMAt, SibAt, DisplacementTypeAt, OperandAt, Encoding, RelocatedOperand,
         Read;
    var i := DecodeAt(table, m, a, FRESH).value;
    var e := i.info.value;
    PostfixIsShort(e, m, a + PrefixCount(m, a) + OpcodeLength(e));
    EncodingSize(e, m, a, FRESH);
    RelocatedEncodingSize(i, to);
  }

  lemma ToMoveFirst(table: OpcodeTable, m: Memory, src: int, done: nat, min: int, max: int, insns: seq<Insn>)
    requires ToMove(table, m, src, done, min, max) == Some(insns) && done < min
    ensures insns != [] && DecodeAt(table, m, src, FRESH) == Some(insns[0])
    ensures done + insns[0].codeSize < max
    ensures ToMove(table, m, src + insns[0].codeSize, done + insns[0].codeSize, min, max) == Some(insns[1..])
  {
    hide DecodeAt;
    var i := DecodeAt(table, m, src, FRESH).value;
    var rest := ToMove(table, m, src + i.codeSize, done + i.codeSize, min, max).value;
    assert insns == [i] + rest;
  }

  /**
   * What the loop returns when it succeeds: consecutive whole instructions, at least
   * `min` bytes of them and less than one instruction more, fewer than `max`, and as
   * many bytes of moved code.
   */
  lemma {:induction false} MovesWholeInstructions(
      table: OpcodeTable, m: Memory, src: int, done: nat, min: int, max: int, to: int, insns: seq<Insn>)
    requires PrefixesFitAlong(table, m, src, done, min, max)
    requires ToMove(table, m, src, done, min, max) == Some(insns)
    ensures Consecutive(table, m, src, insns)
    ensures |MovedCode(insns, to)| == Total(insns)
    ensures done + Total(insns) >= min
    ensures done < min ==> done + Total(insns) < max && done + Total(insns) < min + MAX_INSTRUCTION
    decreases min - done
  {
    hide DecodeAt, PrefixesFit, Encoding, Relocated, ToMove, PrefixesFitAlong;
    if done < min {
      PrefixesFitOn(table, m, src, done, min, max);
      ToMoveFirst(table, m, src, done, min, max, insns);
      var n := insns[0].codeSize;
      InstructionIsShort(table, m, src, to);
      MovesWholeInstructions(table, m, src + n, done + n, min, max, to + n, insns[1..]);
      if done + n >= min {
        ToMoveEnds(table, m, src + n, done + n, min, max);
      }
    } else {
      ToMoveEnds(table, m, src, done, min, max);
    }
  }

  lemma ToMoveEnds(table: OpcodeTable, m: Memory, src: int, done: nat, min: int, max: int)
    requires done >= min
    ensures ToMove(table, m, src, done, min, max) == Some([])
  {
  }

  lemma TotalOfFront(insns: seq<Insn>, k: nat)
    requires 0 < k <= |insns|
    ensures Total(insns[..k]) == insns[0].codeSize + Total(insns[1..][..k - 1])
  {
    assert insns[..k][1..] == insns[1..][..k - 1];
  }

  /** The list is long enough and no longer than it must be, and it fits. */
  ghost predicate JustEnough(insns: seq<Insn>, done: nat, min: int, max: int) {
    && done + Total(insns) >= min
    && (forall k :: 0 <= k < |insns| ==> done + Total(insns[..k]) < min)
    && (insns != [] ==> done + Total(insns) < max)
  }

  lemma JustEnoughFirst(insns: seq<Insn>, done: nat, min: int, max: int)
    requires insns != []
    ensures JustEnough(insns, done, min, max)
       <==> done < min && done + insns[0].codeSize < max && JustEnough(insns[1..], done + insns[0].codeSize, min, max)
  {
    var n, rest := insns[0].codeSize, insns[1..];
    assert insns[..0] == [];
    if JustEnough(insns, done, min, max) {
      assert done + Total(insns[..0]) < min;
      forall k | 0 <= k < |rest|
        ensures done + n + Total(rest[..k]) < min
      {
        TotalOfFront(insns, k + 1);
        assert done + Total(insns[..k + 1]) < min;
      }
    }
    if done < min && done + n < max && JustEnough(rest, done + n, min, max) {
      forall k | 0 <= k < |insns|
        ensures done + Total(insns[..k]) < min
      {
        if k > 0 {
          TotalOfFront(insns, k);
          assert done + n + Total(rest[..k - 1]) < min;
        }
      }
    }
  }

  /**
   * What the loop moves, and so whether it succeeds: the one list of consecutive whole
   * instructions that is just enough.
   */
  lemma {:induction false} MovesExactly(
      table: OpcodeTable, m: Memory, src: int, done: nat, min: int, max: int, insns: seq<Insn>)
    ensures ToMove(table, m, src, done, min, max) == Some(insns)
       <==> Consecutive(table, m, src, insns) && JustEnough(insns, done, min, max)
    decreases |insns|
  {
    hide DecodeAt;
    if insns == [] {
      assert ToMove(table, m, src, done, min, max) == Some([]) ==> done >= min;
    } else {
      var i, rest := insns[0], insns[1..];
      hide JustEnough;
      JustEnoughFirst(insns, done, min, max);
      MovesExactly(table, m, src + i.codeSize, done + i.codeSize, min, max, rest);
      assert insns == [i] + rest;
    }
  }

  /** The loop: decode, check that it fits, relocate, emit, advance. */
  method RelocateCode(tables: seq<OpcodeTable>, m: Memory, src: int, buffer: array<Byte>, at: nat, base: int,
                      minCodeBytes: nat, maxBufferSize: nat)
    returns (totalBytes: nat)
    requires PrefixesFitAlong(Concat(tables), m, src, 0, minCodeBytes, maxBufferSize)
    requires at + maxBufferSize <= buffer.Length || at + minCodeBytes + MAX_INSTRUCTION <= buffer.Length
    modifies buffer
    ensures match ToMove(Concat(tables), m, src, 0, minCodeBytes, maxBufferSize)
            case None => totalBytes == 0 && buffer[..at] == old(buffer[..at])
            case Some(insns) =>
              var code := MovedCode(insns, base + at);
              && totalBytes == Total(insns) == |code| && at + |code| <= buffer.Length
              && buffer[..] == Written(old(buffer[..]), at, code)
  {
    hide DecodeAt, ToMove, Written, Encoding, RelocatedOperand, PrefixesFit, PrefixesFitAlong, Continues;
    ghost var table, s0 := Concat(tables), buffer[..];
    ghost var code: seq<Byte> := [];
    var opIter := new OpcodeIterator(m, src);
    var address, dst := base + at, at;
    totalBytes := 0;
    WrittenNothing(s0, at);
    Starts(table, m, src, minCodeBytes, maxBufferSize, base + at);
    while totalBytes < minCodeBytes
      invariant opIter.ptr == src + totalBytes && address == base + at + totalBytes && dst == at + totalBytes
      invariant totalBytes == |code| && at + |code| <= buffer.Length
      invariant totalBytes < maxBufferSize || totalBytes == 0
      invariant buffer[..] == Written(s0, at, code)
      invariant PrefixesFitAlong(table, m, src + totalBytes, totalBytes, minCodeBytes, maxBufferSize)
      invariant Continues(table, m, src, totalBytes, minCodeBytes, maxBufferSize, base + at, code)
      decreases minCodeBytes - totalBytes
    {
      var opcode := new Instruction();
      PrefixesFitOn(table, m, src + totalBytes, totalBytes, minCodeBytes, maxBufferSize);
      var result := opcode.Decode(tables, opIter);
      if !result {
        Fails(table, m, src, totalBytes, minCodeBytes, maxBufferSize, base + at, code);
        WrittenKeepsFront(s0, at, code);
        assert buffer[..at] == buffer[..][..at] && old(buffer[..at]) == s0[..at];
        return 0;
      }
      var opcodeSize := opcode.codeSize;
      ghost var i := opcode.State();
      InstructionIsShort(table, m, src + totalBytes, address);
      if totalBytes + opcodeSize >= maxBufferSize {
        Fails(table, m, src, totalBytes, minCodeBytes, maxBufferSize, base + at, code);
        WrittenKeepsFront(s0, at, code);
        assert buffer[..at] == buffer[..][..at] && old(buffer[..at]) == s0[..at];
        return 0;
      }
      Advances(table, m, src, totalBytes, minCodeBytes, maxBufferSize, base + at, code);
      opcode.Relocate(address);
      WrittenTwice(s0, at, code, Encoding(Relocated(i, address)));
      code := code + Encoding(Relocated(i, address));
      dst := opcode.Emit(buffer, dst);
      address := address + opcodeSize;
      totalBytes := totalBytes + opcodeSize;
    }
    Ends(table, m, src, totalBytes, minCodeBytes, maxBufferSize, base + at, code);
  }

  /** What is still to be moved completes what has been moved so far to the whole. */
  ghost predicate Continues(table: OpcodeTable, m: Memory, src: int, done: nat, min: nat, max: nat, to: int,
                            code: seq<Byte>) {
    var whole := ToMove(table, m, src, 0, min, max);
    var rest := ToMove(table, m, src + done, done, min, max);
    && (whole.None? <==> rest.None?)
    && (whole.Some? ==> MovedCode(whole.value, to) == code + MovedCode(rest.value, to + done))
    && (whole.Some? ==> Total(whole.value) == done + Total(rest.value))
  }

  lemma Starts(table: OpcodeTable, m: Memory, src: int, min: nat, max: nat, to: int)
    ensures Continues(table, m, src, 0, min, max, to, [])
  {
    hide ToMove, MovedCode, Total;
    var whole := ToMove(table, m, src, 0, min, max);
    assert whole.Some? ==> MovedCode(whole.value, to) == [] + MovedCode(whole.value, to);
  }

  lemma Fails(table: OpcodeTable, m: Memory, src: int, done: nat, min: nat, max: nat, to: int, code: seq<Byte>)
    requires Continues(table, m, src, done, min, max, to, code) && done < min
    requires var r := DecodeAt(table, m, src + done, FRESH); r.None? || done + r.value.codeSize >= max
    ensures ToMove(table, m, src, 0, min, max).None?
  {
    hide DecodeAt;
  }

  lemma Advances(table: OpcodeTable, m: Memory, src: int, done: nat, min: nat, max: nat, to: int, code: seq<Byte>)
    requires Continues(table, m, src, done, min, max, to, code) && done < min
    requires var r := DecodeAt(table, m, src + done, FRESH); r.Some? && done + r.value.codeSize < max
    ensures var i := DecodeAt(table, m, src + done, FRESH).value;
            Continues(table, m, src, done + i.codeSize, min, max, to, code + Encoding(Relocated(i, to + done)))
  {
    hide DecodeAt, Encoding, Relocated;
    var i := DecodeAt(table, m, src + done, FRESH).value;
    var rest := ToMove(table, m, src + done, done, min, max);
    if rest.Some? {
      hide ToMove;
      ToMoveFirst(table, m, src + done, done, min, max, rest.value);
    }
  }

  lemma Ends(table: OpcodeTable, m: Memory, src: int, done: nat, min: nat, max: nat, to: int, code: seq<Byte>)
    requires Continues(table, m, src, done, min, max, to, code) && done >= min
    ensures ToMove(table, m, src, 0, min, max).Some?
    ensures MovedCode(ToMove(table, m, src, 0, min, max).value, to) == code
    ensures Total(ToMove(table, m, src, 0, min, max).value) == done
  {
    ToMoveEnds(table, m, src + done, done, min, max);
  }
}
