/**
 * What a decoded instruction is, read off the bytes by arithmetic alone: which bytes are
 * prefixes, which entry of the tables it belongs to, where its parts lie and how long it is.
 */
module Ia32Layout {
  import opened Basics
  import opened Ia32Instruction

  // ----- prefixes and values

  /** LOCK and the repeats; FS, GS and the two size overrides; ES, CS, SS and DS. */
  lemma PrefixesInBits(b: Byte)
    ensures IsPrefix(b) <==> (b / 4 == 60 && b % 4 != 1) || b / 4 == 25 || (b / 32 == 1 && b % 8 == 6)
  {
  }

  /** Values are little-endian. */
  lemma ValueInBytes(m: Memory, p: int)
    ensures Value(m, p, 1) == m(p)
    ensures Value(m, p, 2) == m(p) + 0x100 * m(p + 1)
    ensures Value(m, p, 4) == m(p) + 0x100 * m(p + 1) + 0x1_0000 * m(p + 2) + 0x100_0000 * m(p + 3)
    ensures Value(m, p, 8) == Value(m, p, 4) + WORD * Value(m, p + 4, 4)
  {
    ValueInHalves(m, p, 2);
    ValueInHalves(m, p, 4);
    assert Value(m, p + 2, 2) == m(p + 2) + 0x100 * Value(m, p + 3, 1);
    assert Value(m, p + 3, 1) == m(p + 3);
    PowersOf256();
  }

  lemma PowersOf256()
    ensures Modulus(1) == 0x100 && Modulus(2) == 0x1_0000 && Modulus(4) == WORD
  {
    assert Modulus(2) == 256 * Modulus(1) && Modulus(3) == 256 * Modulus(2) && Modulus(4) == 256 * Modulus(3);
  }

  lemma ValueInHalves(m: Memory, p: int, n: nat)
    requires n == 2 || n == 4
    ensures Value(m, p, 2 * n) == Value(m, p, n) + Modulus(n) * Value(m, p + n, n)
  {
    PowersOf256();
    assert Value(m, p, 2) == m(p) + 256 * Value(m, p + 1, 1) && Value(m, p, 3) == m(p) + 256 * Value(m, p + 1, 2);
    hide Modulus;
    assert Value(m, p, 4) == m(p) + 256 * (m(p + 1) + 256 * Value(m, p + 2, 2));
    if n == 4 {
      assert Value(m, p, 8) == m(p) + 256 * (m(p + 1) + 256 * Value(m, p + 2, 6));
      assert Value(m, p + 2, 6) == m(p + 2) + 256 * (m(p + 3) + 256 * Value(m, p + 4, 4));
    }
  }

  // ----- the entry

  /** The bytes at `p` are those of entry `e`. */
  ghost predicate Stands(e: OpcodeInfo, m: Memory, p: int) {
    && (if e.prefix == 0 then m(p) == e.opcode else m(p) == e.prefix && m(p + 1) == e.opcode)
    && (e.postbyte < 0xFE ==> m(if e.prefix == 0 then p + 1 else p + 2) / 8 % 8 == e.postbyte)
  }

  lemma {:induction false} LookupIsFirst(table: OpcodeTable, m: Memory, p: int, n: nat)
    requires n <= |table| && forall j :: 0 <= j < n ==> !Stands(table[j], m, p)
    ensures Lookup(table, m, p) == if n == |table| then None
                                   else if Stands(table[n], m, p) then Some(table[n])
                                   else Lookup(table[n + 1..], m, p)
    decreases n
  {
    StandsMatches(m, p);
    hide Matches, Stands;
    if n > 0 {
      assert !Stands(table[0], m, p);
      assert forall j :: 0 <= j < n - 1 ==> table[1..][j] == table[j + 1];
      LookupIsFirst(table[1..], m, p, n - 1);
      assert n < |table| ==> table[1..][n - 1] == table[n] && table[1..][n..] == table[n + 1..];
    }
  }

  lemma StandsMatches(m: Memory, p: int)
    ensures forall e :: Stands(e, m, p) <==> Matches(e, m, p)
  {
  }

  lemma {:induction false} RunOfPrefixes(m: Memory, a: int, i: nat, k: nat, limit: nat)
    requires i <= k < limit && (forall j :: i <= j < k ==> PrefixAt(m, a, j)) && !PrefixAt(m, a, k)
    ensures PrefixRun(m, a, i, limit) == k
    decreases k - i
  {
    hide IsPrefix;
    if i < k {
      assert PrefixAt(m, a, i);
      RunOfPrefixes(m, a, i + 1, k, limit);
    }
  }

  /**
   * With `k` prefixes, the first entry of the tables that stands behind them decides: the
   * decoder takes it, or gives up if it is a terminator, and gives up if there is none.
   */
  lemma FirstEntryDecides(table: OpcodeTable, m: Memory, a: int, was: Insn, k: nat, n: nat)
    requires k <= 4 && (forall j :: 0 <= j < k ==> IsPrefix(Read(m, a, k)[j])) && !IsPrefix(m(a + k))
    requires n <= |table| && forall j :: 0 <= j < n ==> !Stands(table[j], m, a + k)
    requires n < |table| ==> Stands(table[n], m, a + k)
    ensures var r := DecodeAt(table, m, a, was);
            && (r.Some? <==> n < |table| && !table[n].terminator)
            && (r.Some? ==> r.value.info == Some(table[n]) && r.value.address == a)
            && (r.Some? ==> r.value.prefixes == Read(m, a, k))
  {
    forall j | 0 <= j < k
      ensures PrefixAt(m, a, j)
    {
      assert IsPrefix(Read(m, a, k)[j]);
    }
    RunOfPrefixes(m, a, 0, k, 5);
    LookupIsFirst(table, m, a + k, n);
    hide Lookup, OperandStart, DisplacementStart, DisplacementTypeAt, ModRMAt, SibAt, OperandAt, StreamSize,
         OpcodeLength, IsPrefix, Stands;
  }

  // ----- the parts and their places

  /** The bytes that an operand takes from the instruction. */
  function Width(t: OperandType): nat {
    if t == Imm8 || t == Rel8 then 1
    else if t == Imm16 || t == Rel16 then 2
    else if t == Imm || t == Rel || t == Imm32 || t == Rel32 then 4
    else if t == Imm64 || t == Rel64 then 8
    else 0
  }

  /** The operand is what stands at `p`, or what the object held before if it is not used. */
  ghost predicate Holds(op: Operand, t: OperandType, stale: Operand, m: Memory, p: int) {
    op == if t == NoOperand || t == Pend then stale else Operand(t, Width(t), Value(m, p, Width(t)))
  }

  lemma Widths(t: OperandType)
    ensures StreamSize(t) == Width(t)
  {
  }

  lemma OperandHolds(stale: Operand, t: OperandType, m: Memory, p: int)
    ensures Holds(OperandAt(stale, t, m, p), t, stale, m, p)
  {
    Widths(t);
  }

  /** The postbytes of entry `e` when the bytes behind the opcode are `b` and `s`. */
  function ModRMBytes(e: OpcodeInfo): nat {
    if e.postbyte == 0xFF then 0 else 1
  }

  function SibBytes(e: OpcodeInfo, b: Byte): nat {
    if e.postbyte != 0xFF && b / 64 != 3 && b % 8 == 4 then 1 else 0
  }

  function DisplacementBytes(e: OpcodeInfo, b: Byte, s: Byte): nat {
    if e.postbyte == 0xFF then 0
    else if b / 64 == 1 then 1
    else if b / 64 == 2 || (b / 64 == 0 && (b % 8 == 5 || (b % 8 == 4 && s % 8 == 5))) then 4
    else 0
  }

  lemma Postfix(e: OpcodeInfo, m: Memory, q: int)
    ensures var b, s := m(q), m(q + 1);
            && ModRMAt(e, m, q) == (if ModRMBytes(e) == 1 then Some(b) else None)
            && SibAt(e, m, q) == (if SibBytes(e, b) == 1 then Some(s) else None)
            && DisplacementStart(e, m, q) == q + ModRMBytes(e) + SibBytes(e, b)
            && DisplacementTypeAt(e, m, q) == DisplacementKind(DisplacementBytes(e, b, s))
  {
  }

  function DisplacementKind(n: nat): OperandType {
    if n == 1 then Imm8 else if n == 4 then Imm else NoOperand
  }

  /** The parts of `i` lie one behind the other from `a` on, and its size is theirs together. */
  ghost predicate LaidOut(i: Insn, m: Memory, a: int, was: Insn)
    requires i.info.Some?
  {
    LaidOutBehind(i, i.info.value, m, a, a + |i.prefixes| + if i.info.value.prefix == 0 then 1 else 2, was)
  }

  /** The parts behind the opcode, which ends at `q`. */
  ghost predicate LaidOutBehind(i: Insn, e: OpcodeInfo, m: Memory, a: int, q: int, was: Insn) {
    var b, s := m(q), m(q + 1);
    var d := q + ModRMBytes(e) + SibBytes(e, b);
    var o := d + DisplacementBytes(e, b, s);
    && i.modRM == (if ModRMBytes(e) == 1 then Some(b) else None)
    && i.sib == (if SibBytes(e, b) == 1 then Some(s) else None)
    && Holds(i.displacement, DisplacementKind(DisplacementBytes(e, b, s)), was.displacement, m, d)
    && OperandsHold(i, e, m, o, was)
    && a + i.codeSize == o + Width(e.dst) + Width(e.src1) + Width(e.src2)
  }

  ghost predicate OperandsHold(i: Insn, e: OpcodeInfo, m: Memory, o: int, was: Insn) {
    && Holds(i.dst, e.dst, was.dst, m, o)
    && Holds(i.src1, e.src1, was.src1, m, o + Width(e.dst))
    && Holds(i.src2, e.src2, was.src2, m, o + Width(e.dst) + Width(e.src1))
  }

  lemma OperandsOf(e: OpcodeInfo, m: Memory, o: int, was: Insn, i: Insn)
    requires var o1 := o + StreamSize(e.dst);
             && i.dst == OperandAt(was.dst, e.dst, m, o) && i.src1 == OperandAt(was.src1, e.src1, m, o1)
             && i.src2 == OperandAt(was.src2, e.src2, m, o1 + StreamSize(e.src1))
    ensures OperandsHold(i, e, m, o, was)
  {
    Widths(e.dst);
    Widths(e.src1);
    OperandHolds(was.dst, e.dst, m, o);
    OperandHolds(was.src1, e.src1, m, o + StreamSize(e.dst));
    OperandHolds(was.src2, e.src2, m, o + StreamSize(e.dst) + StreamSize(e.src1));
    hide Holds, Width, StreamSize, OperandAt;
  }

  /** The same in terms of the functions that the decoder goes by. */
  lemma PartsOf(e: OpcodeInfo, m: Memory, a: int, was: Insn)
    ensures var i, q := DecodeAs(e, m, a, was), a + PrefixCount(m, a) + OpcodeLength(e);
            var d, t := DisplacementStart(e, m, q), DisplacementTypeAt(e, m, q);
            var o := d + StreamSize(t);
            var o1 := o + StreamSize(e.dst);
            && i.info == Some(e) && |i.prefixes| == PrefixCount(m, a)
            && i.modRM == ModRMAt(e, m, q) && i.sib == SibAt(e, m, q)
            && i.displacement == OperandAt(was.displacement, t, m, d)
            && i.dst == OperandAt(was.dst, e.dst, m, o) && i.src1 == OperandAt(was.src1, e.src1, m, o1)
            && i.src2 == OperandAt(was.src2, e.src2, m, o1 + StreamSize(e.src1))
            && a + i.codeSize == o1 + StreamSize(e.src1) + StreamSize(e.src2)
  {
    hide PrefixCount, OpcodeLength, DisplacementStart, DisplacementTypeAt, StreamSize, ModRMAt, SibAt, OperandAt;
    assert OperandStart(e, m, a + PrefixCount(m, a) + OpcodeLength(e)) >= a by {
      StartsBehind(e, m, a + PrefixCount(m, a) + OpcodeLength(e));
    }
  }

  lemma StartsBehind(e: OpcodeInfo, m: Memory, q: int)
    ensures OperandStart(e, m, q) >= DisplacementStart(e, m, q) >= q
  {
  }

  lemma LayoutOf(e: OpcodeInfo, m: Memory, a: int, was: Insn)
    ensures LaidOut(DecodeAs(e, m, a, was), m, a, was)
  {
    hide DecodeAs, DisplacementStart, DisplacementTypeAt, StreamSize, ModRMAt, SibAt, OperandAt, OpcodeLength,
         PrefixCount, LaidOutBehind;
    var i, q := DecodeAs(e, m, a, was), a + PrefixCount(m, a) + OpcodeLength(e);
    OpcodeBytesOf(e);
    PartsOf(e, m, a, was);
    PartsBehind(i, e, m, a, q, was);
  }

  lemma OpcodeBytesOf(e: OpcodeInfo)
    ensures OpcodeLength(e) == if e.prefix == 0 then 1 else 2
  {
  }

  lemma PartsBehind(i: Insn, e: OpcodeInfo, m: Memory, a: int, q: int, was: Insn)
    requires var d, t := DisplacementStart(e, m, q), DisplacementTypeAt(e, m, q);
             var o := d + StreamSize(t);
             var o1 := o + StreamSize(e.dst);
             && i.modRM == ModRMAt(e, m, q) && i.sib == SibAt(e, m, q)
             && i.displacement == OperandAt(was.displacement, t, m, d)
             && i.dst == OperandAt(was.dst, e.dst, m, o) && i.src1 == OperandAt(was.src1, e.src1, m, o1)
             && i.src2 == OperandAt(was.src2, e.src2, m, o1 + StreamSize(e.src1))
             && a + i.codeSize == o1 + StreamSize(e.src1) + StreamSize(e.src2)
    ensures LaidOutBehind(i, e, m, a, q, was)
  {
    hide Holds, OperandsHold, Width, OperandAt, ModRMAt, SibAt, DisplacementTypeAt, DisplacementStart, StreamSize,
         ModRMBytes, SibBytes, DisplacementBytes, DisplacementKind;
    var d, t := DisplacementStart(e, m, q), DisplacementTypeAt(e, m, q);
    Postfix(e, m, q);
    OperandHolds(was.displacement, t, m, d);
    OperandsOf(e, m, d + StreamSize(t), was, i);
    DisplacementSize(e, m(q), m(q + 1));
    Widths(e.dst);
    Widths(e.src1);
    Widths(e.src2);
  }

  lemma DisplacementSize(e: OpcodeInfo, b: Byte, s: Byte)
    ensures StreamSize(DisplacementKind(DisplacementBytes(e, b, s))) == DisplacementBytes(e, b, s)
  {
  }

  /**
   * The length of every decoded instruction and the place of each of its parts: prefixes,
   * opcode, ModRM, SIB, displacement and operands.
   */
  lemma InstructionLayout(table: OpcodeTable, m: Memory, a: int, was: Insn)
    requires DecodeAt(table, m, a, was).Some?
    ensures LaidOut(DecodeAt(table, m, a, was).value, m, a, was)
  {
    hide LaidOut, DecodeAs, Lookup;
    LayoutOf(DecodeAt(table, m, a, was).value.info.value, m, a, was);
    DecodedAs(table, m, a, was);
  }

  lemma DecodedAs(table: OpcodeTable, m: Memory, a: int, was: Insn)
    requires DecodeAt(table, m, a, was).Some?
    ensures var i := DecodeAt(table, m, a, was).value; i == DecodeAs(i.info.value, m, a, was)
  {
    hide Lookup, OperandStart, DisplacementStart, DisplacementTypeAt, ModRMAt, SibAt, OperandAt, StreamSize, Read;
  }
}
