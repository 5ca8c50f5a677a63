/**
 * IA-32 instructions as CodeHook takes them apart, moves them and puts them together
 * again.  `DecodeAt`, `Relocated` and `Encoding` are the three operations on values;
 * the classes are the code.  The opcode tables are a parameter throughout.
 */
module Ia32Instruction {
  import opened Basics

  /** Process memory as the decoder reads it. */
  type Memory = int -> Byte

  const MACHINE_SIZE := 4
  const MAX_PREFIX_BYTES := 4
  const POSTBYTE_REGISTER: Byte := 0xFE
  const POSTBYTE_NONE: Byte := 0xFF
  const WORD := 0x1_0000_0000
  const QWORD := 0x1_0000_0000_0000_0000

  datatype OperandType =
    | GpReg | GpReg8 | SReg
    | MRMr | MRMsr | MRMr8 | MRM | MRM8
    | Imm | Imm8 | Imm16 | Imm32 | Imm64
    | Rel | Rel8 | Rel16 | Rel32 | Rel64
    | NoOperand | Pend

  predicate IsRelative(t: OperandType) {
    t.Rel? || t.Rel8? || t.Rel16? || t.Rel32? || t.Rel64?
  }

  predicate IsLeftAlone(t: OperandType) {
    t.NoOperand? || t.Pend?
  }

  /** The number of bytes an operand of this type takes from the instruction stream; registers and memory take none. */
  function StreamSize(t: OperandType): (n: nat)
    ensures n in {0, 1, 2, 4, 8}
    ensures IsRelative(t) ==> n > 0
  {
    match t
    case Imm => MACHINE_SIZE
    case Rel => MACHINE_SIZE
    case Imm8 => 1
    case Rel8 => 1
    case Imm16 => 2
    case Rel16 => 2
    case Imm32 => 4
    case Rel32 => 4
    case Imm64 => 8
    case Rel64 => 8
    case _ => 0
  }

  datatype OpcodeInfo = OpcodeInfo(
    prefix: Byte, opcode: Byte, postbyte: Byte,
    dst: OperandType, src1: OperandType, src2: OperandType, terminator: bool)

  type OpcodeTable = seq<OpcodeInfo>

  datatype Operand = Operand(kind: OperandType, size: nat, value: nat)

  const NONE := Operand(NoOperand, 0, 0)

  datatype Insn = Insn(
    info: Option<OpcodeInfo>, address: int, codeSize: nat, prefixes: seq<Byte>,
    modRM: Option<Byte>, sib: Option<Byte>, displacement: Operand,
    dst: Operand, src1: Operand, src2: Operand)

  const FRESH := Insn(None, 0, 0, [], None, None, NONE, NONE, NONE, NONE)

  // ----- little-endian values

  function Read(m: Memory, a: int, n: nat): (bytes: seq<Byte>)
    ensures |bytes| == n
    ensures forall i :: 0 <= i < n ==> bytes[i] == m(a + i)
  {
    seq(n, i requires 0 <= i < n => m(a + i))
  }

  function Value(m: Memory, a: int, n: nat): nat
    decreases n
  {
    if n == 0 then 0 else m(a) + 256 * Value(m, a + 1, n - 1)
  }

  function Modulus(n: nat): (m: nat)
    ensures m > 0
  {
    if n == 0 then 1 else 256 * Modulus(n - 1)
  }

  lemma {:induction false} ValueBytes(m: Memory, a: int, n: nat)
    ensures LittleEndian(Value(m, a, n), n) == Read(m, a, n) && Value(m, a, n) < Modulus(n)
    decreases n
  {
    if n > 0 {
      ValueBytes(m, a + 1, n - 1);
      assert Read(m, a, n) == [m(a)] + Read(m, a + 1, n - 1);
    }
  }

  lemma {:induction false} BytesValue(m: Memory, a: int, v: nat, n: nat)
    requires v < Modulus(n) && Read(m, a, n) == LittleEndian(v, n)
    ensures Value(m, a, n) == v
    decreases n
  {
    if n > 0 {
      assert m(a) == Read(m, a, n)[0] == v % 256;
      assert Read(m, a + 1, n - 1) == Read(m, a, n)[1..] == LittleEndian(v / 256, n - 1);
      BytesValue(m, a + 1, v / 256, n - 1);
    }
  }

  lemma ReadSplit(m: Memory, a: int, i: nat, n: nat)
    ensures Read(m, a, i + n) == Read(m, a, i) + Read(m, a + i, n)
  {
  }

  // ----- decoding

  predicate IsPrefix(b: Byte) {
    b in {0xF0, 0xF2, 0xF3, 0x66, 0x67, 0x26, 0x2E, 0x36, 0x3E, 0x64, 0x65}
  }

  predicate PrefixAt(m: Memory, a: int, i: int) {
    IsPrefix(m(a + i))
  }

  /** The end of the row of prefixes that continues at `a + i`, looking no further than `limit`. */
  function PrefixRun(m: Memory, a: int, i: nat, limit: nat): (n: nat)
    requires i <= limit
    ensures i <= n <= limit
    ensures forall j :: i <= j < n ==> PrefixAt(m, a, j)
    ensures n < limit ==> !PrefixAt(m, a, n)
    decreases limit - i
  {
    if i < limit && PrefixAt(m, a, i) then PrefixRun(m, a, i + 1, limit) else i
  }

  function PrefixCount(m: Memory, a: int): nat {
    PrefixRun(m, a, 0, MAX_PREFIX_BYTES + 1)
  }

  /** The decoder's prefix buffer is large enough for the instruction at `a`. */
  predicate PrefixesFit(m: Memory, a: int) {
    PrefixCount(m, a) <= MAX_PREFIX_BYTES
  }

  function Mode(modRM: Byte): Byte { modRM / 64 }
  function RegisterOrOpcode(modRM: Byte): Byte { modRM / 8 % 8 }
  function RegisterOrMode(modRM: Byte): Byte { modRM % 8 }
  function SibBase(sib: Byte): Byte { sib % 8 }

  predicate HasSib(modRM: Byte) {
    Mode(modRM) != 3 && RegisterOrMode(modRM) == 4
  }

  function OpcodeLength(e: OpcodeInfo): nat {
    if e.prefix != 0 then 2 else 1
  }

  predicate Matches(e: OpcodeInfo, m: Memory, p: int) {
    && (if e.prefix != 0 then m(p) == e.prefix && m(p + 1) == e.opcode else m(p) == e.opcode)
    && (e.postbyte == POSTBYTE_NONE || e.postbyte == POSTBYTE_REGISTER
      || RegisterOrOpcode(m(p + OpcodeLength(e))) == e.postbyte)
  }

  /** The first entry that matches. */
  function Lookup(table: OpcodeTable, m: Memory, p: int): (r: Option<OpcodeInfo>)
    ensures r.Some? ==> r.value in table && Matches(r.value, m, p)
    ensures r.None? ==> forall e :: e in table ==> !Matches(e, m, p)
  {
    if table == [] then None
    else if Matches(table[0], m, p) then Some(table[0])
    else Lookup(table[1..], m, p)
  }

  function OperandAt(stale: Operand, t: OperandType, m: Memory, p: int): Operand {
    if IsLeftAlone(t) then stale
    else Operand(t, StreamSize(t), Value(m, p, StreamSize(t)))
  }

  /** The postbytes of entry `e` at `q`: ModRM, SIB, and the type and place of the displacement. */
  function ModRMAt(e: OpcodeInfo, m: Memory, q: int): Option<Byte> {
    if e.postbyte != POSTBYTE_NONE then Some(m(q)) else None
  }

  function SibAt(e: OpcodeInfo, m: Memory, q: int): Option<Byte> {
    if e.postbyte != POSTBYTE_NONE && HasSib(m(q)) then Some(m(q + 1)) else None
  }

  function DisplacementType(modRM: Option<Byte>, sib: Option<Byte>): OperandType {
    match modRM
    case None => NoOperand
    case Some(b) =>
      if Mode(b) == 0 then
        if RegisterOrMode(b) == 5 || (sib.Some? && SibBase(sib.value) == 5) then Imm else NoOperand
      else if Mode(b) == 2 then Imm
      else if Mode(b) == 1 then Imm8
      else NoOperand
  }

  function DisplacementTypeAt(e: OpcodeInfo, m: Memory, q: int): OperandType {
    DisplacementType(ModRMAt(e, m, q), SibAt(e, m, q))
  }

  function DisplacementStart(e: OpcodeInfo, m: Memory, q: int): int {
    q + |OptionBytes(ModRMAt(e, m, q))| + |OptionBytes(SibAt(e, m, q))|
  }

  function OperandStart(e: OpcodeInfo, m: Memory, q: int): int {
    DisplacementStart(e, m, q) + StreamSize(DisplacementTypeAt(e, m, q))
  }

  /**
   * The instruction at `a` under entry `e`; `was` is the object's earlier contents, of which unused operands
   * survive.
   */
  function DecodeAs(e: OpcodeInfo, m: Memory, a: int, was: Insn): Insn {
    var q := a + PrefixCount(m, a) + OpcodeLength(e);
    var o := OperandStart(e, m, q);
    var o1 := o + StreamSize(e.dst);
    var o2 := o1 + StreamSize(e.src1);
    Insn(Some(e), a, o2 + StreamSize(e.src2) - a,
         Read(m, a, PrefixCount(m, a)), ModRMAt(e, m, q), SibAt(e, m, q),
         OperandAt(was.displacement, DisplacementTypeAt(e, m, q), m, DisplacementStart(e, m, q)),
         OperandAt(was.dst, e.dst, m, o), OperandAt(was.src1, e.src1, m, o1), OperandAt(was.src2, e.src2, m, o2))
  }

  function DecodeAt(table: OpcodeTable, m: Memory, a: int, was: Insn): (r: Option<Insn>)
    ensures r.Some? ==> r.value.info.Some? && r.value.address == a && r.value.codeSize > 0
  {
    match Lookup(table, m, a + PrefixCount(m, a))
    case None => None
    case Some(e) => if e.terminator then None else Some(DecodeAs(e, m, a, was))
  }

  // ----- encoding

  function OperandBytes(op: Operand): seq<Byte> {
    LittleEndian(op.value, op.size)
  }

  function OptionBytes(b: Option<Byte>): seq<Byte> {
    if b.Some? then [b.value] else []
  }

  function OpcodeBytes(e: OpcodeInfo): seq<Byte> {
    (if e.prefix != 0 then [e.prefix] else []) + [e.opcode]
  }

  function Head(i: Insn): seq<Byte> {
    i.prefixes + (if i.info.Some? then OpcodeBytes(i.info.value) else []) + OptionBytes(i.modRM) + OptionBytes(i.sib)
      + OperandBytes(i.displacement)
  }

  function Encoding(i: Insn): seq<Byte> {
    Head(i) + OperandBytes(i.dst) + OperandBytes(i.src1) + OperandBytes(i.src2)
  }

  // ----- relocation

  function RelocatedOperand(op: Operand, from: int, to: int, codeSize: nat): Operand {
    if IsRelative(op.kind)
    then op.(value := (from + codeSize + op.value - (to + codeSize)) % QWORD % Modulus(op.size))
    else op
  }

  function Relocated(i: Insn, to: int): Insn {
    i.(address := to,
       dst := RelocatedOperand(i.dst, i.address, to, i.codeSize),
       src1 := RelocatedOperand(i.src1, i.address, to, i.codeSize),
       src2 := RelocatedOperand(i.src2, i.address, to, i.codeSize))
  }

  // ----- the three operations together

  /** The bytes of earlier contents that decoding under entry `e` leaves in operands it does not use. */
  function StaleBytes(e: OpcodeInfo, displacement: OperandType, was: Insn): nat {
    (if IsLeftAlone(displacement) then was.displacement.size else 0) + (if IsLeftAlone(e.dst) then was.dst.size else 0)
    + (if IsLeftAlone(e.src1) then was.src1.size else 0) + (if IsLeftAlone(e.src2) then was.src2.size else 0)
  }

  lemma OperandBytesRead(stale: Operand, t: OperandType, m: Memory, p: int)
    requires IsLeftAlone(t) ==> stale.size == 0
    ensures OperandBytes(OperandAt(stale, t, m, p)) == Read(m, p, StreamSize(t))
  {
    ValueBytes(m, p, StreamSize(t));
  }

  lemma PostfixRead(e: OpcodeInfo, m: Memory, q: int, stale: Operand)
    requires IsLeftAlone(DisplacementTypeAt(e, m, q)) ==> stale.size == 0
    ensures OptionBytes(ModRMAt(e, m, q)) + OptionBytes(SibAt(e, m, q))
            + OperandBytes(OperandAt(stale, DisplacementTypeAt(e, m, q), m, DisplacementStart(e, m, q)))
         == Read(m, q, OperandStart(e, m, q) - q)
  {
    var d := DisplacementStart(e, m, q);
    assert OptionBytes(ModRMAt(e, m, q)) + OptionBytes(SibAt(e, m, q)) == Read(m, q, d - q);
    OperandBytesRead(stale, DisplacementTypeAt(e, m, q), m, d);
    ReadSplit(m, q, d - q, OperandStart(e, m, q) - d);
  }

  lemma OperandsRead(e: OpcodeInfo, m: Memory, o: int, was: Insn)
    requires StaleBytes(e, Imm, was) == 0
    ensures var n, n1, n2 := StreamSize(e.dst), StreamSize(e.src1), StreamSize(e.src2);
            OperandBytes(OperandAt(was.dst, e.dst, m, o)) + OperandBytes(OperandAt(was.src1, e.src1, m, o + n))
            + OperandBytes(OperandAt(was.src2, e.src2, m, o + n + n1)) == Read(m, o, n + n1 + n2)
  {
    var n, n1, n2 := StreamSize(e.dst), StreamSize(e.src1), StreamSize(e.src2);
    OperandBytesRead(was.dst, e.dst, m, o);
    OperandBytesRead(was.src1, e.src1, m, o + n);
    OperandBytesRead(was.src2, e.src2, m, o + n + n1);
    ReadSplit(m, o, n, n1);
    ReadSplit(m, o, n + n1, n2);
  }

  lemma HeadRead(e: OpcodeInfo, m: Memory, a: int, was: Insn)
    requires Matches(e, m, a + PrefixCount(m, a))
    requires var q := a + PrefixCount(m, a) + OpcodeLength(e);
             IsLeftAlone(DisplacementTypeAt(e, m, q)) ==> was.displacement.size == 0
    ensures Head(DecodeAs(e, m, a, was)) == Read(m, a, OperandStart(e, m, a + PrefixCount(m, a) + OpcodeLength(e)) - a)
  {
    hide OperandAt, OperandBytes, ModRMAt, SibAt, DisplacementTypeAt, OptionBytes, PrefixCount;
    var i := DecodeAs(e, m, a, was);
    var p := a + PrefixCount(m, a);
    var q := p + OpcodeLength(e);
    var o := OperandStart(e, m, q);
    assert OpcodeBytes(e) == Read(m, p, OpcodeLength(e));
    PostfixRead(e, m, q, was.displacement);
    ReadSplit(m, a, p - a, q - p);
    ReadSplit(m, a, q - a, o - q);
    assert Head(i) == i.prefixes + OpcodeBytes(e)
           + (OptionBytes(i.modRM) + OptionBytes(i.sib) + OperandBytes(i.displacement));
  }

  lemma EncodingWhenNothingStale(e: OpcodeInfo, m: Memory, a: int, was: Insn)
    requires StaleBytes(e, DisplacementTypeAt(e, m, a + PrefixCount(m, a) + OpcodeLength(e)), was) == 0
    requires Matches(e, m, a + PrefixCount(m, a))
    ensures var i := DecodeAs(e, m, a, was);
            Encoding(i) == Read(m, a, i.codeSize)
  {
    hide OperandAt, OperandBytes, ModRMAt, SibAt, DisplacementTypeAt, OptionBytes, PrefixCount, Matches, Head, Read,
         OperandStart;
    var i := DecodeAs(e, m, a, was);
    var o := OperandStart(e, m, a + PrefixCount(m, a) + OpcodeLength(e));
    HeadRead(e, m, a, was);
    OperandsRead(e, m, o, was);
    OperandsFollowHead(e, m, a);
    ReadSplit(m, a, o - a, i.codeSize - (o - a));
    assert Encoding(i) == Head(i) + (OperandBytes(i.dst) + OperandBytes(i.src1) + OperandBytes(i.src2));
  }

  lemma OperandsFollowHead(e: OpcodeInfo, m: Memory, a: int)
    ensures a <= a + PrefixCount(m, a) < OperandStart(e, m, a + PrefixCount(m, a) + OpcodeLength(e))
  {
  }

  lemma EncodingSize(e: OpcodeInfo, m: Memory, a: int, was: Insn)
    ensures var i := DecodeAs(e, m, a, was);
            |Encoding(i)|
              == i.codeSize + StaleBytes(e, DisplacementTypeAt(e, m, a + PrefixCount(m, a) + OpcodeLength(e)), was)
  {
    hide ModRMAt, SibAt, DisplacementTypeAt, OptionBytes, PrefixCount, Value, LittleEndian;
  }

  /**
   * Putting a decoded instruction together again gives back the bytes it was read from,
   * and as many as the size it reports, if and only if the object had no bytes left over
   * in the operands this instruction does not use.  A fresh object has none.
   */
  lemma EncodingOfDecoded(table: OpcodeTable, m: Memory, a: int, was: Insn)
    requires DecodeAt(table, m, a, was).Some?
    ensures var i := DecodeAt(table, m, a, was).value;
            && (Encoding(i) == Read(m, a, i.codeSize) <==>
                StaleBytes(i.info.value, DisplacementType(i.modRM, i.sib), was) == 0)
            && (was == FRESH ==> StaleBytes(i.info.value, DisplacementType(i.modRM, i.sib), was) == 0)
  {
    hide OperandAt, OperandBytes, ModRMAt, SibAt, OptionBytes, PrefixCount, OperandStart, Head, Encoding, Read;
    var i := DecodeAt(table, m, a, was).value;
    var e := i.info.value;
    var q := a + PrefixCount(m, a) + OpcodeLength(e);
    assert DisplacementType(i.modRM, i.sib) == DisplacementTypeAt(e, m, q);
    if StaleBytes(e, DisplacementTypeAt(e, m, q), was) == 0 {
      EncodingWhenNothingStale(e, m, a, was);
    } else {
      EncodingSize(e, m, a, was);
    }
  }

  // ----- decoding what was put together

  /** No entry's meaning depends on bytes outside its own instruction. */
  ghost predicate WellFormed(table: OpcodeTable) {
    forall e, f :: e in table && f in table ==> Compatible(e, f)
  }

  ghost predicate Compatible(e: OpcodeInfo, f: OpcodeInfo) {
    && (e.prefix == 0 && f.prefix != 0 ==> e.opcode != f.prefix)
    && (e.prefix == f.prefix && e.opcode == f.opcode ==> (e.postbyte == POSTBYTE_NONE <==> f.postbyte == POSTBYTE_NONE))
  }

  ghost predicate SameBytes(m: Memory, a: int, m2: Memory, b: int, n: int) {
    forall j :: 0 <= j < n ==> SameByte(m, a, m2, b, j)
  }

  ghost predicate SameByte(m: Memory, a: int, m2: Memory, b: int, j: int) {
    m2(b + j) == m(a + j)
  }

  lemma {:induction false} SamePrefixes(m: Memory, a: int, m2: Memory, b: int, i: nat, limit: nat)
    requires i <= limit && PrefixRun(m, a, i, limit) < limit
    requires forall j :: i <= j <= PrefixRun(m, a, i, limit) ==> PrefixAt(m2, b, j) == PrefixAt(m, a, j)
    ensures PrefixRun(m2, b, i, limit) == PrefixRun(m, a, i, limit)
    decreases limit - i
  {
    assert PrefixAt(m2, b, i) == PrefixAt(m, a, i);
    if PrefixAt(m, a, i) {
      SamePrefixes(m, a, m2, b, i + 1, limit);
    }
  }

  lemma SameMatch(table: OpcodeTable, e: OpcodeInfo, f: OpcodeInfo, m: Memory, p: int, m2: Memory, p2: int)
    requires WellFormed(table) && e in table && f in table && Matches(e, m, p)
    requires SameBytes(m, p, m2, p2, OpcodeLength(e) + |OptionBytes(ModRMAt(e, m, p + OpcodeLength(e)))|)
    ensures Matches(f, m, p) <==> Matches(f, m2, p2)
  {
    assert Compatible(e, f) && Compatible(f, e);
    assert SameByte(m, p, m2, p2, 0);
    if e.prefix != 0 {
      assert SameByte(m, p, m2, p2, 1);
    }
    if e.postbyte != POSTBYTE_NONE {
      assert SameByte(m, p, m2, p2, OpcodeLength(e));
    }
  }

  lemma {:induction false} SameLookup(table: OpcodeTable, m: Memory, p: int, m2: Memory, p2: int)
    requires forall f :: f in table ==> (Matches(f, m, p) <==> Matches(f, m2, p2))
    ensures Lookup(table, m, p) == Lookup(table, m2, p2)
  {
    if table != [] {
      assert Matches(table[0], m, p) <==> Matches(table[0], m2, p2);
      SameLookup(table[1..], m, p, m2, p2);
    }
  }

  lemma SameRead(m: Memory, a: int, m2: Memory, b: int, n: nat)
    requires SameBytes(m, a, m2, b, n)
    ensures Read(m2, b, n) == Read(m, a, n)
  {
    forall j | 0 <= j < n
      ensures Read(m2, b, n)[j] == Read(m, a, n)[j]
    {
      assert SameByte(m, a, m2, b, j);
    }
  }

  lemma SameValue(m: Memory, a: int, m2: Memory, b: int, n: nat)
    requires SameBytes(m, a, m2, b, n)
    ensures Value(m, a, n) == Value(m2, b, n)
  {
    ValueBytes(m, a, n);
    SameRead(m, a, m2, b, n);
    BytesValue(m2, b, Value(m, a, n), n);
  }

  lemma SameRelocated(op: Operand, from: int, to: int, codeSize: nat)
    requires op.value < Modulus(op.size)
    ensures var op2 := RelocatedOperand(op, from, to, codeSize);
            op2.size == op.size && op2.kind == op.kind && op2.value < Modulus(op.size)
  {
  }

  /** An operand read back from where its relocated bytes were put. */
  lemma OperandReadBack(t: OperandType, m: Memory, p: int, m2: Memory, p2: int, from: int, to: int, codeSize: nat)
    requires var op := RelocatedOperand(OperandAt(NONE, t, m, p), from, to, codeSize);
             Read(m2, p2, op.size) == OperandBytes(op)
    ensures OperandAt(NONE, t, m2, p2) == RelocatedOperand(OperandAt(NONE, t, m, p), from, to, codeSize)
  {
    var op := OperandAt(NONE, t, m, p);
    ValueBytes(m, p, op.size);
    SameRelocated(op, from, to, codeSize);
    var op2 := RelocatedOperand(op, from, to, codeSize);
    BytesValue(m2, p2, op2.value, op2.size);
  }

  lemma SameBytesWithin(m: Memory, a: int, m2: Memory, b: int, n: int, k: int, n1: int)
    requires SameBytes(m, a, m2, b, n) && 0 <= k && k + n1 <= n
    ensures SameBytes(m, a + k, m2, b + k, n1)
  {
    var a', b' := a + k, b + k;
    forall j | 0 <= j < n1
      ensures SameByte(m, a', m2, b', j)
    {
      assert SameByte(m, a, m2, b, k + j);
    }
  }

  /** Everything in front of the operands is read back unchanged. */
  lemma HeadReadBack(e: OpcodeInfo, m: Memory, q: int, m2: Memory, q2: int)
    requires SameBytes(m, q, m2, q2, OperandStart(e, m, q) - q)
    ensures ModRMAt(e, m2, q2) == ModRMAt(e, m, q) && SibAt(e, m2, q2) == SibAt(e, m, q)
    ensures OperandStart(e, m2, q2) - q2 == OperandStart(e, m, q) - q
    ensures OperandAt(NONE, DisplacementTypeAt(e, m2, q2), m2, DisplacementStart(e, m2, q2))
         == OperandAt(NONE, DisplacementTypeAt(e, m, q), m, DisplacementStart(e, m, q))
  {
    if e.postbyte != POSTBYTE_NONE {
      assert SameByte(m, q, m2, q2, 0);
      if HasSib(m(q)) {
        assert SameByte(m, q, m2, q2, 1);
      }
    }
    var d := DisplacementStart(e, m, q) - q;
    var n := StreamSize(DisplacementTypeAt(e, m, q));
    SameBytesWithin(m, q, m2, q2, OperandStart(e, m, q) - q, d, n);
    SameValue(m, q + d, m2, q2 + d, n);
  }

  /** The same head is found again at `b`, whatever has become of the relative operands. */
  lemma EntryReadBack(table: OpcodeTable, e: OpcodeInfo, m: Memory, a: int, m2: Memory, b: int)
    requires WellFormed(table) && PrefixesFit(m, a)
    requires Lookup(table, m, a + PrefixCount(m, a)) == Some(e)
    requires SameBytes(m, a, m2, b, OperandStart(e, m, a + PrefixCount(m, a) + OpcodeLength(e)) - a)
    ensures PrefixCount(m2, b) == PrefixCount(m, a)
    ensures Read(m2, b, PrefixCount(m, a)) == Read(m, a, PrefixCount(m, a))
    ensures Lookup(table, m2, b + PrefixCount(m2, b)) == Some(e)
  {
    hide OperandStart, PrefixesFit, Compatible;
    var k := PrefixCount(m, a);
    var q := a + k + OpcodeLength(e);
    var n := OpcodeLength(e) + |OptionBytes(ModRMAt(e, m, q))|;
    HeadIsLong(e, m, q);
    SameBytesWithin(m, a, m2, b, OperandStart(e, m, q) - a, 0, k + 1);
    PrefixesReadBack(m, a, m2, b);
    SameBytesWithin(m, a, m2, b, OperandStart(e, m, q) - a, k, n);
    hide ModRMAt, PrefixCount, Read, SameBytes;
    forall f | f in table
      ensures Matches(f, m, a + k) <==> Matches(f, m2, b + k)
    {
      SameMatch(table, e, f, m, a + k, m2, b + k);
    }
    SameLookup(table, m, a + k, m2, b + k);
  }

  lemma HeadIsLong(e: OpcodeInfo, m: Memory, q: int)
    ensures OperandStart(e, m, q) >= q + |OptionBytes(ModRMAt(e, m, q))|
  {
  }

  lemma PrefixesReadBack(m: Memory, a: int, m2: Memory, b: int)
    requires PrefixesFit(m, a) && SameBytes(m, a, m2, b, PrefixCount(m, a) + 1)
    ensures PrefixCount(m2, b) == PrefixCount(m, a)
    ensures Read(m2, b, PrefixCount(m, a)) == Read(m, a, PrefixCount(m, a))
  {
    var k := PrefixCount(m, a);
    forall j | 0 <= j <= k
      ensures PrefixAt(m2, b, j) == PrefixAt(m, a, j)
    {
      assert SameByte(m, a, m2, b, j);
    }
    SamePrefixes(m, a, m2, b, 0, MAX_PREFIX_BYTES + 1);
    SameRead(m, a, m2, b, k);
  }

  lemma SplitEqual<T>(x: seq<T>, y: seq<T>, x2: seq<T>, y2: seq<T>)
    requires x + y == x2 + y2 && |x| == |x2|
    ensures x == x2 && y == y2
  {
    assert x == (x + y)[..|x|] == (x2 + y2)[..|x|] == x2;
    assert y == (x + y)[|x|..] == (x2 + y2)[|x|..] == y2;
  }

  ghost predicate OperandsAt(m: Memory, o: int, i: Insn) {
    && Read(m, o, i.dst.size) == OperandBytes(i.dst)
    && Read(m, o + i.dst.size, i.src1.size) == OperandBytes(i.src1)
    && Read(m, o + i.dst.size + i.src1.size, i.src2.size) == OperandBytes(i.src2)
  }

  lemma OperandsReadBack(e: OpcodeInfo, m: Memory, o: int, m2: Memory, o2: int, i: Insn, to: int)
    requires var n, n1 := StreamSize(e.dst), StreamSize(e.src1);
             && i.dst == OperandAt(NONE, e.dst, m, o)
             && i.src1 == OperandAt(NONE, e.src1, m, o + n)
             && i.src2 == OperandAt(NONE, e.src2, m, o + n + n1)
    requires OperandsAt(m2, o2, Relocated(i, to))
    ensures var n, n1, i2 := StreamSize(e.dst), StreamSize(e.src1), Relocated(i, to);
            && i2.dst == OperandAt(NONE, e.dst, m2, o2)
            && i2.src1 == OperandAt(NONE, e.src1, m2, o2 + n)
            && i2.src2 == OperandAt(NONE, e.src2, m2, o2 + n + n1)
  {
    hide OperandBytes, Read, Value;
    var n, n1 := StreamSize(e.dst), StreamSize(e.src1);
    OperandReadBack(e.dst, m, o, m2, o2, i.address, to, i.codeSize);
    OperandReadBack(e.src1, m, o + n, m2, o2 + n, i.address, to, i.codeSize);
    OperandReadBack(e.src2, m, o + n + n1, m2, o2 + n + n1, i.address, to, i.codeSize);
  }

  /** The four stretches of an encoding. */
  lemma EncodingSplit(i: Insn, m2: Memory, b: int)
    requires Read(m2, b, |Encoding(i)|) == Encoding(i)
    ensures Read(m2, b, |Head(i)|) == Head(i) && OperandsAt(m2, b + |Head(i)|, i)
  {
    hide Head, LittleEndian, Read;
    var h, n, n1, n2 := |Head(i)|, i.dst.size, i.src1.size, i.src2.size;
    var x, y, z, w := Head(i), OperandBytes(i.dst), OperandBytes(i.src1), OperandBytes(i.src2);
    ReadSplit(m2, b, h, n + n1 + n2);
    ReadSplit(m2, b + h, n, n1 + n2);
    ReadSplit(m2, b + h + n, n1, n2);
    assert Encoding(i) == x + (y + (z + w));
    SplitEqual(Read(m2, b, h), Read(m2, b + h, n + n1 + n2), x, y + (z + w));
    SplitEqual(Read(m2, b + h, n), Read(m2, b + h + n, n1 + n2), y, z + w);
    SplitEqual(Read(m2, b + h + n, n1), Read(m2, b + h + n + n1, n2), z, w);
  }

  /**
   * Where the encoding of the moved instruction has been put: its head is the original's, its operands are the
   * new ones.
   */
  lemma MovedLayout(e: OpcodeInfo, m: Memory, a: int, m2: Memory, b: int)
    requires Matches(e, m, a + PrefixCount(m, a))
    requires var i := DecodeAs(e, m, a, FRESH);
             Read(m2, b, i.codeSize) == Encoding(Relocated(i, b))
    ensures var i, i2 := DecodeAs(e, m, a, FRESH), Relocated(DecodeAs(e, m, a, FRESH), b);
            var h := OperandStart(e, m, a + PrefixCount(m, a) + OpcodeLength(e)) - a;
            && SameBytes(m, a, m2, b, h)
            && OperandsAt(m2, b + h, i2)
  {
    hide ModRMAt, SibAt, DisplacementTypeAt, PrefixCount, OperandStart, Matches;
    var i := DecodeAs(e, m, a, FRESH);
    var i2 := Relocated(i, b);
    var h := OperandStart(e, m, a + PrefixCount(m, a) + OpcodeLength(e)) - a;
    HeadRead(e, m, a, FRESH);
    EncodingSize(e, m, a, FRESH);
    assert Head(i2) == Head(i) == Read(m, a, h);
    assert |Encoding(i2)| == i.codeSize;
    EncodingSplit(i2, m2, b);
    forall j | 0 <= j < h
      ensures SameByte(m, a, m2, b, j)
    {
      assert Read(m2, b, h)[j] == Read(m, a, h)[j];
    }
  }

  /**
   * A moved instruction means what the original meant: where its encoding has been put,
   * it decodes to the relocated instruction.
   */
  lemma DecodingOfRelocated(table: OpcodeTable, m: Memory, a: int, m2: Memory, b: int)
    requires WellFormed(table) && PrefixesFit(m, a) && DecodeAt(table, m, a, FRESH).Some?
    requires var i := DecodeAt(table, m, a, FRESH).value;
             Read(m2, b, i.codeSize) == Encoding(Relocated(i, b))
    ensures DecodeAt(table, m2, b, FRESH) == Some(Relocated(DecodeAt(table, m, a, FRESH).value, b))
  {
    hide Lookup, PrefixCount, OptionBytes, ModRMAt, SibAt, DisplacementTypeAt, DisplacementStart, Matches, WellFormed,
         OperandStart, Encoding, Head, SameBytes, OperandsAt, OperandAt, OperandBytes, StreamSize;
    var i := DecodeAt(table, m, a, FRESH).value;
    var e := i.info.value;
    MovedLayout(e, m, a, m2, b);
    EntryReadBack(table, e, m, a, m2, b);
    var q := a + PrefixCount(m, a) + OpcodeLength(e);
    var q2 := b + PrefixCount(m, a) + OpcodeLength(e);
    var o := OperandStart(e, m, q);
    var o2 := o - a + b;
    OperandsFollowHead(e, m, a);
    SameBytesWithin(m, a, m2, b, o - a, q - a, o - q);
    HeadReadBack(e, m, q, m2, q2);
    OperandsReadBack(e, m, o, m2, o2, i, b);
  }
}
