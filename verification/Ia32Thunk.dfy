/**
 * The hook as a whole, and why it is safe: a processor that runs the moved code and
 * then the jump behind it does what it would have done in the original function.
 */
module Ia32Thunk {
  import opened Basics
  import opened Ia32Instruction
  import opened Ia32Code
  import opened Ia32Hook

  // ----- a processor

  /** What an instruction does to control: go on, take its relative operand, or go somewhere of its own choosing. */
  datatype Control = Fall | Branch | Goto(target: int)

  datatype Cpu<S> = Cpu(pc: int, data: S)

  /** Jumps, not calls: the effect of an instruction may depend on all of it but its place and its relative operands. */
  type Semantics<!S> = (Insn, S) -> (Control, S)

  function Blank(op: Operand): Operand {
    if IsRelative(op.kind) then op.(value := 0) else op
  }

  function Shape(i: Insn): Insn {
    i.(address := 0, dst := Blank(i.dst), src1 := Blank(i.src1), src2 := Blank(i.src2))
  }

  function RelativeOperand(i: Insn): Option<Operand> {
    if IsRelative(i.dst.kind) then Some(i.dst)
    else if IsRelative(i.src1.kind) then Some(i.src1)
    else if IsRelative(i.src2.kind) then Some(i.src2)
    else None
  }

  predicate FallsThrough(i: Insn, c: Control) {
    c.Fall? || (c.Branch? && RelativeOperand(i).None?)
  }

  function NextPc(i: Insn, c: Control): int {
    if FallsThrough(i, c) then (i.address + i.codeSize) % WORD
    else if c.Goto? then c.target % WORD
    else Target(i, RelativeOperand(i).value)
  }

  /** One step: fetch, decode with the tables, execute. */
  function Step<S>(table: OpcodeTable, m: Memory, exec: Semantics<S>, c: Cpu<S>): Option<Cpu<S>> {
    match DecodeAt(table, m, c.pc, FRESH)
    case None => None
    case Some(i) =>
      var (control, data) := exec(Shape(i), c.data);
      Some(Cpu(NextPc(i, control), data))
  }

  function Run<S>(table: OpcodeTable, m: Memory, exec: Semantics<S>, c: Cpu<S>, n: nat): Option<Cpu<S>>
    decreases n
  {
    if n == 0 then Some(c)
    else
      match Step(table, m, exec, c)
      case None => None
      case Some(c1) => Run(table, m, exec, c1, n - 1)
  }

  // ----- the thunk

  const NEAR_JUMP := OpcodeInfo(0, 0xE9, POSTBYTE_NONE, NoOperand, Rel, NoOperand, false)

  /** The tables know the near jump, and know nothing else by its opcode. */
  ghost predicate HasNearJump(table: OpcodeTable) {
    NEAR_JUMP in table && forall e :: e in table && e.prefix == 0 && e.opcode == 0xE9 ==> e == NEAR_JUMP
  }

  ghost predicate JumpsAlways<S(!new)>(exec: Semantics<S>) {
    forall i: Insn, data: S {:trigger exec(i, data)} ::
      i.info == Some(NEAR_JUMP) && i.prefixes == [] ==> exec(i, data) == (Branch, data)
  }

  /** The five bytes of a jump at `from` to `to`. */
  function JumpBytes(from: int, to: int): (bytes: seq<Byte>)
    ensures |bytes| == 5
  {
    [0xE9] + LittleEndian((to - (from + 5)) % WORD, 4)
  }

  /** Opcode 0xE9, and a little-endian word that leads from the end of the jump to its target. */
  lemma JumpInBytes(from: int, to: int)
    requires 0 <= to < WORD
    ensures var b := JumpBytes(from, to);
            && b[0] == 0xE9
            && (from + 5 + LittleWord(b[1..])) % WORD == to
  {
    var v := (to - (from + 5)) % WORD;
    LittleWordOf(v);
    hide LittleEndian, LittleWord;
    assert JumpBytes(from, to)[1..] == LittleEndian(v, 4);
    SameModuloWord(from + 5 + v, to);
  }

  /** The moved code is at `to` in `m2`, with a jump back to the rest of the function behind it. */
  ghost predicate ThunkAt(m2: Memory, to: int, insns: seq<Insn>, src: int) {
    var n := Total(insns);
    && Read(m2, to, |MovedCode(insns, to)|) == MovedCode(insns, to)
    && Read(m2, to + n, 5) == JumpBytes(to + n, src + n)
  }

  lemma NearJumpFound(table: OpcodeTable, m: Memory, from: int)
    requires WellFormed(table) && HasNearJump(table) && m(from) == 0xE9
    ensures PrefixCount(m, from) == 0 && Lookup(table, m, from) == Some(NEAR_JUMP)
  {
    assert !PrefixAt(m, from, 0);
    assert Matches(NEAR_JUMP, m, from);
    forall e | e in table && Matches(e, m, from)
      ensures e == NEAR_JUMP
    {
      assert Compatible(NEAR_JUMP, e);
    }
  }

  lemma NearJumpDecodes(table: OpcodeTable, m: Memory, from: int, to: int)
    requires WellFormed(table) && HasNearJump(table) && Read(m, from, 5) == JumpBytes(from, to)
    ensures DecodeAt(table, m, from, FRESH)
         == Some(Insn(Some(NEAR_JUMP), from, 5, [], None, None,
                      NONE, NONE, Operand(Rel, 4, (to - (from + 5)) % WORD), NONE))
  {
    hide Modulus, LittleEndian, Lookup, PrefixCount, Value;
    var v := (to - (from + 5)) % WORD;
    assert m(from) == Read(m, from, 5)[0] == 0xE9;
    NearJumpFound(table, m, from);
    assert Read(m, from + 1, 4) == Read(m, from, 5)[1..] == LittleEndian(v, 4);
    Moduli();
    BytesValue(m, from + 1, v, 4);
    assert Read(m, from, 0) == [];
  }

  lemma NearJumpSteps<S(!new)>(table: OpcodeTable, m: Memory, exec: Semantics<S>, from: int, to: int, data: S)
    requires WellFormed(table) && HasNearJump(table) && JumpsAlways(exec) && 0 <= to < WORD
    requires Read(m, from, 5) == JumpBytes(from, to)
    ensures Step(table, m, exec, Cpu(from, data)) == Some(Cpu(to, data))
  {
    hide DecodeAt;
    NearJumpDecodes(table, m, from, to);
    var i := DecodeAt(table, m, from, FRESH).value;
    assert exec(Shape(i), data) == (Branch, data);
    hide Modulus;
    Moduli();
    var v := (to - (from + 5)) % WORD;
    SameModuloWord(from + 5 + Signed(v, 4), to);
  }

  // ----- one instruction

  ghost predicate FitsAfterMove(i: Insn, to: int) {
    && (IsRelative(i.dst.kind) ==> Fits(i.dst, i.address, to))
    && (IsRelative(i.src1.kind) ==> Fits(i.src1, i.address, to))
    && (IsRelative(i.src2.kind) ==> Fits(i.src2, i.address, to))
  }

  ghost predicate Sound(op: Operand) {
    op.value < Modulus(op.size) && (IsRelative(op.kind) ==> op.size in {1, 2, 4, 8})
  }

  lemma DecodedOperandSound(t: OperandType, m: Memory, p: int)
    ensures Sound(OperandAt(NONE, t, m, p))
  {
    ValueBytes(m, p, StreamSize(t));
  }

  lemma DecodedSound(table: OpcodeTable, m: Memory, a: int)
    requires DecodeAt(table, m, a, FRESH).Some?
    ensures var i := DecodeAt(table, m, a, FRESH).value; Sound(i.dst) && Sound(i.src1) && Sound(i.src2)
  {
    hide Lookup, PrefixCount, OperandStart, ModRMAt, SibAt, DisplacementTypeAt, DisplacementStart, OperandAt,
         StreamSize, Sound, Read;
    var i := DecodeAt(table, m, a, FRESH).value;
    var e := i.info.value;
    var o := OperandStart(e, m, a + PrefixCount(m, a) + OpcodeLength(e));
    DecodedOperandSound(e.dst, m, o);
    DecodedOperandSound(e.src1, m, o + StreamSize(e.dst));
    DecodedOperandSound(e.src2, m, o + StreamSize(e.dst) + StreamSize(e.src1));
  }

  lemma SameTargetAfterMove(i: Insn, to: int, op: Operand)
    requires IsRelative(op.kind) && Sound(op) && Fits(op, i.address, to)
    ensures Target(Relocated(i, to), RelocatedOperand(op, i.address, to, i.codeSize)) == Target(i, op)
  {
    TargetKeptIffFits(op, i.address, to, i.codeSize);
  }

  /** The moved instruction has the same shape and leads to the same place, or to what follows it in either place. */
  lemma MovedInstructionActsAlike(i: Insn, to: int, c: Control)
    requires Sound(i.dst) && Sound(i.src1) && Sound(i.src2) && FitsAfterMove(i, to)
    ensures Shape(Relocated(i, to)) == Shape(i)
    ensures FallsThrough(Relocated(i, to), c) <==> FallsThrough(i, c)
    ensures !FallsThrough(i, c) ==> NextPc(Relocated(i, to), c) == NextPc(i, c)
  {
    hide Target, Sound, Fits;
    if IsRelative(i.dst.kind) {
      SameTargetAfterMove(i, to, i.dst);
    } else if IsRelative(i.src1.kind) {
      SameTargetAfterMove(i, to, i.src1);
    } else if IsRelative(i.src2.kind) {
      SameTargetAfterMove(i, to, i.src2);
    }
  }

  // ----- the whole prologue

  ghost predicate AllFit(insns: seq<Insn>, to: int)
    decreases |insns|
  {
    insns == [] || (FitsAfterMove(insns[0], to) && AllFit(insns[1..], to + insns[0].codeSize))
  }

  ghost predicate AllPrefixesFit(m: Memory, insns: seq<Insn>) {
    forall i :: 0 <= i < |insns| ==> PrefixesFit(m, insns[i].address)
  }

  /**
   * For `n` steps from `c`, the original stays in the prologue up to its end `high`
   * until the last step, and where it jumps it jumps out of the prologue.
   */
  ghost predicate StaysUntil<S(!new)>(
      table: OpcodeTable, m: Memory, exec: Semantics<S>, c: Cpu<S>, low: int, high: int, n: nat)
    decreases n
  {
    n == 0 ||
    (low <= c.pc < high && DecodeAt(table, m, c.pc, FRESH).Some? &&
     var i := DecodeAt(table, m, c.pc, FRESH).value;
     var (control, data) := exec(Shape(i), c.data);
     var pc := NextPc(i, control);
     (FallsThrough(i, control) || !(low <= pc < high)) &&
     StaysUntil(table, m, exec, Cpu(pc, data), low, high, n - 1))
  }

  /** The moved part of `m2` that begins with the instruction at `src`. */
  lemma ThunkFirst(table: OpcodeTable, m: Memory, m2: Memory, src: int, to: int, insns: seq<Insn>)
    requires WellFormed(table) && insns != [] && Consecutive(table, m, src, insns) && AllPrefixesFit(m, insns)
    requires ThunkAt(m2, to, insns, src)
    ensures DecodeAt(table, m2, to, FRESH) == Some(Relocated(insns[0], to))
    ensures ThunkAt(m2, to + insns[0].codeSize, insns[1..], src + insns[0].codeSize)
    ensures AllPrefixesFit(m, insns[1..])
  {
    hide Encoding, Relocated, DecodeAt, PrefixesFit;
    var i, n := insns[0], insns[0].codeSize;
    assert PrefixesFit(m, i.address);
    InstructionIsShort(table, m, src, to);
    var first, rest := Encoding(Relocated(i, to)), MovedCode(insns[1..], to + n);
    ReadSplit(m2, to, n, |rest|);
    SplitEqual(Read(m2, to, n), Read(m2, to + n, |rest|), first, rest);
    DecodingOfRelocated(table, m, src, m2, to);
    assert Total(insns) == n + Total(insns[1..]);
  }

  /** Where the thunk is when the original is at `c` after `n` steps. */
  ghost predicate Follows<S(!new)>(table: OpcodeTable, m2: Memory, exec: Semantics<S>, start: Cpu<S>, n: nat,
                                   c: Cpu<S>, low: int, high: int, shift: int) {
    if low <= c.pc < high then Run(table, m2, exec, start, n) == Some(Cpu(c.pc + shift, c.data))
    else if c.pc == high then Run(table, m2, exec, start, n) == Some(c) || Run(table, m2, exec, start, n + 1) == Some(c)
    else Run(table, m2, exec, start, n) == Some(c)
  }

  lemma RunOne<S>(table: OpcodeTable, m: Memory, exec: Semantics<S>, c: Cpu<S>)
    ensures Run(table, m, exec, c, 1) == Step(table, m, exec, c)
  {
    assert Step(table, m, exec, c).Some?
           ==> Run(table, m, exec, Step(table, m, exec, c).value, 0) == Step(table, m, exec, c);
  }

  /** One step of the original and the step the thunk takes instead. */
  lemma StepAlike<S(!new)>(table: OpcodeTable, m: Memory, m2: Memory, exec: Semantics<S>, src: int, to: int, data: S)
    requires DecodeAt(table, m, src, FRESH).Some?
    requires var i := DecodeAt(table, m, src, FRESH).value;
             DecodeAt(table, m2, to, FRESH) == Some(Relocated(i, to)) && FitsAfterMove(i, to)
    ensures var i := DecodeAt(table, m, src, FRESH).value;
            var (control, data1) := exec(Shape(i), data);
            && Step(table, m, exec, Cpu(src, data)) == Some(Cpu(NextPc(i, control), data1))
            && Step(table, m2, exec, Cpu(to, data))
            == Some(Cpu(if FallsThrough(i, control) then (to + i.codeSize) % WORD else NextPc(i, control), data1))
  {
    hide DecodeAt, Shape, FitsAfterMove, Sound, NextPc, FallsThrough;
    var i := DecodeAt(table, m, src, FRESH).value;
    DecodedSound(table, m, src);
    MovedInstructionActsAlike(i, to, exec(Shape(i), data).0);
    NextPcOfFall(Relocated(i, to), exec(Shape(i), data).0);
  }

  lemma NextPcOfFall(i: Insn, c: Control)
    ensures FallsThrough(i, c) ==> NextPc(i, c) == (i.address + i.codeSize) % WORD
  {
  }

  lemma TotalPositive(table: OpcodeTable, m: Memory, src: int, insns: seq<Insn>)
    requires Consecutive(table, m, src, insns)
    ensures insns != [] ==> Total(insns) > 0
  {
    hide DecodeAt;
  }

  /**
   * The simulation: however long the original stays in the prologue, the thunk goes
   * through the same data states at the shifted addresses; when the original leaves,
   * by a jump or at the end, the thunk is at the same address with the same data.
   */
  lemma {:induction false} ThunkSimulates<S(!new)>(
      table: OpcodeTable, m: Memory, m2: Memory, exec: Semantics<S>,
      src: int, to: int, insns: seq<Insn>, low: int, high: int, data: S, n: nat)
    requires WellFormed(table) && HasNearJump(table) && JumpsAlways(exec)
    requires Consecutive(table, m, src, insns) && AllPrefixesFit(m, insns) && AllFit(insns, to)
    requires ThunkAt(m2, to, insns, src)
    requires insns != [] && 0 <= low <= src && high == src + Total(insns) < WORD && 0 <= to && to + Total(insns) < WORD
    requires n > 0 && StaysUntil(table, m, exec, Cpu(src, data), low, high, n)
    ensures Run(table, m, exec, Cpu(src, data), n).Some?
    ensures Follows(table, m2, exec, Cpu(to, data), n,
                    Run(table, m, exec, Cpu(src, data), n).value, low, high, to - src)
    decreases n
  {
    hide DecodeAt, WellFormed, HasNearJump, JumpsAlways, ThunkAt, AllPrefixesFit, FitsAfterMove, Shape, NextPc,
         FallsThrough, Step, JumpBytes;
    var i, size, rest := insns[0], insns[0].codeSize, insns[1..];
    var (control, data1) := exec(Shape(i), data);
    ThunkFirst(table, m, m2, src, to, insns);
    StepAlike(table, m, m2, exec, src, to, data);
    NextPcOfFall(i, control);
    TotalPositive(table, m, src + size, rest);
    RunOne(table, m, exec, Cpu(src, data));
    RunOne(table, m2, exec, Cpu(to, data));
    if FallsThrough(i, control) {
      assert NextPc(i, control) == src + size;
      if rest == [] {
        ThunkEnds(table, m2, exec, src + size, to + size, data1);
        RunOne(table, m2, exec, Cpu(to + size, data1));
      } else if n > 1 {
        ThunkSimulates(table, m, m2, exec, src + size, to + size, rest, low, high, data1, n - 1);
      }
    }
  }

  lemma ThunkEnds<S(!new)>(table: OpcodeTable, m2: Memory, exec: Semantics<S>, src: int, to: int, data: S)
    requires WellFormed(table) && HasNearJump(table) && JumpsAlways(exec) && 0 <= src < WORD
    requires ThunkAt(m2, to, [], src)
    ensures Step(table, m2, exec, Cpu(to, data)) == Some(Cpu(src, data))
  {
    NearJumpSteps(table, m2, exec, to, src, data);
  }

  // ----- installing the hook

  /** Writes instructions at an advancing pointer into a buffer that lies at address `base`. */
  class Assembler {
    const buffer: array<Byte>
    const base: int
    var at: nat

    constructor (buffer: array<Byte>, base: int, at: nat)
      ensures this.buffer == buffer && this.base == base && this.at == at
    {
      this.buffer, this.base, this.at := buffer, base, at;
    }

    method Byte8(b: Byte)
      requires at < buffer.Length
      modifies this`at, buffer
      ensures buffer[..] == Written(old(buffer[..]), old(at), [b]) && at == old(at) + 1
    {
      at := Append(buffer, at, b);
    }

    method Word32(v: nat)
      requires at + 4 <= buffer.Length
      modifies this`at, buffer
      ensures buffer[..] == Written(old(buffer[..]), old(at), LittleEndian(v, 4)) && at == old(at) + 4
    {
      at := AppendOperand(buffer, at, Operand(Imm, 4, v));
    }

    /** A jump relative to the end of the instruction. */
    method Jump(address: int)
      requires at + 5 <= buffer.Length
      modifies this`at, buffer
      ensures buffer[..] == Written(old(buffer[..]), old(at), JumpBytes(base + old(at), address)) && at == old(at) + 5
    {
      ghost var v := (address - (base + at + 5)) % WORD;
      WrittenTwice(buffer[..], at, [0xE9], LittleEndian(v, 4));
      hide Written, LittleEndian;
      Byte8(0xE9);
      Word32((address - (base + at + MACHINE_SIZE)) % WORD);
    }

    method JumpIndirect(slot: nat)
      requires at + 6 <= buffer.Length
      modifies this`at, buffer
      ensures buffer[..] == Written(old(buffer[..]), old(at), [0xFF, 0x25] + LittleEndian(slot, 4)) && at == old(at) + 6
    {
      WrittenTwice(buffer[..], at, [0xFF], [0x25]);
      WrittenTwice(buffer[..], at, [0xFF] + [0x25], LittleEndian(slot, 4));
      assert [0xFF] + [0x25] == [0xFF, 0x25];
      hide Written, LittleEndian;
      Byte8(0xFF);
      Byte8(0x25);
      Word32(slot);
    }
  }

  datatype HookStatus = Success | NoRelocate | NoRedirect | CoreFailed | OutOfMemory

  const HEADER := 4 * MACHINE_SIZE
  const PATCH_SIZE := 6

  /** The thunk buffer at `base`: the two pointers, then the moved code from offset 16 on and the jump back. */
  function ThunkBuffer(base: int, proc: int, proxy: nat, insns: seq<Insn>): seq<Byte>
    requires 0 <= base && HEADER + |MovedCode(insns, base + HEADER)| + 5 <= THUNK_BUFFER_SIZE
  {
    var code := MovedCode(insns, base + HEADER);
    var pointers :=
      Written(Written(Zeros(THUNK_BUFFER_SIZE), 0, LittleEndian(proxy, 4)), 4, LittleEndian(base + HEADER, 4));
    Written(Written(pointers, HEADER, code), HEADER + |code|, JumpBytes(base + HEADER + |code|, proc + |code|))
  }

  /** The instructions the hook moves out of the way of its own six bytes. */
  function Prologue(tables: seq<OpcodeTable>, m: Memory, proc: int): Option<seq<Insn>> {
    ToMove(Concat(tables), m, proc, 0, PATCH_SIZE, THUNK_BUFFER_SIZE)
  }

  /** What is moved covers the patch, and with the jump behind it fits the part of the buffer that is left for it. */
  lemma PrologueFits(tables: seq<OpcodeTable>, m: Memory, proc: int, to: int)
    requires PrologueIsReadable(tables, m, proc)
    requires Prologue(tables, m, proc).Some?
    ensures var insns := Prologue(tables, m, proc).value;
            && PATCH_SIZE <= Total(insns) == |MovedCode(insns, to)|
            && HEADER + Total(insns) + 5 <= THUNK_BUFFER_SIZE
            && Consecutive(Concat(tables), m, proc, insns)
  {
    hide PrefixesFitAlong, ToMove, MovedCode;
    MovesWholeInstructions(
      Concat(tables), m, proc, 0, PATCH_SIZE, THUNK_BUFFER_SIZE, to, Prologue(tables, m, proc).value);
  }

  ghost predicate IsThunk(s: seq<Byte>, base: int, proc: int, proxy: nat, insns: seq<Insn>) {
    && 0 <= base && PATCH_SIZE <= Total(insns) == |MovedCode(insns, base + HEADER)|
    && HEADER + Total(insns) + 5 <= THUNK_BUFFER_SIZE
    && s == ThunkBuffer(base, proc, proxy, insns)
  }

  /** No instruction of the prologue has more prefix bytes than the decoder has room for. */
  predicate PrologueIsReadable(tables: seq<OpcodeTable>, m: Memory, proc: int) {
    PrefixesFitAlong(Concat(tables), m, proc, 0, PATCH_SIZE, THUNK_BUFFER_SIZE)
  }

  /** Fills the buffer: the pointers, the moved code, the jump back to what was not moved. */
  method BuildThunk(
      tables: seq<OpcodeTable>, m: Memory, proc: int, proxy: nat, base: nat, codeBuffer: array<Byte>)
    returns (used: nat)
    requires PrologueIsReadable(tables, m, proc) && codeBuffer[..] == Zeros(THUNK_BUFFER_SIZE)
    modifies codeBuffer
    ensures used == 0 <==> Prologue(tables, m, proc).None?
    ensures used != 0 ==> IsThunk(codeBuffer[..], base, proc, proxy, Prologue(tables, m, proc).value)
  {
    hide Prologue, MovedCode, LittleEndian, Written, IsThunk, JumpBytes, PrologueIsReadable;
    var pointers := new Assembler(codeBuffer, base, 0);
    pointers.Word32(proxy);
    pointers.Word32(base + HEADER);
    ghost var s1 := codeBuffer[..];
    assert s1
        == Written(Written(Zeros(THUNK_BUFFER_SIZE), 0, LittleEndian(proxy, 4)), 4, LittleEndian(base + HEADER, 4));
    used := CopyCode(tables, m, proc, base, codeBuffer);
    if used != 0 {
      var xasm := new Assembler(codeBuffer, base, HEADER + used);
      xasm.Jump(proc + used);
      ThunkIsBuilt(base, proc, proxy, Prologue(tables, m, proc).value, s1, codeBuffer[..]);
      used := used + 5;
    }
  }

  method CopyCode(tables: seq<OpcodeTable>, m: Memory, proc: int, base: nat, codeBuffer: array<Byte>)
    returns (used: nat)
    requires PrologueIsReadable(tables, m, proc) && codeBuffer.Length == THUNK_BUFFER_SIZE
    modifies codeBuffer
    ensures used == 0 <==> Prologue(tables, m, proc).None?
    ensures used != 0 ==>
              var insns := Prologue(tables, m, proc).value;
              && PATCH_SIZE <= used == Total(insns) == |MovedCode(insns, base + HEADER)|
                && HEADER + used + 5 <= THUNK_BUFFER_SIZE
              && codeBuffer[..] == Written(old(codeBuffer[..]), HEADER, MovedCode(insns, base + HEADER))
  {
    hide PrefixesFitAlong, ToMove, MovedCode, Written;
    if Prologue(tables, m, proc).Some? {
      PrologueFits(tables, m, proc, base + HEADER);
    }
    used := RelocateCode(tables, m, proc, codeBuffer, HEADER, base, PATCH_SIZE, THUNK_BUFFER_SIZE);
  }

  lemma ThunkIsBuilt(base: nat, proc: int, proxy: nat, insns: seq<Insn>, s1: seq<Byte>, s: seq<Byte>)
    requires PATCH_SIZE <= Total(insns) == |MovedCode(insns, base + HEADER)|
             && HEADER + Total(insns) + 5 <= THUNK_BUFFER_SIZE
    requires s1
          == Written(Written(Zeros(THUNK_BUFFER_SIZE), 0, LittleEndian(proxy, 4)), 4, LittleEndian(base + HEADER, 4))
    requires var code := MovedCode(insns, base + HEADER);
             s == Written(Written(s1, HEADER, code), HEADER + |code|,
                          JumpBytes(base + (HEADER + |code|), proc + |code|))
    ensures IsThunk(s, base, proc, proxy, insns)
  {
  }

  /** `base` is the address the allocator returned, if it did; the flags say whether the two memory locks succeed. */
  method InstallHook(
      tables: seq<OpcodeTable>, m: Memory, proc: int, proxy: nat, base: Option<nat>, thunkLock: bool, procLock: bool)
    returns (status: HookStatus, thunkFunction: Option<int>, codeBuffer: array<Byte>, entry: array<Byte>)
    requires PrologueIsReadable(tables, m, proc)
    ensures fresh(codeBuffer) && fresh(entry)
    ensures status == (if base.None? then OutOfMemory else if !thunkLock then CoreFailed
                       else if Prologue(tables, m, proc).None? then NoRelocate
                       else if !procLock then NoRedirect else Success)
    ensures status != Success ==> entry[..] == Read(m, proc, PATCH_SIZE) && thunkFunction == None
    ensures status == Success ==>
              && IsThunk(codeBuffer[..], base.value, proc, proxy, Prologue(tables, m, proc).value)
              && entry[..] == [0xFF, 0x25] + LittleEndian(base.value, 4)
              && thunkFunction == Some(base.value + HEADER)
  {
    hide PrologueIsReadable, Prologue, IsThunk, LittleEndian;
    thunkFunction := None;
    codeBuffer := new Byte[THUNK_BUFFER_SIZE](_ => 0);
    entry := new Byte[PATCH_SIZE](i requires 0 <= i < PATCH_SIZE => m(proc + i));
    assert entry[..] == Read(m, proc, PATCH_SIZE);
    if base.None? {
      return OutOfMemory, thunkFunction, codeBuffer, entry;
    }
    if !thunkLock {
      return CoreFailed, thunkFunction, codeBuffer, entry;
    }
    assert codeBuffer[..] == Zeros(THUNK_BUFFER_SIZE);
    var used := BuildThunk(tables, m, proc, proxy, base.value, codeBuffer);
    if used == 0 {
      return NoRelocate, thunkFunction, codeBuffer, entry;
    }
    if !procLock {
      return NoRedirect, thunkFunction, codeBuffer, entry;
    }
    thunkFunction := Some(base.value + HEADER);
    var procAssembler := new Assembler(entry, proc, 0);
    procAssembler.JumpIndirect(base.value);
    assert entry[..] == [0xFF, 0x25] + LittleEndian(base.value, 4);
    status := Success;
  }

  // ----- what the hook does to the process

  /** Process memory once the buffer has been filled and the function patched. */
  function Hooked(m: Memory, base: int, buffer: seq<Byte>, proc: int, entry: seq<Byte>): Memory {
    (a: int) =>
      if base <= a < base + |buffer| then buffer[a - base]
      else if proc <= a < proc + |entry| then entry[a - proc]
      else m(a)
  }

  lemma ReadHookedBuffer(m: Memory, base: int, buffer: seq<Byte>, proc: int, entry: seq<Byte>, k: nat, n: nat)
    requires k + n <= |buffer|
    ensures Read(Hooked(m, base, buffer, proc, entry), base + k, n) == buffer[k..k + n]
  {
  }

  lemma ReadHookedEntry(m: Memory, base: int, buffer: seq<Byte>, proc: int, entry: seq<Byte>, k: nat, n: nat)
    requires k + n <= |entry| && (proc + |entry| <= base || base + |buffer| <= proc)
    ensures Read(Hooked(m, base, buffer, proc, entry), proc + k, n) == entry[k..k + n]
  {
  }

  lemma ThunkParts(s: seq<Byte>, base: int, proc: int, proxy: nat, insns: seq<Insn>)
    requires IsThunk(s, base, proc, proxy, insns)
    ensures var n := Total(insns);
            && |s| == THUNK_BUFFER_SIZE && HEADER + n + 5 <= |s|
            && s[0..4] == LittleEndian(proxy, 4)
            && s[4..8] == LittleEndian(base + HEADER, 4)
            && s[HEADER..HEADER + n] == MovedCode(insns, base + HEADER)
            && s[HEADER + n..HEADER + n + 5] == JumpBytes(base + HEADER + n, proc + n)
  {
    hide MovedCode, LittleEndian, JumpBytes;
  }

  /**
   * The patched entry is an indirect jump through a slot that holds the address of the
   * replacement; the slot behind it holds the address of the thunk.
   */
  lemma EntryLeadsToProxy(m: Memory, base: nat, s: seq<Byte>, proc: int, proxy: nat, insns: seq<Insn>)
    requires IsThunk(s, base, proc, proxy, insns) && proxy < WORD && base + 16 < WORD
    requires proc + PATCH_SIZE <= base || base + THUNK_BUFFER_SIZE <= proc
    ensures var m2 := Hooked(m, base, s, proc, [0xFF, 0x25] + LittleEndian(base, 4));
            && Read(m2, proc, 2) == [0xFF, 0x25]
            && Value(m2, proc + 2, 4) == base
            && Value(m2, base, 4) == proxy
            && Value(m2, base + 4, 4) == base + 16
  {
    hide Hooked, Modulus, IsThunk, LittleEndian, Read, Value;
    var entry := [0xFF, 0x25] + LittleEndian(base, 4);
    var m2 := Hooked(m, base, s, proc, entry);
    ThunkParts(s, base, proc, proxy, insns);
    Moduli();
    ReadHookedEntry(m, base, s, proc, entry, 0, 2);
    ReadHookedEntry(m, base, s, proc, entry, 2, 4);
    assert entry[2..6] == LittleEndian(base, 4) && entry[0..2] == [0xFF, 0x25];
    BytesValue(m2, proc + 2, base, 4);
    ReadHookedBuffer(m, base, s, proc, entry, 0, 4);
    BytesValue(m2, base, proxy, 4);
    ReadHookedBuffer(m, base, s, proc, entry, 4, 4);
    BytesValue(m2, base + 4, base + 16, 4);
  }

  lemma {:induction false} PrefixesFitInAll(
      table: OpcodeTable, m: Memory, src: int, done: nat, min: int, max: int, insns: seq<Insn>)
    requires PrefixesFitAlong(table, m, src, done, min, max) && ToMove(table, m, src, done, min, max) == Some(insns)
    ensures AllPrefixesFit(m, insns)
    decreases min - done
  {
    hide DecodeAt, ToMove, PrefixesFitAlong, PrefixesFit;
    if done < min {
      PrefixesFitOn(table, m, src, done, min, max);
      ToMoveFirst(table, m, src, done, min, max, insns);
      PrefixesFitInAll(table, m, src + insns[0].codeSize, done + insns[0].codeSize, min, max, insns[1..]);
    } else {
      ToMoveEnds(table, m, src, done, min, max);
    }
  }

  lemma ProloguePrefixesFit(tables: seq<OpcodeTable>, m: Memory, proc: int)
    requires PrologueIsReadable(tables, m, proc) && Prologue(tables, m, proc).Some?
    ensures AllPrefixesFit(m, Prologue(tables, m, proc).value)
  {
    hide PrefixesFitAlong, ToMove, AllPrefixesFit;
    PrefixesFitInAll(Concat(tables), m, proc, 0, PATCH_SIZE, THUNK_BUFFER_SIZE, Prologue(tables, m, proc).value);
  }

  lemma ThunkIsInPlace(
      m: Memory, base: int, buffer: seq<Byte>, proc: int, entry: seq<Byte>, proxy: nat, insns: seq<Insn>)
    requires IsThunk(buffer, base, proc, proxy, insns)
    ensures ThunkAt(Hooked(m, base, buffer, proc, entry), base + HEADER, insns, proc)
  {
    ThunkParts(buffer, base, proc, proxy, insns);
    hide Hooked, Read, MovedCode, JumpBytes;
    ReadHookedBuffer(m, base, buffer, proc, entry, HEADER, Total(insns));
    ReadHookedBuffer(m, base, buffer, proc, entry, HEADER + Total(insns), 5);
  }

  /**
   * The hook keeps the original function callable: a processor started at the thunk in
   * the hooked process follows one started at the function in the process as it was,
   * until the latter is past the moved instructions, whether by a jump or at their end.
   */
  lemma HookKeepsFunction<S(!new)>(
      tables: seq<OpcodeTable>, m: Memory, exec: Semantics<S>,
      proc: int, proxy: nat, base: nat, buffer: seq<Byte>, data: S, n: nat)
    requires WellFormed(Concat(tables)) && HasNearJump(Concat(tables)) && JumpsAlways(exec)
    requires PrologueIsReadable(tables, m, proc) && Prologue(tables, m, proc).Some?
    requires var insns := Prologue(tables, m, proc).value;
             && IsThunk(buffer, base, proc, proxy, insns) && AllFit(insns, base + HEADER)
             && 0 <= proc && proc + Total(insns) < WORD && base + THUNK_BUFFER_SIZE <= WORD
             && n > 0 && StaysUntil(Concat(tables), m, exec, Cpu(proc, data), proc, proc + Total(insns), n)
    ensures var table, high, to := Concat(tables), proc + Total(Prologue(tables, m, proc).value), base + HEADER;
            var m2 := Hooked(m, base, buffer, proc, [0xFF, 0x25] + LittleEndian(base, 4));
            && Run(table, m, exec, Cpu(proc, data), n).Some?
            && Follows(table, m2, exec, Cpu(to, data), n,
                       Run(table, m, exec, Cpu(proc, data), n).value, proc, high, to - proc)
  {
    hide Hooked, Prologue, IsThunk, StaysUntil, AllFit, PrologueIsReadable, AllPrefixesFit, WellFormed, HasNearJump,
         JumpsAlways, Consecutive, Follows, Run, ThunkAt;
    var insns := Prologue(tables, m, proc).value;
    var entry := [0xFF, 0x25] + LittleEndian(base, 4);
    var m2 := Hooked(m, base, buffer, proc, entry);
    PrologueFits(tables, m, proc, base + HEADER);
    ThunkIsInPlace(m, base, buffer, proc, entry, proxy, insns);
    ProloguePrefixesFit(tables, m, proc);
    ThunkSimulates(Concat(tables), m, m2, exec, proc, base + HEADER, insns, proc, proc + Total(insns), data, n);
  }

  // ----- a function whose conditions are easily seen to be met

  /** PUSH EBP and JE rel32, as the tables have them. */
  const PUSH := OpcodeInfo(0, 0x55, POSTBYTE_NONE, NoOperand, GpReg, NoOperand, false)
  const JUMP_IF_EQUAL := OpcodeInfo(0x0F, 0x84, POSTBYTE_NONE, NoOperand, Rel, NoOperand, false)

  function Few(): OpcodeTable {
    [PUSH, JUMP_IF_EQUAL, NEAR_JUMP]
  }

  datatype Machine = Machine(depth: int, zero: bool)

  function Execute(i: Insn, data: Machine): (Control, Machine) {
    if i.info == Some(PUSH) then (Fall, data.(depth := data.depth + 1))
    else if i.info == Some(JUMP_IF_EQUAL) then (if data.zero then Branch else Fall, data)
    else (Branch, data)
  }

  function PushAt(a: int): Insn {
    Insn(Some(PUSH), a, 1, [], None, None, NONE, NONE, Operand(GpReg, 0, 0), NONE)
  }

  function JumpIfEqualAt(a: int, target: int): Insn {
    Insn(Some(JUMP_IF_EQUAL), a, 6, [], None, None, NONE, NONE, Operand(Rel, 4, (target - (a + 6)) % WORD), NONE)
  }

  /** A function that begins by saving a register and jumping on a condition. */
  ghost predicate PushesAndJumps(m: Memory, proc: nat, target: int) {
    m(proc) == 0x55 && Read(m, proc + 1, 6) == [0x0F, 0x84] + LittleEndian((target - (proc + 7)) % WORD, 4)
  }

  lemma FewAreGood()
    ensures WellFormed(Few()) && HasNearJump(Few()) && JumpsAlways(Execute)
  {
    assert Few()[2] == NEAR_JUMP;
  }

  lemma PushDecodes(m: Memory, a: int)
    requires m(a) == 0x55
    ensures PrefixesFit(m, a) && DecodeAt(Few(), m, a, FRESH) == Some(PushAt(a))
  {
    assert !PrefixAt(m, a, 0);
    assert Read(m, a, 0) == [];
  }

  lemma JumpIfEqualFound(m: Memory, a: int)
    requires m(a) == 0x0F && m(a + 1) == 0x84
    ensures PrefixesFit(m, a) && PrefixCount(m, a) == 0 && Lookup(Few(), m, a) == Some(JUMP_IF_EQUAL)
  {
    assert !PrefixAt(m, a, 0);
    assert Few()[1..][0] == JUMP_IF_EQUAL;
  }

  lemma JumpIfEqualDecodes(m: Memory, a: int, target: int)
    requires Read(m, a, 6) == [0x0F, 0x84] + LittleEndian((target - (a + 6)) % WORD, 4)
    ensures PrefixesFit(m, a) && DecodeAt(Few(), m, a, FRESH) == Some(JumpIfEqualAt(a, target))
  {
    hide Modulus, LittleEndian, Lookup, PrefixCount, Value, PrefixesFit;
    var v := (target - (a + 6)) % WORD;
    assert m(a) == Read(m, a, 6)[0] && m(a + 1) == Read(m, a, 6)[1];
    JumpIfEqualFound(m, a);
    assert Read(m, a + 2, 4) == Read(m, a, 6)[2..] == LittleEndian(v, 4);
    Moduli();
    BytesValue(m, a + 2, v, 4);
    assert Read(m, a, 0) == [];
  }

  lemma JumpIfEqualTarget(a: int, target: int)
    requires 0 <= target < WORD
    ensures var i := JumpIfEqualAt(a, target); Target(i, i.src1) == target
  {
    hide Modulus;
    Moduli();
    var v := (target - (a + 6)) % WORD;
    SameModuloWord(a + 6 + Signed(v, 4), target);
  }

  lemma BothAreMoved(m: Memory, proc: nat, target: int)
    requires PushesAndJumps(m, proc, target)
    ensures ToMove(Few(), m, proc, 0, PATCH_SIZE, THUNK_BUFFER_SIZE)
         == Some([PushAt(proc), JumpIfEqualAt(proc + 1, target)])
    ensures PrefixesFitAlong(Few(), m, proc, 0, PATCH_SIZE, THUNK_BUFFER_SIZE)
  {
    hide DecodeAt, PrefixesFit;
    PushDecodes(m, proc);
    JumpIfEqualDecodes(m, proc + 1, target);
    ToMoveEnds(Few(), m, proc + 7, 7, PATCH_SIZE, THUNK_BUFFER_SIZE);
    var jump := JumpIfEqualAt(proc + 1, target);
    assert ToMove(Few(), m, proc + 1, 1, PATCH_SIZE, THUNK_BUFFER_SIZE) == Some([jump] + []);
    assert [PushAt(proc)] + ([jump] + []) == [PushAt(proc), jump];
  }

  lemma TotalOfTwo(i: Insn, j: Insn)
    ensures Total([i, j]) == i.codeSize + j.codeSize
  {
    assert [i, j][1..] == [j] && [j][1..] == [];
    assert Total([j]) == j.codeSize + Total([]);
  }

  function Outcome(proc: nat, target: int, data: Machine): Cpu<Machine> {
    Cpu(if data.zero then target else proc + 7, data.(depth := data.depth + 1))
  }

  lemma BothRun(m: Memory, proc: nat, target: int, data: Machine)
    requires PushesAndJumps(m, proc, target) && proc + 7 < WORD && 0 <= target < WORD && !(proc <= target < proc + 7)
    ensures StaysUntil(Few(), m, Execute, Cpu(proc, data), proc, proc + 7, 2)
    ensures Run(Few(), m, Execute, Cpu(proc, data), 2) == Some(Outcome(proc, target, data))
  {
    hide DecodeAt, Few, PushesAndJumps, PushAt, JumpIfEqualAt, Execute, Shape, NextPc, FallsThrough;
    var pushed := data.(depth := data.depth + 1);
    BothDecode(m, proc, target);
    PushGoes(proc, data);
    JumpGoes(proc + 1, target, pushed);
    assert StaysUntil(Few(), m, Execute, Outcome(proc, target, data), proc, proc + 7, 0);
    assert StaysUntil(Few(), m, Execute, Cpu(proc + 1, pushed), proc, proc + 7, 1);
    RunOne(Few(), m, Execute, Cpu(proc + 1, pushed));
  }

  lemma BothDecode(m: Memory, proc: nat, target: int)
    requires PushesAndJumps(m, proc, target)
    ensures DecodeAt(Few(), m, proc, FRESH) == Some(PushAt(proc))
    ensures DecodeAt(Few(), m, proc + 1, FRESH) == Some(JumpIfEqualAt(proc + 1, target))
  {
    PushDecodes(m, proc);
    JumpIfEqualDecodes(m, proc + 1, target);
    hide DecodeAt, Few, PushAt, JumpIfEqualAt;
  }

  lemma PushGoes(a: nat, data: Machine)
    requires a + 1 < WORD
    ensures var (control, data1) := Execute(Shape(PushAt(a)), data);
            && FallsThrough(PushAt(a), control) && NextPc(PushAt(a), control) == a + 1
            && data1 == data.(depth := data.depth + 1)
  {
  }

  lemma JumpGoes(a: nat, target: int, data: Machine)
    requires a + 6 < WORD && 0 <= target < WORD
    ensures var i := JumpIfEqualAt(a, target);
            var (control, data1) := Execute(Shape(i), data);
            && (FallsThrough(i, control) <==> !data.zero) && data1 == data
            && NextPc(i, control) == if data.zero then target else a + 6
  {
    JumpIfEqualTarget(a, target);
    hide Target;
  }

  lemma ConcatOne(table: OpcodeTable)
    ensures Concat([table]) == table
  {
    assert Concat([table]) == table + Concat([]);
  }

  function PushAndJump(proc: nat, target: int): seq<Insn> {
    [PushAt(proc), JumpIfEqualAt(proc + 1, target)]
  }

  /** What has to be known of the two instructions. */
  lemma PushAndJumpMoves(m: Memory, proc: nat, target: int, to: int)
    requires PushesAndJumps(m, proc, target)
    ensures Prologue([Few()], m, proc) == Some(PushAndJump(proc, target)) && PrologueIsReadable([Few()], m, proc)
    ensures Total(PushAndJump(proc, target)) == 7 && AllFit(PushAndJump(proc, target), to)
  {
    TotalOfTwo(PushAt(proc), JumpIfEqualAt(proc + 1, target));
    TwoFit(PushAndJump(proc, target), to);
    hide ToMove, PrefixesFitAlong, Total, AllFit, PushesAndJumps, Few;
    ConcatOne(Few());
    BothAreMoved(m, proc, target);
  }

  lemma ThunkFollowsBoth(m: Memory, proc: nat, target: int, proxy: nat, base: nat, data: Machine)
    requires PushesAndJumps(m, proc, target) && 0 <= target < WORD && !(proc <= target < proc + 7)
    requires proc + 7 < WORD && base + THUNK_BUFFER_SIZE <= WORD
    ensures |MovedCode(PushAndJump(proc, target), base + HEADER)| == 7
    ensures var s := ThunkBuffer(base, proc, proxy, PushAndJump(proc, target));
            var m2 := Hooked(m, base, s, proc, [0xFF, 0x25] + LittleEndian(base, 4));
            Follows(Few(), m2, Execute, Cpu(base + HEADER, data), 2, Outcome(proc, target, data),
                    proc, proc + 7, base + HEADER - proc)
  {
    hide PushAndJump, Prologue, MovedCode, Hooked, ThunkBuffer, Run, StaysUntil, AllFit, WellFormed, HasNearJump,
         JumpsAlways, PushesAndJumps, PrologueIsReadable, LittleEndian, Total, Execute, Few, Follows, Outcome;
    var insns := PushAndJump(proc, target);
    ConcatOne(Few());
    FewAreGood();
    PushAndJumpMoves(m, proc, target, base + HEADER);
    BothRun(m, proc, target, data);
    PrologueFits([Few()], m, proc, base + HEADER);
    HookKeepsFunction([Few()], m, Execute, proc, proxy, base, ThunkBuffer(base, proc, proxy, insns), data, 2);
  }

  /**
   * Such a function can be hooked, wherever its jump leads outside the moved bytes; its thunk
   * takes the jump, relocated, or comes out behind the moved instructions.
   */
  lemma PushAndJumpCanBeHooked(m: Memory, proc: nat, target: int, proxy: nat, base: nat, data: Machine)
    requires PushesAndJumps(m, proc, target) && 0 <= target < WORD && !(proc <= target < proc + 7)
    requires proc + 7 < WORD && base + THUNK_BUFFER_SIZE <= WORD
    ensures Prologue([Few()], m, proc) == Some(PushAndJump(proc, target))
    ensures |MovedCode(PushAndJump(proc, target), base + HEADER)| == 7
    ensures var s := ThunkBuffer(base, proc, proxy, PushAndJump(proc, target));
            var m2 := Hooked(m, base, s, proc, [0xFF, 0x25] + LittleEndian(base, 4));
            var out := Some(Outcome(proc, target, data));
            || Run(Few(), m2, Execute, Cpu(base + HEADER, data), 2) == out
            || Run(Few(), m2, Execute, Cpu(base + HEADER, data), 3) == out
  {
    hide PushAndJump, Prologue, MovedCode, Hooked, ThunkBuffer, Run, PushesAndJumps, LittleEndian, Execute, Few;
    PushAndJumpMoves(m, proc, target, base + HEADER);
    ThunkFollowsBoth(m, proc, target, proxy, base, data);
  }

  lemma TwoFit(insns: seq<Insn>, to: int)
    requires |insns| == 2 && forall i :: 0 <= i < 2 ==> FitsAnywhere(insns[i])
    ensures AllFit(insns, to)
  {
    assert FitsAnywhere(insns[0]) && FitsAnywhere(insns[1]);
    assert insns[1..][0] == insns[1] && insns[1..][1..] == [];
  }

  predicate FitsAnywhere(i: Insn) {
    !IsRelative(i.dst.kind) && (IsRelative(i.src1.kind) ==> i.src1.size >= 4) && !IsRelative(i.src2.kind)
  }
}
