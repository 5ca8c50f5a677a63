/** The decoder, relocator and emitter as the code has them: objects that are filled in step by step. */
module Ia32Code {
  import opened Basics
  import opened Ia32Instruction

  /** A pointer into the code that advances as it reads. */
  class OpcodeIterator {
    const memory: Memory
    var ptr: int

    constructor (memory: Memory, ptr: int)
      ensures this.memory == memory && this.ptr == ptr
    {
      this.memory, this.ptr := memory, ptr;
    }

    /** The little-endian reads of one, two, four and eight bytes. */
    method NextValue(n: nat) returns (v: nat)
      modifies this
      ensures v == Value(memory, old(ptr), n) && ptr == old(ptr) + n
    {
      v := Value(memory, ptr, n);
      ptr := ptr + n;
    }

    method NextI8() returns (b: Byte)
      modifies this
      ensures b == memory(old(ptr)) && ptr == old(ptr) + 1
    {
      b := memory(ptr);
      ptr := ptr + 1;
    }
  }

  class PostByte {
    var modRM: Option<Byte>
    var sib: Option<Byte>

    constructor ()
      ensures modRM == None && sib == None
    {
      modRM, sib := None, None;
    }

    method Reset()
      modifies this
      ensures modRM == None && sib == None
    {
      modRM, sib := None, None;
    }

    /** Takes the postbytes under the iterator and moves past what the object then holds if asked to. */
    method Assign(iter: OpcodeIterator, autoInc: bool) returns (count: nat)
      modifies this, iter
      ensures var b := iter.memory(old(iter.ptr));
              && modRM == Some(b)
              && sib == (if HasSib(b) then Some(iter.memory(old(iter.ptr) + 1)) else old(sib))
              && count == (if HasSib(b) then 2 else 1)
              && iter.ptr == old(iter.ptr) + if autoInc then 1 + |OptionBytes(sib)| else 0
    {
      modRM := Some(iter.memory(iter.ptr));
      count := 1;
      if HasSib(modRM.value) {
        sib := Some(iter.memory(iter.ptr + 1));
        count := count + 1;
      }
      if autoInc {
        var _ := iter.NextI8();
        if sib.Some? {
          var _ := iter.NextI8();
        }
      }
    }
  }

  /** `s` with `bytes` written over it from `at` on. */
  function Written(s: seq<Byte>, at: int, bytes: seq<Byte>): (r: seq<Byte>)
    requires 0 <= at && at + |bytes| <= |s|
    ensures |r| == |s|
  {
    s[..at] + bytes + s[at + |bytes|..]
  }

  lemma WrittenTwice(s: seq<Byte>, at: int, x: seq<Byte>, y: seq<Byte>)
    requires 0 <= at && at + |x| + |y| <= |s|
    ensures Written(Written(s, at, x), at + |x|, y) == Written(s, at, x + y)
  {
  }

  lemma WrittenKeepsFront(s: seq<Byte>, at: int, bytes: seq<Byte>)
    requires 0 <= at && at + |bytes| <= |s|
    ensures Written(s, at, bytes)[..at] == s[..at]
  {
  }

  lemma WrittenNothing(s: seq<Byte>, at: int)
    requires 0 <= at <= |s|
    ensures Written(s, at, []) == s
  {
  }

  method Append(buffer: array<Byte>, at: nat, b: Byte) returns (next: nat)
    requires at < buffer.Length
    modifies buffer
    ensures buffer[..] == Written(old(buffer[..]), at, [b]) && next == at + 1
  {
    buffer[at] := b;
    next := at + 1;
  }

  method AppendIfPresent(buffer: array<Byte>, at: nat, b: Option<Byte>) returns (next: nat)
    requires at + |OptionBytes(b)| <= buffer.Length
    modifies buffer
    ensures buffer[..] == Written(old(buffer[..]), at, OptionBytes(b)) && next == at + |OptionBytes(b)|
  {
    next := at;
    if b.Some? {
      next := Append(buffer, next, b.value);
    }
  }

  method AppendOpcode(buffer: array<Byte>, at: nat, e: OpcodeInfo) returns (next: nat)
    requires at + |OpcodeBytes(e)| <= buffer.Length
    modifies buffer
    ensures buffer[..] == Written(old(buffer[..]), at, OpcodeBytes(e)) && next == at + |OpcodeBytes(e)|
  {
    next := at;
    if e.prefix != 0 {
      next := Append(buffer, next, e.prefix);
    }
    next := Append(buffer, next, e.opcode);
  }

  method AppendOperand(buffer: array<Byte>, at: nat, op: Operand) returns (next: nat)
    requires at + op.size <= buffer.Length
    modifies buffer
    ensures buffer[..] == Written(old(buffer[..]), at, OperandBytes(op)) && next == at + op.size
  {
    hide Written;
    ghost var s0 := buffer[..];
    next := at;
    var size, intVal := op.size, op.value;
    ghost var done: seq<Byte> := [];
    WrittenNothing(s0, at);
    while size > 0
      invariant 0 <= size <= op.size && next == at + |done| && |done| + size == op.size
      invariant done + LittleEndian(intVal, size) == OperandBytes(op)
      invariant buffer[..] == Written(s0, at, done)
    {
      WrittenTwice(s0, at, done, [intVal % 256]);
      assert done + LittleEndian(intVal, size) == done + [intVal % 256] + LittleEndian(intVal / 256, size - 1);
      done := done + [intVal % 256];
      next := Append(buffer, next, intVal % 256);
      intVal := intVal / 256;
      size := size - 1;
    }
    assert done == done + LittleEndian(intVal, 0);
  }

  class Instruction {
    var info: Option<OpcodeInfo>
    var address: int
    var codeSize: nat
    var prefixCount: nat
    const prefixBytes: array<Byte>
    const postbyte: PostByte
    var displacement: Operand
    var dst: Operand
    var src1: Operand
    var src2: Operand

    ghost predicate Valid()
      reads this
    {
      prefixBytes.Length == MAX_PREFIX_BYTES && prefixCount <= MAX_PREFIX_BYTES
    }

    ghost function State(): Insn
      requires Valid()
      reads this, prefixBytes, postbyte
    {
      Insn(info, address, codeSize, prefixBytes[..prefixCount], postbyte.modRM, postbyte.sib,
           displacement, dst, src1, src2)
    }

    constructor ()
      ensures Valid() && State() == FRESH && fresh(prefixBytes) && fresh(postbyte)
    {
      info, address, codeSize, prefixCount := None, 0, 0, 0;
      prefixBytes := new Byte[MAX_PREFIX_BYTES](_ => 0);
      postbyte := new PostByte();
      displacement, dst, src1, src2 := NONE, NONE, NONE, NONE;
    }

    /** Forgets the instruction but not the operands. */
    method Reset()
      requires Valid()
      modifies this, postbyte, prefixBytes
      ensures Valid()
      ensures State()
           == FRESH.(displacement := old(displacement), dst := old(dst), src1 := old(src1), src2 := old(src2))
    {
      info, address, codeSize, prefixCount := None, 0, 0, 0;
      forall i | 0 <= i < prefixBytes.Length {
        prefixBytes[i] := 0;
      }
      postbyte.Reset();
    }

    method ProcessPrefix(iter: OpcodeIterator)
      requires Valid() && PrefixesFit(iter.memory, iter.ptr)
      modifies this`prefixCount, prefixBytes, iter
      ensures Valid() && iter.ptr == old(iter.ptr) + prefixCount
      ensures prefixCount == PrefixCount(iter.memory, old(iter.ptr))
      ensures prefixBytes[..prefixCount] == Read(iter.memory, old(iter.ptr), prefixCount)
    {
      ghost var a := iter.ptr;
      prefixCount := 0;
      while IsPrefix(iter.memory(iter.ptr))
        invariant Valid() && iter.ptr == a + prefixCount
        invariant PrefixCount(iter.memory, a) == PrefixRun(iter.memory, a, prefixCount, MAX_PREFIX_BYTES + 1)
        invariant prefixBytes[..prefixCount] == Read(iter.memory, a, prefixCount)
        decreases MAX_PREFIX_BYTES - prefixCount
      {
        assert PrefixAt(iter.memory, a, prefixCount);
        var b := iter.NextI8();
        prefixBytes[prefixCount] := b;
        prefixCount := prefixCount + 1;
      }
      assert !PrefixAt(iter.memory, a, prefixCount);
    }

    /** Whether entry `e` matches under the iterator; if so the iterator is moved past the opcode. */
    static method TryEntry(e: OpcodeInfo, iter: OpcodeIterator) returns (hit: bool)
      modifies iter
      ensures hit == Matches(e, iter.memory, old(iter.ptr))
      ensures hit ==> iter.ptr == old(iter.ptr) + OpcodeLength(e)
    {
      if e.prefix != 0 && e.prefix == iter.memory(iter.ptr) && e.opcode == iter.memory(iter.ptr + 1) {
        var _ := iter.NextI8();
        var _ := iter.NextI8();
      } else if e.prefix == 0 && e.opcode == iter.memory(iter.ptr) {
        var _ := iter.NextI8();
      } else {
        return false;
      }
      hit := true;
      if e.postbyte != POSTBYTE_NONE {
        var modRM := new PostByte();
        var size := modRM.Assign(iter, false);
        hit := e.postbyte == POSTBYTE_REGISTER || e.postbyte == RegisterOrOpcode(modRM.modRM.value);
      }
    }

    /** Walks the tables, each up to its end, for the first entry that matches under the iterator. */
    static method FindOpcode(tables: seq<OpcodeTable>, opIter: OpcodeIterator) returns (found: Option<OpcodeInfo>)
      modifies opIter
      ensures found == Lookup(Concat(tables), opIter.memory, old(opIter.ptr))
      ensures opIter.ptr == old(opIter.ptr) + if found.Some? then OpcodeLength(found.value) else 0
    {
      hide Matches;
      var m, p := opIter.memory, opIter.ptr;
      var t := 0;
      while t < |tables|
        invariant 0 <= t <= |tables| && opIter.ptr == p
        invariant Lookup(Concat(tables), m, p) == Lookup(Concat(tables[t..]), m, p)
      {
        var k := 0;
        assert tables[t..][0] == tables[t] && tables[t..][1..] == tables[t + 1..];
        while k < |tables[t]|
          invariant 0 <= k <= |tables[t]| && opIter.ptr == p
          invariant Lookup(Concat(tables), m, p) == Lookup(tables[t][k..] + Concat(tables[t + 1..]), m, p)
        {
          var e := tables[t][k];
          ghost var rest := tables[t][k..] + Concat(tables[t + 1..]);
          assert rest[0] == e && rest[1..] == tables[t][k + 1..] + Concat(tables[t + 1..]);
          var iter := new OpcodeIterator(m, p);
          var hit := TryEntry(e, iter);
          if hit {
            opIter.ptr := iter.ptr;
            return Some(e);
          }
          k := k + 1;
        }
        assert tables[t][k..] + Concat(tables[t + 1..]) == Concat(tables[t + 1..]);
        t := t + 1;
      }
      found := None;
    }

    static method ProcessOperand(iter: OpcodeIterator, operand: Operand, t: OperandType) returns (r: Operand)
      modifies iter
      ensures r == OperandAt(operand, t, iter.memory, old(iter.ptr))
      ensures iter.ptr == old(iter.ptr) + StreamSize(t)
    {
      r := operand;
      var size := 0;
      if !IsLeftAlone(t) {
        size := StreamSize(t);
        if size == 0 {
          r := Operand(t, 0, 0);
        }
      }
      if size != 0 {
        var v := iter.NextValue(size);
        r := Operand(t, size, v);
      }
    }

    method ProcessPostfix(iter: OpcodeIterator, e: OpcodeInfo)
      requires Valid() && postbyte.sib == None && e.postbyte != POSTBYTE_NONE
      modifies this`displacement, postbyte, iter
      ensures var m, q := iter.memory, old(iter.ptr);
              && postbyte.modRM == ModRMAt(e, m, q) && postbyte.sib == SibAt(e, m, q)
              && displacement
                == OperandAt(old(displacement), DisplacementTypeAt(e, m, q), m, DisplacementStart(e, m, q))
              && iter.ptr == OperandStart(e, m, q)
    {
      hide OperandAt, StreamSize, DisplacementType;
      var _ := postbyte.Assign(iter, true);
      ProcessDisplacement(iter);
    }

    /** The displacement that ModRM and SIB call for. */
    method ProcessDisplacement(iter: OpcodeIterator)
      requires Valid() && postbyte.modRM.Some?
      modifies this`displacement, iter
      ensures var t := DisplacementType(postbyte.modRM, postbyte.sib);
              && displacement == OperandAt(old(displacement), t, iter.memory, old(iter.ptr))
              && iter.ptr == old(iter.ptr) + StreamSize(t)
    {
      var b := postbyte.modRM.value;
      if Mode(b) == 0 {
        if RegisterOrMode(b) == 5 || (postbyte.sib.Some? && SibBase(postbyte.sib.value) == 5) {
          displacement := ProcessOperand(iter, displacement, Imm);
        }
      } else if Mode(b) == 2 {
        displacement := ProcessOperand(iter, displacement, Imm);
      } else if Mode(b) == 1 {
        displacement := ProcessOperand(iter, displacement, Imm8);
      }
    }

    static lemma NoPostfix(e: OpcodeInfo, m: Memory, q: int, stale: Operand)
      ensures e.postbyte == POSTBYTE_NONE
              ==> ModRMAt(e, m, q) == None && SibAt(e, m, q) == None && OperandStart(e, m, q) == q
      ensures e.postbyte == POSTBYTE_NONE
              ==> OperandAt(stale, DisplacementTypeAt(e, m, q), m, DisplacementStart(e, m, q)) == stale
    {
    }

    method Decode(tables: seq<OpcodeTable>, opIter: OpcodeIterator) returns (ok: bool)
      requires Valid() && PrefixesFit(opIter.memory, opIter.ptr)
      modifies this, postbyte, prefixBytes, opIter
      ensures Valid()
      ensures var r := DecodeAt(Concat(tables), opIter.memory, old(opIter.ptr), old(State()));
              && ok == r.Some?
              && (ok ==> State() == r.value && opIter.ptr == old(opIter.ptr) + codeSize)
              && (!ok ==> opIter.ptr == old(opIter.ptr) && info == None)
    {
      hide Lookup, PrefixCount, OperandStart, DisplacementStart, DisplacementTypeAt, ModRMAt, SibAt, OperandAt,
           StreamSize, OpcodeLength, Read, Concat, DecodeAs;
      ghost var was := State();
      Reset();
      address := opIter.ptr;
      var iter := new OpcodeIterator(opIter.memory, opIter.ptr);
      ProcessPrefix(iter);
      var found := FindOpcode(tables, iter);
      if found.None? || found.value.terminator {
        Reset();
        return false;
      }
      var e := found.value;
      info := found;
      DecodeRest(iter, e, was);
      opIter.ptr := iter.ptr;
      ok := true;
    }

    /** What is left once the prefixes and the opcode have been read. */
    method DecodeRest(iter: OpcodeIterator, e: OpcodeInfo, ghost was: Insn)
      requires Valid() && State() == FRESH.(
          info := Some(e), address := address,
          prefixes := Read(iter.memory, address, PrefixCount(iter.memory, address)),
          displacement := was.displacement, dst := was.dst, src1 := was.src1, src2 := was.src2)
      requires iter.ptr == address + PrefixCount(iter.memory, address) + OpcodeLength(e)
      modifies this`displacement, this`dst, this`src1, this`src2, this`codeSize, postbyte, iter
      ensures State() == DecodeAs(e, iter.memory, address, was) && iter.ptr == address + codeSize
    {
      hide PrefixCount, OperandStart, DisplacementStart, DisplacementTypeAt, ModRMAt, SibAt, OperandAt, StreamSize,
           OpcodeLength, Read;
      DecodeEntry(iter, e);
    }

    /** The part behind the opcode, as the entry has it. */
    method DecodeEntry(iter: OpcodeIterator, e: OpcodeInfo)
      requires Valid() && postbyte.modRM == None && postbyte.sib == None
      requires address <= iter.ptr
      modifies this`displacement, this`dst, this`src1, this`src2, this`codeSize, postbyte, iter
      ensures var m, q, n, n1 := iter.memory, old(iter.ptr), StreamSize(e.dst), StreamSize(e.src1);
              var o := OperandStart(e, m, q);
              && postbyte.modRM == ModRMAt(e, m, q) && postbyte.sib == SibAt(e, m, q)
              && displacement
                == OperandAt(old(displacement), DisplacementTypeAt(e, m, q), m, DisplacementStart(e, m, q))
              && dst == OperandAt(old(dst), e.dst, m, o)
              && src1 == OperandAt(old(src1), e.src1, m, o + n)
              && src2 == OperandAt(old(src2), e.src2, m, o + n + n1)
              && iter.ptr == o + n + n1 + StreamSize(e.src2) && codeSize == iter.ptr - address
    {
      hide OperandStart, DisplacementStart, DisplacementTypeAt, ModRMAt, SibAt, OperandAt, StreamSize;
      NoPostfix(e, iter.memory, iter.ptr, displacement);
      HeadIsLong(e, iter.memory, iter.ptr);
      if e.postbyte != POSTBYTE_NONE {
        ProcessPostfix(iter, e);
      }
      ProcessOperands(iter, e);
    }

    method ProcessOperands(iter: OpcodeIterator, e: OpcodeInfo)
      requires Valid() && address <= iter.ptr
      modifies this`dst, this`src1, this`src2, this`codeSize, iter
      ensures var n, n1, n2 := StreamSize(e.dst), StreamSize(e.src1), StreamSize(e.src2);
              var o := old(iter.ptr);
              && dst == OperandAt(old(dst), e.dst, iter.memory, o)
              && src1 == OperandAt(old(src1), e.src1, iter.memory, o + n)
              && src2 == OperandAt(old(src2), e.src2, iter.memory, o + n + n1)
              && iter.ptr == o + n + n1 + n2 && codeSize == iter.ptr - address
    {
      hide OperandAt, StreamSize;
      dst := ProcessOperand(iter, dst, e.dst);
      src1 := ProcessOperand(iter, src1, e.src1);
      src2 := ProcessOperand(iter, src2, e.src2);
      codeSize := iter.ptr - address;
    }

    /** Wrapping an intermediate result to 64 bits does not show in the end. */
    static lemma WrapOnce(x: int, y: int)
      ensures (x % QWORD - y) % QWORD == (x - y) % QWORD
    {
    }

    method Relocate(to: int)
      requires Valid()
      modifies this
      ensures Valid() && State() == Relocated(old(State()), to)
    {
      dst := RelocateOperand(dst, to);
      src1 := RelocateOperand(src1, to);
      src2 := RelocateOperand(src2, to);
      address := to;
    }

    method RelocateOperand(op: Operand, to: int) returns (r: Operand)
      ensures r == RelocatedOperand(op, address, to, codeSize)
    {
      hide Modulus;
      r := op;
      if IsRelative(op.kind) {
        WrapOnce(address + codeSize + op.value, to + codeSize);
        var value := (address + codeSize + op.value) % QWORD;
        value := (value - (to + codeSize)) % QWORD;
        r := Operand(op.kind, op.size, value % Modulus(op.size));
      }
    }

    method Emit(buffer: array<Byte>, at: nat) returns (next: nat)
      requires Valid() && info.Some? && buffer != prefixBytes
      requires at + |Encoding(State())| <= buffer.Length
      modifies buffer
      ensures buffer[..] == Written(old(buffer[..]), at, Encoding(State())) && next == at + |Encoding(State())|
    {
      hide Written, LittleEndian, OpcodeBytes, OptionBytes;
      ghost var s0, i := buffer[..], State();
      ghost var done: seq<Byte> := [];
      next := at;
      WrittenNothing(s0, at);
      for index := 0 to prefixCount
        invariant done == prefixBytes[..index] && next == at + |done|
        invariant prefixBytes[..prefixCount] == i.prefixes
        invariant buffer[..] == Written(s0, at, done)
      {
        WrittenTwice(s0, at, done, [prefixBytes[index]]);
        done := done + [prefixBytes[index]];
        next := Append(buffer, next, prefixBytes[index]);
      }
      WrittenTwice(s0, at, done, OpcodeBytes(info.value));
      done := done + OpcodeBytes(info.value);
      next := AppendOpcode(buffer, next, info.value);
      WrittenTwice(s0, at, done, OptionBytes(postbyte.modRM));
      done := done + OptionBytes(postbyte.modRM);
      next := AppendIfPresent(buffer, next, postbyte.modRM);
      WrittenTwice(s0, at, done, OptionBytes(postbyte.sib));
      done := done + OptionBytes(postbyte.sib);
      next := AppendIfPresent(buffer, next, postbyte.sib);
      WrittenTwice(s0, at, done, OperandBytes(displacement));
      done := done + OperandBytes(displacement);
      next := AppendOperand(buffer, next, displacement);
      assert done == Head(i);
      WrittenTwice(s0, at, done, OperandBytes(dst));
      next := AppendOperand(buffer, next, dst);
      WrittenTwice(s0, at, done + OperandBytes(dst), OperandBytes(src1));
      next := AppendOperand(buffer, next, src1);
      WrittenTwice(s0, at, done + OperandBytes(dst) + OperandBytes(src1), OperandBytes(src2));
      next := AppendOperand(buffer, next, src2);
    }
  }
}
