/** The decoder reads back what the encoder writes. */
module X64RoundTrip {
  import opened X64Encoding
  import opened Options

  // ---------------------------------------------------------------- instructions with a ModRM byte

  function RexOf(w: bool, reg: Reg, rm: Reg, force: bool): Rex {
    var present := w || reg >= 8 || rm >= 8 || force;
    Rex(present, w, reg / 8, 0, rm / 8)
  }

  function Base(rm: Operand): Reg { match rm case Register(r) => r case Memory(b, _) => b }

  function MakeParts(prefix: nat, w: bool, op: Opcode, reg: Reg, rm: Operand, imm: Bytes): Parts {
    Parts(prefix, RexOf(w, reg, Base(rm), false), op, reg, rm, imm)
  }

  function RexByte(x: Rex): Bytes { if x.present then [0x40 + 8 * Bit(x.w) + 4 * x.r + 2 * x.x + x.b] else [] }

  function OpcodeBytes(op: Opcode): Bytes {
    match op case One(b) => [b] case Two(b) => [0x0F, b] case Three(b) => [0x0F, 0x3A, b]
  }

  function ModRm(reg: Reg, rm: Operand): Bytes {
    match rm case Register(r) => ModRmReg(reg, r) case Memory(b, d) => ModRmMem(reg, b, d)
  }

  function Behind(p: Parts): Bytes { ModRm(p.reg, p.rm) + p.imm }

  function BytesOf(p: Parts): Bytes {
    (if p.prefix == 0 then [] else [p.prefix]) + (RexByte(p.rex) + (OpcodeBytes(p.opcode) + Behind(p)))
  }

  /** Parts that are what they look like: no opcode that reads as a prefix, REX bits as the registers
      want them. */
  predicate Proper(p: Parts) {
    && p.prefix in {0, 0x66, 0xF2}
    && p.rex.r == p.reg / 8 && p.rex.b == Base(p.rm) / 8 && p.rex.x == 0
    && (!p.rex.present ==> !p.rex.w && p.rex.r == 0 && p.rex.b == 0)
    && !IsPlain(p.opcode) && OpcodeApart(p.opcode)
    && |p.imm| == ImmLength(p.opcode) && (p.rm.Memory? ==> IsInt32(p.rm.disp))
  }

  predicate OpcodeApart(op: Opcode) {
    match op
    case One(b) => b != 0x0F && b != 0x66 && b != 0xF2 && !(0x40 <= b < 0x50)
    case Two(b) => b != 0x3A
    case Three(_) => true
  }

  lemma Disp8Reads(disp: int, rest: Bytes)
    requires -128 <= disp <= 127
    ensures Disp([disp % 256] + rest, 1) == Some((disp, rest))
  {
    var bs := [disp % 256] + rest;
    assert bs[0] == disp % 256 && bs[1..] == rest;
  }

  lemma Disp32Reads(disp: int, rest: Bytes)
    requires IsInt32(disp)
    ensures Disp(Rel32(disp) + rest, 2) == Some((disp, rest))
  {
    hide Little, FromLittle;
    Rel32Reads(disp);
    var bs := Rel32(disp);
    assert (bs + rest)[..4] == bs && (bs + rest)[4..] == rest;
  }

  /** The displacement's bytes. */
  function DispBytes(disp: int, base: Reg): Bytes {
    if ModOf(base, disp) == 1 then [disp % 256] else if ModOf(base, disp) == 2 then Rel32(disp) else []
  }

  lemma DispReads(disp: int, base: Reg, rest: Bytes)
    requires IsInt32(disp)
    ensures Disp(DispBytes(disp, base) + rest, ModOf(base, disp)) == Some((disp, rest))
    ensures ModOf(base, disp) == 0 ==> base % 8 != 5
  {
    hide Little, FromLittle, Rel32;
    var mod := ModOf(base, disp);
    if mod == 1 {
      Disp8Reads(disp, rest);
    } else if mod == 2 {
      Disp32Reads(disp, rest);
    } else {
      assert [] + rest == rest;
    }
  }

  /** All 16 bases and all displacements; all 16 registers. */
  lemma ModRmReads(reg: Reg, rm: Operand, x: Rex, rest: Bytes)
    requires x.r == reg / 8 && x.b == Base(rm) / 8 && x.x == 0 && (rm.Memory? ==> IsInt32(rm.disp))
    ensures ReadModRm(ModRm(reg, rm) + rest, x) == Some((reg, rm, rest))
  {
    match rm {
      case Register(r) =>
        var bs := ModRmReg(reg, r) + rest;
        FieldsApart(3, reg % 8, r % 8);
        assert bs[0] == 0xC0 + 8 * (reg % 8) + r % 8 && bs[1..] == rest;
      case Memory(b, d) => MemoryReads(reg, b, d, x, rest);
    }
  }

  lemma FieldsApart(mod: nat, reg: nat, rm: nat)
    requires reg < 8 && rm < 8
    ensures var first := 64 * mod + 8 * reg + rm; first / 64 == mod && first / 8 % 8 == reg && first % 8 == rm
  {
  }

  lemma MemoryReads(reg: Reg, b: Reg, d: int, x: Rex, rest: Bytes)
    requires x.r == reg / 8 && x.b == b / 8 && x.x == 0 && IsInt32(d)
    ensures ReadModRm(ModRmMem(reg, b, d) + rest, x) == Some((reg, Memory(b, d), rest))
  {
    hide Disp, DispBytes, ModOf, ModRmMem;
    DispReads(d, b, rest);
    var mod, ds := ModOf(b, d), DispBytes(d, b);
    var first := 64 * mod + 8 * (reg % 8) + b % 8;
    assert mod <= 2 && ModRmMem(reg, b, d) == [first] + (if b % 8 == 4 then [0x24] else []) + ds by {
      MemBytes(reg, b, d);
    }
    var bs := ModRmMem(reg, b, d) + rest;
    FieldsApart(mod, reg % 8, b % 8);
    if b % 8 == 4 {
      assert bs == [first, 0x24] + (ds + rest);
      assert bs[2..] == ds + rest;
    } else {
      assert bs == [first] + (ds + rest);
      assert bs[1..] == ds + rest;
    }
  }

  lemma MemBytes(reg: Reg, b: Reg, d: int)
    ensures ModOf(b, d) <= 2
    ensures ModRmMem(reg, b,
        d) == [64 * ModOf(b, d) + 8 * (reg % 8) + b % 8] + (if b % 8 == 4 then [0x24] else []) + DispBytes(d, b)
  {
    hide Little;
  }

  lemma RexReads(x: Rex, rest: Bytes)
    requires x.r < 2 && x.b < 2 && x.x == 0 && (!x.present ==> !x.w && x.r == 0 && x.b == 0)
    requires !x.present ==> rest != [] && !(0x40 <= rest[0] < 0x50)
    ensures ReadRex(RexByte(x) + rest) == (x, rest)
  {
    if x.present {
      var v := 8 * Bit(x.w) + 4 * x.r + x.b;
      assert (RexByte(x) + rest)[1..] == rest;
      assert v / 8 == Bit(x.w) && v / 4 % 2 == x.r && v / 2 % 2 == 0 && v % 2 == x.b;
    } else {
      assert RexByte(x) + rest == rest;
    }
  }

  lemma OpcodeReads(op: Opcode, rest: Bytes)
    requires OpcodeApart(op)
    ensures ReadOpcode(OpcodeBytes(op) + rest) == Some((op, rest))
  {
    var bs := OpcodeBytes(op) + rest;
    match op
    case One(b) => assert bs[1..] == rest;
    case Two(b) => assert bs[2..] == rest;
    case Three(b) => assert bs[3..] == rest;
  }

  /** Parts are taken apart as they were put together. */
  lemma PartsRead(p: Parts, rest: Bytes)
    requires Proper(p)
    ensures Decode(BytesOf(p) + rest) == match Assembled(p) case Some(i) => Some((i, rest)) case None => None
  {
    hide ReadModRm, ReadRex, ReadOpcode, Assembled, ModRm, RexByte;
    var b4 := p.imm + rest;
    var b3 := ModRm(p.reg, p.rm) + b4;
    var b2 := OpcodeBytes(p.opcode) + b3;
    var b1 := RexByte(p.rex) + b2;
    var bs := (if p.prefix == 0 then [] else [p.prefix]) + b1;
    assert BytesOf(p) + rest == bs;
    ModRmReads(p.reg, p.rm, p.rex, b4);
    OpcodeReads(p.opcode, b3);
    RexReads(p.rex, b2);
    assert ReadPrefix(bs) == (p.prefix, b1) by { PrefixReads(p.prefix, p.rex, p.opcode, b3); }
    assert b4[..|p.imm|] == p.imm && b4[|p.imm|..] == rest;
    assert Parts(p.prefix, p.rex, p.opcode, p.reg, p.rm, p.imm) == p;
  }

  lemma PrefixReads(prefix: nat, x: Rex, op: Opcode, rest: Bytes)
    requires prefix in {0, 0x66, 0xF2} && OpcodeApart(op) && x.r < 2 && x.b < 2 && x.x == 0
    ensures var b1 := RexByte(x) + (OpcodeBytes(op) + rest);
      ReadPrefix((if prefix == 0 then [] else [prefix]) + b1) == (prefix, b1)
  {
    var b1 := RexByte(x) + (OpcodeBytes(op) + rest);
    if prefix == 0 {
      assert [] + b1 == b1;
      assert b1[0] == if x.present then 0x40 + 8 * Bit(x.w) + 4 * x.r + 2 * x.x + x.b else OpcodeBytes(op)[0];
    } else {
      assert ([prefix] + b1)[1..] == b1;
    }
  }

  predicate HasModRm(i: Instr) {
    !i.MovAbs? && !i.Cqo? && !i.PushR? && !i.PopR? && !i.Ret? && !i.Jmp? && !i.Jcc? && !i.CallRel?
  }

  /** The parts of an instruction. */
  function PartsOf(i: Instr): Parts
    requires HasModRm(i) && Legal(i)
  {
    match i
    case MovRR(d, s) => MakeParts(0, true, One(0x89), s, Register(d), [])
    case MovRM(d, b, disp) => MakeParts(0, true, One(0x8B), d, Memory(b, disp), [])
    case MovMR(b, disp, s) => MakeParts(0, true, One(0x89), s, Memory(b, disp), [])
    case AluRR(f, d, s) => MakeParts(0, true, One(AluByte(f)), s, Register(d), [])
    case ImulRR(d, s) => MakeParts(0, true, Two(0xAF), d, Register(s), [])
    case AluRI(g, d, v) => MakeParts(0, true, One(0x81), g, Register(d), Rel32(v))
    case ShiftRI(g, d, n) => MakeParts(0, true, One(0xC1), g, Register(d), [n])
    case NegR(d) => MakeParts(0, true, One(0xF7), 3, Register(d), [])
    case NotR(d) => MakeParts(0, true, One(0xF7), 2, Register(d), [])
    case IdivR(d) => MakeParts(0, true, One(0xF7), 7, Register(d), [])
    case CallR(d) => MakeParts(0, false, One(0xFF), 2, Register(d), [])
    case Setcc(c, d) => Parts(0, RexOf(false, 0, d, d >= 4), Two(0x90 + c), 0, Register(d), [])
    case MovzxR8(d, s) => MakeParts(0, true, Two(0xB6), d, Register(s), [])
    case MovzxRM8(d, b, disp) => MakeParts(0, true, Two(0xB6), d, Memory(b, disp), [])
    case MovMI8(b, disp, n) => MakeParts(0, false, One(0xC6), 0, Memory(b, disp), [n])
    case MovsdXM(d, b, disp) => MakeParts(0xF2, false, Two(0x10), d, Memory(b, disp), [])
    case MovsdMX(b, disp, s) => MakeParts(0xF2, false, Two(0x11), s, Memory(b, disp), [])
    case SseRR(g, d, s) => MakeParts(0xF2, false, Two(SseByte(g)), d, Register(s), [])
    case Xorpd(d, s) => MakeParts(0x66, false, Two(0x57), d, Register(s), [])
    case Ucomisd(d, s) => MakeParts(0x66, false, Two(0x2E), d, Register(s), [])
    case Cvtsi2sd(d, s) => MakeParts(0xF2, true, Two(0x2A), d, Register(s), [])
    case Cvttsd2si(d, s) => MakeParts(0xF2, true, Two(0x2C), d, Register(s), [])
    case Roundsd(d, s, n) => MakeParts(0x66, false, Three(0x0B), d, Register(s), [n])
    case MovqRX(d, s) => MakeParts(0x66, true, Two(0x7E), s, Register(d), [])
    case MovqXR(d, s) => MakeParts(0x66, true, Two(0x6E), d, Register(s), [])
  }

  lemma RexSame(w: bool, reg: Reg, rm: Reg)
    ensures RexBytes(w, reg, rm) == RexByte(RexOf(w, reg, rm, false))
  {
  }

  /** An opcode's digit is no extended register. */
  lemma RexDigit(w: bool, digit: Reg, rm: Reg)
    requires digit < 8
    ensures RexBytes(w, digit, rm) == RexBytes(w, 0, rm)
  {
  }

  lemma Rel32Reads(v: int)
    requires IsInt32(v)
    ensures |Rel32(v)| == 4 && Signed32(FromLittle(Rel32(v))) == v
  {
    Widths();
    LittleReads(v % TWO32, 4);
  }

  lemma PartsProper(i: Instr)
    requires HasModRm(i) && Legal(i)
    ensures Proper(PartsOf(i))
  {
    hide Little, FromLittle;
    if i.AluRI? { Rel32Reads(i.v); }
  }

  lemma PartsAssemble(i: Instr)
    requires HasModRm(i) && Legal(i)
    ensures Assembled(PartsOf(i)) == Some(i)
  {
    hide Little, FromLittle;
    if i.AluRI? { Rel32Reads(i.v); }
  }

  lemma PartsEncode(i: Instr)
    requires HasModRm(i) && Legal(i)
    ensures Encode(i) == BytesOf(PartsOf(i))
  {
    hide Little, RexBytes, RexByte, ModRmReg, ModRmMem;
    var p := PartsOf(i);
    if i.Setcc? {
      SetccBytes(i);
    } else {
      RexSame(p.rex.w, p.reg, Base(p.rm));
      if p.reg < 8 { RexDigit(p.rex.w, p.reg, Base(p.rm)); }
      PartsConcat(p);
      var q := (if p.prefix == 0 then RexByte(p.rex) else [p.prefix] + RexByte(p.rex)) + OpcodeBytes(p.opcode);
      assert q + (ModRm(p.reg, p.rm) + p.imm) == q + ModRm(p.reg, p.rm) + p.imm;
      assert q + ModRm(p.reg, p.rm) + [] == q + ModRm(p.reg, p.rm);
    }
  }

  lemma PartsConcat(p: Parts)
    ensures BytesOf(p) ==
      (if p.prefix == 0 then RexByte(p.rex) else [p.prefix] + RexByte(p.rex)) + OpcodeBytes(p.opcode)
        + (ModRm(p.reg, p.rm) + p.imm)
  {
    hide RexByte, ModRm, OpcodeBytes;
  }

  lemma SetccBytes(i: Instr)
    requires i.Setcc? && Legal(i)
    ensures Encode(i) == BytesOf(PartsOf(i))
  {
  }

  // ---------------------------------------------------------------- the others

  lemma CqoReads(rest: Bytes)
    ensures Decode(Encode(Cqo) + rest) == Some((Cqo, rest))
  {
    hide Little, FromLittle, ReadModRm, Assembled, Rel32;
    var bs := Encode(Cqo) + rest;
    assert bs[1..] == [0x99] + rest && bs[1..][1..] == rest;
  }

  lemma RetReads(rest: Bytes)
    ensures Decode(Encode(Ret) + rest) == Some((Ret, rest))
  {
    hide Little, FromLittle, ReadModRm, Assembled, Rel32;
    var bs := Encode(Ret) + rest;
    assert bs[1..] == rest;
  }

  lemma PlainReads(i: Instr, rest: Bytes)
    requires !HasModRm(i) && Legal(i)
    ensures Decode(Encode(i) + rest) == Some((i, rest))
  {
    hide Little, FromLittle, ReadModRm, Assembled, Rel32;
    var bs := Encode(i) + rest;
    match i {
      case MovAbs(d, v) => MovAbsReads(d, v, rest);
      case Cqo => CqoReads(rest);
      case Ret => RetReads(rest);
      case PushR(d) => StackReads(d, 0x50, rest);
      case PopR(d) => StackReads(d, 0x58, rest);
      case Jmp(_) => BranchReads(i, rest);
      case CallRel(_) => BranchReads(i, rest);
      case Jcc(_, _) => BranchReads(i, rest);
    }
  }

  lemma BranchReads(i: Instr, rest: Bytes)
    requires (i.Jmp? || i.CallRel? || i.Jcc?) && Legal(i)
    ensures Decode(Encode(i) + rest) == Some((i, rest))
  {
    hide Little, FromLittle, ReadModRm, Assembled, Rel32;
    RelReads(i.rel, rest);
    var bs := Encode(i) + rest;
    if i.Jcc? {
      assert bs[2..] == Rel32(i.rel) + rest;
    } else {
      assert bs[1..] == Rel32(i.rel) + rest;
    }
  }

  lemma MovAbsReads(d: Reg, v: nat, rest: Bytes)
    requires v < TWO32 * TWO32
    ensures Decode(Encode(MovAbs(d, v)) + rest) == Some((MovAbs(d, v), rest))
  {
    hide Little, FromLittle, ReadModRm, Assembled, Pow256;
    Widths();
    LittleReads(v, 8);
    var bs := Encode(MovAbs(d, v)) + rest;
    var x := RexOf(true, 0, d, false);
    var b3 := Little(v, 8) + rest;
    var b2 := [0xB8 + d % 8] + b3;
    RexSame(true, 0, d);
    assert bs == RexByte(x) + b2;
    RexReads(x, b2);
    assert b2[1..] == b3 && b3[..8] == Little(v, 8) && b3[8..] == rest;
  }

  lemma RelReads(rel: int, rest: Bytes)
    requires IsInt32(rel)
    ensures var bs := Rel32(rel) + rest;
      |bs| >= 4 && Signed32(FromLittle(bs[..4])) == rel && bs[4..] == rest
  {
    Rel32Reads(rel);
    assert (Rel32(rel) + rest)[..4] == Rel32(rel);
  }

  lemma StackReads(d: Reg, op: nat, rest: Bytes)
    requires op == 0x50 || op == 0x58
    ensures var bs := (if d >= 8 then [0x41] else []) + [op + d % 8] + rest;
      && ReadPrefix(bs) == (0, bs) && ReadRex(bs) == (Rex(d >= 8, false, 0, 0, d / 8), [op + d % 8] + rest)
      && ReadOpcode([op + d % 8] + rest) == Some((One(op + d % 8), rest))
  {
    var bs := (if d >= 8 then [0x41] else []) + [op + d % 8] + rest;
    if d >= 8 {
      assert bs[1..] == [op + d % 8] + rest;
    } else {
      assert bs == [op + d % 8] + rest;
    }
  }

  // ---------------------------------------------------------------- streams

  /** Any instruction, at the front of any stream, is read back as it was written. */
  lemma InstructionReads(i: Instr, rest: Bytes)
    requires Legal(i)
    ensures Decode(Encode(i) + rest) == Some((i, rest))
  {
    hide Decode, Encode, BytesOf, Assembled, PartsOf;
    if HasModRm(i) {
      PartsProper(i);
      PartsEncode(i);
      PartsAssemble(i);
      PartsRead(PartsOf(i), rest);
    } else {
      PlainReads(i, rest);
    }
  }

  function EncodeAll(ins: seq<Instr>): Bytes {
    if ins == [] then [] else Encode(ins[0]) + EncodeAll(ins[1..])
  }

  function DecodeAll(bs: Bytes, n: nat): Option<seq<Instr>>
    decreases n
  {
    if bs == [] then Some([])
    else if n == 0 then None
    else match Decode(bs)
      case None => None
      case Some(r) => (match DecodeAll(r.1, n - 1) case Some(ins) => Some([r.0] + ins) case None => None)
  }

  lemma EncodeSome(i: Instr)
    ensures |Encode(i)| > 0
  {
    hide ModRmMem, Little;
  }

  /** Decoding inverts encoding, for whole programs. */
  lemma {:induction false} ProgramReads(ins: seq<Instr>)
    requires forall i :: i in ins ==> Legal(i)
    ensures DecodeAll(EncodeAll(ins), |ins|) == Some(ins)
  {
    hide Decode, Encode;
    if ins != [] {
      EncodeSome(ins[0]);
      InstructionReads(ins[0], EncodeAll(ins[1..]));
      ProgramReads(ins[1..]);
      assert [ins[0]] + ins[1..] == ins;
    }
  }
}
