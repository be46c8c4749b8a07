/** The x86-64 instructions the code generator uses: their bytes, and a decoder for such bytes.

 Encoding and decoding follow the Intel 64 and IA-32 Architectures Software Developer's Manual, Volume
 2A, sections 2.1.5 (ModRM and SIB) and 2.2.1 (REX prefixes). */
module X64Encoding {
  import opened Options

  type Bytes = seq<nat>

  // ---------------------------------------------------------------- numbers in bytes

  function Little(v: nat, n: nat): Bytes
    decreases n
  {
    if n == 0 then [] else [v % 256] + Little(v / 256, n - 1)
  }

  function FromLittle(b: Bytes): nat { if b == [] then 0 else b[0] + 256 * FromLittle(b[1..]) }

  function Pow256(n: nat): (p: nat)
    ensures p > 0
  {
    if n == 0 then 1 else 256 * Pow256(n - 1)
  }

  lemma {:induction false} LittleReads(v: nat, n: nat)
    requires v < Pow256(n)
    ensures |Little(v, n)| == n && FromLittle(Little(v, n)) == v && forall b :: b in Little(v, n) ==> b < 256
    decreases n
  {
    if n > 0 {
      assert v / 256 < Pow256(n - 1);
      LittleReads(v / 256, n - 1);
      assert Little(v, n)[1..] == Little(v / 256, n - 1);
    }
  }

  lemma {:induction false} LittleLength(v: nat, n: nat)
    ensures |Little(v, n)| == n && forall b :: b in Little(v, n) ==> b < 256
    decreases n
  {
    if n > 0 { LittleLength(v / 256, n - 1); }
  }

  const TWO32 := 0x1_0000_0000

  lemma Widths()
    ensures Pow256(1) == 256 && Pow256(4) == TWO32 && Pow256(8) == TWO32 * TWO32
  {
    assert Pow256(1) == 256;
    assert Pow256(2) == 65536;
    assert Pow256(3) == 65536 * 256;
    assert Pow256(4) == TWO32;
    assert Pow256(5) == TWO32 * 256;
    assert Pow256(6) == TWO32 * 65536;
    assert Pow256(7) == TWO32 * 65536 * 256;
  }

  predicate IsInt32(v: int) { -0x8000_0000 <= v < 0x8000_0000 }

  function Signed32(v: nat): int { if v >= 0x8000_0000 then v - TWO32 else v }

  function Signed8(v: nat): int { if v >= 128 then v - 256 else v }

  // ---------------------------------------------------------------- instructions

  /** Registers 0 to 15 of either kind. */
  type Reg = r: nat | r < 16

  datatype Alu = AddOp | OrOp | AndOp | SubOp | XorOp | CmpOp
  datatype Sse = MovsdRR | Addsd | Subsd | Mulsd | Divsd | Sqrtsd | Minsd | Maxsd

  datatype Instr =
    | MovRR(d: Reg, s: Reg) | MovRM(d: Reg, base: Reg, disp: int) | MovMR(base: Reg, disp: int, s: Reg)
    | MovAbs(d: Reg, imm: nat)
    | AluRR(f: Alu, d: Reg, s: Reg) | ImulRR(d: Reg, s: Reg)
    | AluRI(digit: nat, d: Reg, v: int) | ShiftRI(digit: nat, d: Reg, n: nat)
    | NegR(d: Reg) | NotR(d: Reg) | IdivR(d: Reg) | Cqo
    | PushR(d: Reg) | PopR(d: Reg) | CallR(d: Reg) | Ret
    | Setcc(c: nat, d: Reg)
    | MovzxR8(d: Reg, s: Reg) | MovzxRM8(d: Reg, base: Reg, disp: int) | MovMI8(base: Reg, disp: int, n: nat)
    | Jmp(rel: int) | Jcc(c: nat, rel: int) | CallRel(rel: int)
    | MovsdXM(d: Reg, base: Reg, disp: int) | MovsdMX(base: Reg, disp: int, s: Reg)
    | SseRR(g: Sse, d: Reg, s: Reg) | Xorpd(d: Reg, s: Reg) | Ucomisd(d: Reg, s: Reg)
    | Cvtsi2sd(d: Reg, s: Reg) | Cvttsd2si(d: Reg, s: Reg) | Roundsd(d: Reg, s: Reg, n: nat)
    | MovqRX(d: Reg, s: Reg) | MovqXR(d: Reg, s: Reg)

  /** Operands fit their fields. */
  predicate Legal(i: Instr) {
    match i
    case MovRM(_, _, d) => IsInt32(d) case MovMR(_, d, _) => IsInt32(d)
    case MovAbs(_, v) => v < TWO32 * TWO32
    case AluRI(g, _, v) => g in {0, 4, 5, 7} && IsInt32(v)
    case ShiftRI(g, _, n) => g in {4, 5, 7} && n < 256
    case Setcc(c, _) => c < 16
    case MovzxRM8(_, _, d) => IsInt32(d)
    case MovMI8(_, d, n) => IsInt32(d) && n < 256
    case Jmp(r) => IsInt32(r) case Jcc(c, r) => c < 16 && IsInt32(r) case CallRel(r) => IsInt32(r)
    case MovsdXM(_, _, d) => IsInt32(d) case MovsdMX(_, d, _) => IsInt32(d)
    case Roundsd(_, _, n) => n < 256
    case _ => true
  }

  // ---------------------------------------------------------------- the encoder's parts

  function Bit(b: bool): nat { if b then 1 else 0 }

  /** A REX prefix, if it says anything. */
  function RexBytes(w: bool, reg: Reg, rm: Reg): Bytes {
    var r := 0x40 + 8 * Bit(w) + 4 * (reg / 8) + rm / 8;
    if r != 0x40 then [r] else []
  }

  function ModRmReg(reg: Reg, rm: Reg): Bytes { [0xC0 + 8 * (reg % 8) + rm % 8] }

  /** How many bytes of displacement: none for zero - except with RBP and R13, where that would mean
      something else -, one, or four. */
  function ModOf(base: Reg, disp: int): nat {
    if disp == 0 && base % 8 != 5 then 0 else if -128 <= disp <= 127 then 1 else 2
  }

  /** `[base + disp]`; RSP and R12 need a SIB byte. */
  function ModRmMem(reg: Reg, base: Reg, disp: int): Bytes {
    [64 * ModOf(base, disp) + 8 * (reg % 8) + base % 8]
    + (if base % 8 == 4 then [0x24] else [])
    + (if ModOf(base, disp) == 1 then [disp % 256] else if ModOf(base, disp) == 2 then Little(disp % TWO32, 4) else [])
  }

  function AluByte(f: Alu): nat {
    match f
    case AddOp => 0x01 case OrOp => 0x09 case AndOp => 0x21
    case SubOp => 0x29 case XorOp => 0x31 case CmpOp => 0x39
  }

  function SseByte(g: Sse): nat {
    match g
    case MovsdRR => 0x10 case Addsd => 0x58 case Subsd => 0x5C case Mulsd => 0x59 case Divsd => 0x5E
    case Sqrtsd => 0x51 case Minsd => 0x5D case Maxsd => 0x5F
  }

  function Rel32(rel: int): Bytes { Little(rel % TWO32, 4) }

  /** What the emitting methods write. */
  function Encode(i: Instr): Bytes {
    match i
    case MovRR(d, s) => RexBytes(true, s, d) + [0x89] + ModRmReg(s, d)
    case MovRM(d, b, disp) => RexBytes(true, d, b) + [0x8B] + ModRmMem(d, b, disp)
    case MovMR(b, disp, s) => RexBytes(true, s, b) + [0x89] + ModRmMem(s, b, disp)
    case MovAbs(d, v) => RexBytes(true, 0, d) + [0xB8 + d % 8] + Little(v, 8)
    case AluRR(f, d, s) => RexBytes(true, s, d) + [AluByte(f)] + ModRmReg(s, d)
    case ImulRR(d, s) => RexBytes(true, d, s) + [0x0F, 0xAF] + ModRmReg(d, s)
    case AluRI(g, d, v) => RexBytes(true, 0, d) + [0x81] + ModRmReg(if g < 16 then g else 0, d) + Rel32(v)
    case ShiftRI(g, d, n) => RexBytes(true, 0, d) + [0xC1] + ModRmReg(if g < 16 then g else 0, d) + [n]
    case NegR(d) => RexBytes(true, 0, d) + [0xF7] + ModRmReg(3, d)
    case NotR(d) => RexBytes(true, 0, d) + [0xF7] + ModRmReg(2, d)
    case IdivR(d) => RexBytes(true, 0, d) + [0xF7] + ModRmReg(7, d)
    case Cqo => [0x48, 0x99]
    case PushR(d) => (if d >= 8 then [0x41] else []) + [0x50 + d % 8]
    case PopR(d) => (if d >= 8 then [0x41] else []) + [0x58 + d % 8]
    case CallR(d) => RexBytes(false, 0, d) + [0xFF] + ModRmReg(2, d)
    case Ret => [0xC3]
    case Setcc(c, d) => (if d >= 4 then [0x40 + d / 8] else []) + [0x0F, 0x90 + c] + ModRmReg(0, d)
    case MovzxR8(d, s) => RexBytes(true, d, s) + [0x0F, 0xB6] + ModRmReg(d, s)
    case MovzxRM8(d, b, disp) => RexBytes(true, d, b) + [0x0F, 0xB6] + ModRmMem(d, b, disp)
    case MovMI8(b, disp, n) => RexBytes(false, 0, b) + [0xC6] + ModRmMem(0, b, disp) + [n]
    case Jmp(rel) => [0xE9] + Rel32(rel)
    case Jcc(c, rel) => [0x0F, 0x80 + c] + Rel32(rel)
    case CallRel(rel) => [0xE8] + Rel32(rel)
    case MovsdXM(d, b, disp) => [0xF2] + RexBytes(false, d, b) + [0x0F, 0x10] + ModRmMem(d, b, disp)
    case MovsdMX(b, disp, s) => [0xF2] + RexBytes(false, s, b) + [0x0F, 0x11] + ModRmMem(s, b, disp)
    case SseRR(g, d, s) => [0xF2] + RexBytes(false, d, s) + [0x0F, SseByte(g)] + ModRmReg(d, s)
    case Xorpd(d, s) => [0x66] + RexBytes(false, d, s) + [0x0F, 0x57] + ModRmReg(d, s)
    case Ucomisd(d, s) => [0x66] + RexBytes(false, d, s) + [0x0F, 0x2E] + ModRmReg(d, s)
    case Cvtsi2sd(d, s) => [0xF2] + RexBytes(true, d, s) + [0x0F, 0x2A] + ModRmReg(d, s)
    case Cvttsd2si(d, s) => [0xF2] + RexBytes(true, d, s) + [0x0F, 0x2C] + ModRmReg(d, s)
    case Roundsd(d, s, n) => [0x66] + RexBytes(false, d, s) + [0x0F, 0x3A, 0x0B] + ModRmReg(d, s) + [n]
    case MovqRX(d, s) => [0x66] + RexBytes(true, s, d) + [0x0F, 0x7E] + ModRmReg(s, d)
    case MovqXR(d, s) => [0x66] + RexBytes(true, d, s) + [0x0F, 0x6E] + ModRmReg(d, s)
  }

  // ---------------------------------------------------------------- the decoder

  /** The bits of a REX prefix; without one they are zero. */
  datatype Rex = Rex(present: bool, w: bool, r: nat, x: nat, b: nat)

  datatype Opcode = One(op: nat) | Two(op: nat) | Three(op: nat)

  datatype Operand = Register(rm: Reg) | Memory(base: Reg, disp: int)

  /** An instruction taken apart. */
  datatype Parts = Parts(prefix: nat, rex: Rex, opcode: Opcode, reg: Reg, rm: Operand, imm: Bytes)

  function ReadPrefix(bs: Bytes): (nat, Bytes) {
    if bs != [] && (bs[0] == 0x66 || bs[0] == 0xF2) then (bs[0], bs[1..]) else (0, bs)
  }

  function ReadRex(bs: Bytes): (Rex, Bytes) {
    if bs != [] && 0x40 <= bs[0] < 0x50 then
      var v := bs[0] - 0x40;
      (Rex(true, v / 8 == 1, v / 4 % 2, v / 2 % 2, v % 2), bs[1..])
    else (Rex(false, false, 0, 0, 0), bs)
  }

  function ReadOpcode(bs: Bytes): Option<(Opcode, Bytes)> {
    if bs == [] then None
    else if bs[0] != 0x0F then Some((One(bs[0]), bs[1..]))
    else if |bs| < 2 then None
    else if bs[1] != 0x3A then Some((Two(bs[1]), bs[2..]))
    else if |bs| < 3 then None
    else Some((Three(bs[2]), bs[3..]))
  }

  function Disp(bs: Bytes, mod: nat): Option<(int, Bytes)> {
    if mod == 0 then Some((0, bs))
    else if mod == 1 then (if |bs| < 1 then None else Some((Signed8(bs[0]), bs[1..])))
    else if |bs| < 4 then None
    else Some((Signed32(FromLittle(bs[..4])), bs[4..]))
  }

  /** ModRM and what belongs to it.  With mod 3 the rm field is a register; otherwise 4 announces a SIB
      byte, in which index 4 is "no index", and 5 with mod 0 is not a base register. */
  function ReadModRm(bs: Bytes, x: Rex): Option<(Reg, Operand, Bytes)>
    requires x.r < 2 && x.b < 2
  {
    if bs == [] || bs[0] >= 256 then None
    else
      var mod, reg, rm := bs[0] / 64, bs[0] / 8 % 8 + 8 * x.r, bs[0] % 8;
      if mod == 3 then Some((reg, Register(rm + 8 * x.b), bs[1..]))
      else if rm == 4 then
        if |bs| < 2 || bs[1] / 8 % 8 != 4 || x.x != 0 || (bs[1] % 8 == 5 && mod == 0) then None
        else (match Disp(bs[2..], mod)
              case Some(d) => Some((reg, Memory(bs[1] % 8 + 8 * x.b, d.0), d.1))
              case None => None)
      else if rm == 5 && mod == 0 then None
      else (match Disp(bs[1..], mod)
            case Some(d) => Some((reg, Memory(rm + 8 * x.b, d.0), d.1))
            case None => None)
  }

  function ImmLength(op: Opcode): nat {
    if op == One(0x81) then 4 else if op == One(0xC1) || op == One(0xC6) || op == Three(0x0B) then 1 else 0
  }

  function AluOf(b: nat): Option<Alu> {
    if b == 0x01 then Some(AddOp) else if b == 0x09 then Some(OrOp) else if b == 0x21 then Some(AndOp)
    else if b == 0x29 then Some(SubOp) else if b == 0x31 then Some(XorOp) else if b == 0x39 then Some(CmpOp) else None
  }

  function SseOf(b: nat): Option<Sse> {
    if b == 0x10 then Some(MovsdRR) else if b == 0x58 then Some(Addsd) else if b == 0x5C then Some(Subsd)
    else if b == 0x59 then Some(Mulsd) else if b == 0x5E then Some(Divsd) else if b == 0x51 then Some(Sqrtsd)
    else if b == 0x5D then Some(Minsd) else if b == 0x5F then Some(Maxsd) else None
  }

  /** The instruction with a ModRM byte that the parts make up. */
  function Assembled(p: Parts): Option<Instr> {
    if p.prefix == 0xF2 then ScalarDouble(p)
    else if p.prefix == 0x66 then Packed(p)
    else match p.opcode
      case One(b) =>
        if !p.rex.w then
          (if b == 0xFF && p.reg == 2 && p.rm.Register? then Some(CallR(p.rm.rm))
           else if b == 0xC6 && p.reg == 0 && p.rm.Memory?
             && |p.imm| == 1 then Some(MovMI8(p.rm.base, p.rm.disp, p.imm[0]))
           else None)
        else if p.rm.Memory? then
          (if b == 0x89 then Some(MovMR(p.rm.base, p.rm.disp, p.reg))
           else if b == 0x8B then Some(MovRM(p.reg, p.rm.base, p.rm.disp))
           else None)
        else
          (if b == 0x89 then Some(MovRR(p.rm.rm, p.reg))
           else if b == 0x81 && p.reg in {0, 4, 5, 7} then Some(AluRI(p.reg, p.rm.rm, Signed32(FromLittle(p.imm))))
           else if b == 0xC1 && p.reg in {4, 5, 7} && |p.imm| == 1 then Some(ShiftRI(p.reg, p.rm.rm, p.imm[0]))
           else if b == 0xF7 then
             (if p.reg == 3 then Some(NegR(p.rm.rm)) else if p.reg == 2 then Some(NotR(p.rm.rm))
              else if p.reg == 7 then Some(IdivR(p.rm.rm)) else None)
           else match AluOf(b) case Some(f) => Some(AluRR(f, p.rm.rm, p.reg)) case None => None)
      case Two(b) =>
        if p.rex.w then
          (if b == 0xAF && p.rm.Register? then Some(ImulRR(p.reg, p.rm.rm))
           else if b == 0xB6 then
             (match p.rm case Register(s) => Some(MovzxR8(p.reg, s)) case Memory(m, d) => Some(MovzxRM8(p.reg, m, d)))
           else None)
        else if 0x90 <= b < 0xA0 && p.reg == 0 && p.rm.Register? && (p.rm.rm >= 4 ==> p.rex.present) then
          Some(Setcc(b - 0x90, p.rm.rm))
        else None
      case Three(_) => None
  }

  function ScalarDouble(p: Parts): Option<Instr> {
    if !p.opcode.Two? then None
    else if p.rex.w then
      (if p.rm.Memory? then None
       else if p.opcode.op == 0x2A then Some(Cvtsi2sd(p.reg, p.rm.rm))
       else if p.opcode.op == 0x2C then Some(Cvttsd2si(p.reg, p.rm.rm))
       else None)
    else match p.rm
      case Memory(m, d) =>
        if p.opcode.op == 0x10 then Some(MovsdXM(p.reg, m, d))
        else if p.opcode.op == 0x11 then Some(MovsdMX(m, d, p.reg)) else None
      case Register(s) => (match SseOf(p.opcode.op) case Some(g) => Some(SseRR(g, p.reg, s)) case None => None)
  }

  function Packed(p: Parts): Option<Instr> {
    if p.rm.Memory? then None
    else match p.opcode
      case One(_) => None
      case Three(b) => if b == 0x0B && !p.rex.w && |p.imm| == 1 then Some(Roundsd(p.reg, p.rm.rm, p.imm[0])) else None
      case Two(b) =>
        if p.rex.w then
          (if b == 0x7E then Some(MovqRX(p.rm.rm, p.reg)) else if b == 0x6E then Some(MovqXR(p.reg, p.rm.rm)) else None)
        else if b == 0x57 then Some(Xorpd(p.reg, p.rm.rm))
        else if b == 0x2E then Some(Ucomisd(p.reg, p.rm.rm))
        else None
  }

  /** Instructions without a ModRM byte, behind prefixes and opcode. */
  function Plain(prefix: nat, x: Rex, op: Opcode, bs: Bytes): Option<(Instr, Bytes)>
    requires x.b < 2
  {
    if prefix != 0 then None
    else match op
      case One(b) =>
        if b == 0xC3 then Some((Ret, bs))
        else if b == 0x99 && x.w then Some((Cqo, bs))
        else if 0x50 <= b < 0x58 then Some((PushR(b - 0x50 + 8 * x.b), bs))
        else if 0x58 <= b < 0x60 then Some((PopR(b - 0x58 + 8 * x.b), bs))
        else if 0xB8 <= b < 0xC0 && x.w
          && |bs| >= 8 then Some((MovAbs(b - 0xB8 + 8 * x.b, FromLittle(bs[..8])), bs[8..]))
        else if b == 0xE9 && |bs| >= 4 then Some((Jmp(Signed32(FromLittle(bs[..4]))), bs[4..]))
        else if b == 0xE8 && |bs| >= 4 then Some((CallRel(Signed32(FromLittle(bs[..4]))), bs[4..]))
        else None
      case Two(b) =>
        if 0x80 <= b < 0x90 && |bs| >= 4 then Some((Jcc(b - 0x80, Signed32(FromLittle(bs[..4]))), bs[4..])) else None
      case Three(_) => None
  }

  /** Opcodes that are complete without ModRM. */
  predicate IsPlain(op: Opcode) {
    match op
    case One(b) => b in {0xC3, 0x99, 0xE9, 0xE8} || 0x50 <= b < 0x60 || 0xB8 <= b < 0xC0
    case Two(b) => 0x80 <= b < 0x90
    case Three(_) => false
  }

  /** The first instruction of a byte stream, and the bytes behind it. */
  function Decode(bs: Bytes): Option<(Instr, Bytes)> {
    var (prefix, b1) := ReadPrefix(bs);
    var (x, b2) := ReadRex(b1);
    match ReadOpcode(b2)
    case None => None
    case Some(o) =>
      var (op, b3) := o;
      if IsPlain(op) then Plain(prefix, x, op, b3)
      else match ReadModRm(b3, x)
        case None => None
        case Some(m) =>
          var (reg, rm, b4) := m;
          var n := ImmLength(op);
          if |b4| < n then None
          else match Assembled(Parts(prefix, x, op, reg, rm, b4[..n]))
            case Some(i) => Some((i, b4[n..]))
            case None => None
  }
}
