/** Values, instructions and their encoding, and the stack machine that runs them.

 Code is a sequence of cells, one a byte; an operand of two bytes is stored high byte first.  Cells
 are not bounded here, so that an operand that does not fit in two bytes is still read back as it
 was written: that the compiler only emits bytes is proved about the compiler. */
module Bytecode {

  // ---------------------------------------------------------------- 64-bit integers

  const TWO63 := 0x8000_0000_0000_0000
  const TWO64 := 0x1_0000_0000_0000_0000

  /** Two's complement wrap-around to 64 bits. */
  function Wrap(n: int): (r: int)
    ensures -TWO63 <= r < TWO63
    ensures -TWO63 <= n < TWO63 ==> r == n
  {
    (n + TWO63) % TWO64 - TWO63
  }

  function Unsigned(n: int): (r: nat)
    ensures r < TWO64
  {
    n % TWO64
  }

  /** The bits that two naturals have in common, either of them, or exactly one of them. */
  function BitAnd(x: nat, y: nat): nat {
    if x == 0 || y == 0 then 0 else 2 * BitAnd(x / 2, y / 2) + (x % 2) * (y % 2)
  }

  function BitOr(x: nat, y: nat): nat {
    if x == 0 then y else if y == 0 then x
    else 2 * BitOr(x / 2, y / 2) + (if x % 2 + y % 2 > 0 then 1 else 0)
  }

  function BitXor(x: nat, y: nat): nat {
    if x == 0 then y else if y == 0 then x
    else 2 * BitXor(x / 2, y / 2) + (x + y) % 2
  }

  function Pow2(n: nat): (p: nat)
    ensures p > 0
  {
    if n == 0 then 1 else 2 * Pow2(n - 1)
  }

  /** Division that truncates towards zero, and its remainder. */
  function TruncDiv(a: int, b: int): int
    requires b != 0
  {
    if b > 0 then (if a >= 0 then a / b else -((-a) / b))
    else if a >= 0 then -(a / (-b)) else (-a) / (-b)
  }

  function TruncMod(a: int, b: int): int
    requires b != 0
  {
    if b > 0 then (if a >= 0 then a % b else -((-a) % b))
    else if a >= 0 then a % (-b) else -((-a) % (-b))
  }

  // ---------------------------------------------------------------- values and operators

  /** `Shown(v)` is the text of a value, `ErrorText` the text of a runtime error; what such texts
      contain is not modelled. */
  datatype Value = Int(n: int) | Bool(b: bool) | Null | Shown(v: Value) | ErrorText {
    predicate IsText() { Shown? || ErrorText? }
    function Text(): Value { if IsText() then this else Shown(this) }
  }

  predicate Truthy(v: Value) {
    match v
    case Int(n) => n != 0
    case Bool(b) => b
    case Null => false
    case _ => true
  }

  datatype BinOp = Add | Sub | Mul | FloorDiv | Mod | Band | Bor | Bxor | Shl | Shr | Lt | Gt | Le | Ge | Eq | Ne

  predicate IsCompare(op: BinOp) { op in {Lt, Gt, Le, Ge, Eq, Ne} }

  /** The comparison that holds exactly when `op` does not. */
  function Inverse(op: BinOp): BinOp {
    match op
    case Lt => Ge case Ge => Lt
    case Gt => Le case Le => Gt
    case Eq => Ne case Ne => Eq
    case _ => op
  }

  /** `Outside`: the operation works on texts, which are not modelled. */
  datatype EvalResult = Val(value: Value) | Raise | Outside

  function IntOp(op: BinOp, a: int, b: int): EvalResult {
    match op
    case Add => Val(Int(Wrap(a + b)))
    case Sub => Val(Int(Wrap(a - b)))
    case Mul => Val(Int(Wrap(a * b)))
    case FloorDiv =>
      if b == 0 then Raise
      else if b == -1 then Val(Int(Wrap(-a)))
      else
        var q := TruncDiv(a, b);
        Val(Int(if TruncMod(a, b) != 0 && (a < 0) != (b < 0) then q - 1 else q))
    case Mod =>
      if b == 0 then Raise
      else if b == -1 then Val(Int(0))
      else
        var m := TruncMod(a, b);
        Val(Int(if m != 0 && (m < 0) != (b < 0) then m + b else m))
    case Band => Val(Int(Wrap(BitAnd(Unsigned(a), Unsigned(b)))))
    case Bor => Val(Int(Wrap(BitOr(Unsigned(a), Unsigned(b)))))
    case Bxor => Val(Int(Wrap(BitXor(Unsigned(a), Unsigned(b)))))
    case Shl => if b < 0 || b > 63 then Raise else Val(Int(Wrap(a * Pow2(b))))
    case Shr => if b < 0 || b > 63 then Raise else Val(Int(a / Pow2(b)))
    case Lt => Val(Bool(a < b))
    case Gt => Val(Bool(a > b))
    case Le => Val(Bool(a <= b))
    case Ge => Val(Bool(a >= b))
    case Eq => Val(Bool(a == b))
    case Ne => Val(Bool(a != b))
  }

  function Apply(op: BinOp, a: Value, b: Value): EvalResult {
    if a.IsText() && b.IsText() then Outside
    else if op == Eq then Val(Bool(a == b))
    else if op == Ne then Val(Bool(a != b))
    else if a.IsText() || b.IsText() then Outside
    else if a.Int? && b.Int? then IntOp(op, a.n, b.n)
    else Raise
  }

  datatype PrefixOp = Minus | Not | Tilde

  function ApplyPrefix(op: PrefixOp, a: Value): EvalResult {
    match op
    case Minus => if a.Int? then Val(Int(Wrap(-a.n))) else Raise
    case Not => Val(Bool(!Truthy(a)))
    case Tilde => if a.Int? then Val(Int(-a.n - 1)) else Raise
  }

  /** A comparison and its inverse fail together and otherwise disagree. */
  lemma InverseNegates(op: BinOp, a: Value, b: Value)
    requires IsCompare(op)
    ensures var r, s := Apply(op, a, b), Apply(Inverse(op), a, b);
      && IsCompare(Inverse(op))
      && (r.Val? <==> s.Val?) && (r.Raise? <==> s.Raise?)
      && (r.Val? ==> r.value.Bool? && s.value == Bool(!r.value.b))
  {
  }

  lemma CompareGivesBool(op: BinOp, a: Value, b: Value)
    requires IsCompare(op)
    ensures Apply(op, a, b).Val? ==> Apply(op, a, b).value.Bool?
  {
  }

  // ---------------------------------------------------------------- instructions

  /** `BreakJ` and `ContJ` are jumps whose target is not yet known: a `break` before its loop is
      finished, and a `continue`. */
  datatype Instr =
    | CONST(k: nat) | NIL | TRUE_ | FALSE_ | POP | DUP
    | GET_LOCAL(slot: nat) | SET_LOCAL(slot: nat)
    | BINARY(op: BinOp)
    | PREFIX(pop: PrefixOp)
    | JUMP(d: nat) | JUMP_IF_FALSE(d: nat) | LOOP(d: nat)
    | AND_KEEP(d: nat) | OR_KEEP(d: nat) | COALESCE(d: nat)
    | RETURN
    | SAY(count: nat)
    | RUNTIME_ERROR(k: nat)
    | TRY_PUSH(d: nat) | TRY_POP | THROW_
    | BINARY_I(op: BinOp, imm: int)
    | COMPARE_JF(op: BinOp, d: nat)
    | LGET2(a: nat, b: nat)
    | LGET_I(op: BinOp, slot: nat, imm: int)
    | ADD_INPLACE
    | COMPARE_I_JF(op: BinOp, imm: int, d: nat)
    | BreakJ | ContJ

  predicate HasImmediate(op: BinOp) { op in {Add, Sub, Mul, Mod, Band, Bor, Bxor} }

  predicate FitsImmediate(k: int) { -32768 <= k <= 32767 }

  /** Opcodes are positions in the opcode enumeration; 255 stands for "none". */
  function BinaryByte(op: BinOp): nat {
    match op
    case Eq => 13 case Ne => 14 case Add => 15 case Sub => 16 case Mul => 17 case Mod => 19
    case Lt => 21 case Gt => 22 case Le => 23 case Ge => 24
    case Band => 25 case Bor => 26 case Bxor => 27 case Shl => 28 case Shr => 29
    case FloorDiv => 96
  }

  function ImmediateByte(op: BinOp): nat {
    match op
    case Add => 68 case Sub => 69 case Mul => 70 case Mod => 71
    case Band => 72 case Bor => 73 case Bxor => 74
    case _ => 255
  }

  function CompareByte(op: BinOp): nat {
    match op
    case Lt => 75 case Le => 76 case Gt => 77 case Ge => 78 case Eq => 79 case Ne => 80
    case _ => 255
  }

  function CompareImmediateByte(op: BinOp): nat {
    match op
    case Lt => 85 case Le => 86 case Gt => 87 case Ge => 88 case Eq => 89 case Ne => 90
    case _ => 255
  }

  /** Operators, immediates and counts that the opcode table has a place for. */
  predicate Legal(i: Instr) {
    match i
    case BINARY_I(op, k) => HasImmediate(op) && FitsImmediate(k)
    case COMPARE_JF(op, _) => IsCompare(op)
    case LGET_I(op, _, k) => op in {Add, Sub} && FitsImmediate(k)
    case COMPARE_I_JF(op, k, _) => IsCompare(op) && FitsImmediate(k)
    case BreakJ => false
    case ContJ => false
    case _ => true
  }

  function U16(v: nat): (c: seq<nat>)
    ensures |c| == 2
  {
    [v / 256, v % 256]
  }

  function I16(k: int): seq<nat> { U16(k % 0x1_0000) }

  function Encode(i: Instr): (c: seq<nat>)
    ensures 1 <= |c| <= 5
  {
    match i
    case CONST(k) => [0] + U16(k)
    case NIL => [1]
    case TRUE_ => [2]
    case FALSE_ => [3]
    case POP => [4]
    case DUP => [5]
    case GET_LOCAL(s) => [6] + U16(s)
    case SET_LOCAL(s) => [7] + U16(s)
    case BINARY(op) => [BinaryByte(op)]
    case PREFIX(op) => [match op case Minus => 31 case Not => 32 case Tilde => 33]
    case JUMP(d) => [34] + U16(d)
    case JUMP_IF_FALSE(d) => [35] + U16(d)
    case LOOP(d) => [36] + U16(d)
    case AND_KEEP(d) => [37] + U16(d)
    case OR_KEEP(d) => [38] + U16(d)
    case RETURN => [43]
    case SAY(n) => [54, n]
    case RUNTIME_ERROR(k) => [59] + U16(k)
    case TRY_PUSH(d) => [60] + U16(d)
    case TRY_POP => [61]
    case THROW_ => [62]
    case COALESCE(d) => [63] + U16(d)
    case BINARY_I(op, k) => [ImmediateByte(op)] + I16(k)
    case COMPARE_JF(op, d) => [CompareByte(op)] + U16(d)
    case LGET2(a, b) => [81] + U16(a) + U16(b)
    case LGET_I(op, s, k) => [if op == Add then 82 else 83] + U16(s) + I16(k)
    case ADD_INPLACE => [84]
    case COMPARE_I_JF(op, k, d) => [CompareImmediateByte(op)] + I16(k) + U16(d)
    case BreakJ => [34, 255, 255]
    case ContJ => [36, 255, 255]
  }

  function Size(i: Instr): nat { |Encode(i)| }

  function Bytes(code: seq<Instr>): (c: seq<nat>)
    ensures |c| >= |code|
  {
    if code == [] then [] else Encode(code[0]) + Bytes(code[1..])
  }

  // ---------------------------------------------------------------- decoding

  function Cell(code: seq<nat>, p: nat): nat { if p < |code| then code[p] else 0 }

  function Rd16(code: seq<nat>, p: nat): nat { Cell(code, p) * 256 + Cell(code, p + 1) }

  function RdI16(code: seq<nat>, p: nat): int {
    var v := Rd16(code, p);
    if v >= 0x8000 then v - 0x1_0000 else v
  }

  datatype Fetched = NoInstr | Fetched(i: Instr, next: nat)

  function BinaryOf(b: nat): BinOp {
    match b
    case 13 => Eq case 14 => Ne case 15 => Add case 16 => Sub case 17 => Mul case 19 => Mod
    case 21 => Lt case 22 => Gt case 23 => Le case 24 => Ge
    case 25 => Band case 26 => Bor case 27 => Bxor case 28 => Shl case 29 => Shr
    case _ => FloorDiv
  }

  function ImmediateOf(b: nat): BinOp {
    match b
    case 68 => Add case 69 => Sub case 70 => Mul case 71 => Mod case 72 => Band case 73 => Bor
    case _ => Bxor
  }

  function CompareOf(b: nat): BinOp {
    match b
    case 0 => Lt case 1 => Le case 2 => Gt case 3 => Ge case 4 => Eq case _ => Ne
  }

  /** The instruction at `pc`. */
  function Fetch(code: seq<nat>, pc: nat): (f: Fetched)
    ensures f.Fetched? ==> pc < f.next
  {
    if pc >= |code| then NoInstr
    else
      var b := code[pc];
      var arg, arg2 := Rd16(code, pc + 1), Rd16(code, pc + 3);
      var imm := RdI16(code, pc + 1);
      if b == 0 then Fetched(CONST(arg), pc + 3)
      else if b == 1 then Fetched(NIL, pc + 1)
      else if b == 2 then Fetched(TRUE_, pc + 1)
      else if b == 3 then Fetched(FALSE_, pc + 1)
      else if b == 4 then Fetched(POP, pc + 1)
      else if b == 5 then Fetched(DUP, pc + 1)
      else if b == 6 then Fetched(GET_LOCAL(arg), pc + 3)
      else if b == 7 then Fetched(SET_LOCAL(arg), pc + 3)
      else if 13 <= b <= 17 || b == 19 || 21 <= b <= 29 || b == 96 then Fetched(BINARY(BinaryOf(b)), pc + 1)
      else if b == 31 then Fetched(PREFIX(Minus), pc + 1)
      else if b == 32 then Fetched(PREFIX(Not), pc + 1)
      else if b == 33 then Fetched(PREFIX(Tilde), pc + 1)
      else if b == 34 then Fetched(JUMP(arg), pc + 3)
      else if b == 35 then Fetched(JUMP_IF_FALSE(arg), pc + 3)
      else if b == 36 then Fetched(LOOP(arg), pc + 3)
      else if b == 37 then Fetched(AND_KEEP(arg), pc + 3)
      else if b == 38 then Fetched(OR_KEEP(arg), pc + 3)
      else if b == 43 then Fetched(RETURN, pc + 1)
      else if b == 54 then Fetched(SAY(Cell(code, pc + 1)), pc + 2)
      else if b == 59 then Fetched(RUNTIME_ERROR(arg), pc + 3)
      else if b == 60 then Fetched(TRY_PUSH(arg), pc + 3)
      else if b == 61 then Fetched(TRY_POP, pc + 1)
      else if b == 62 then Fetched(THROW_, pc + 1)
      else if b == 63 then Fetched(COALESCE(arg), pc + 3)
      else if 68 <= b <= 74 then Fetched(BINARY_I(ImmediateOf(b), imm), pc + 3)
      else if 75 <= b <= 80 then Fetched(COMPARE_JF(CompareOf(b - 75), arg), pc + 3)
      else if b == 81 then Fetched(LGET2(arg, arg2), pc + 5)
      else if b == 82 then Fetched(LGET_I(Add, arg, RdI16(code, pc + 3)), pc + 5)
      else if b == 83 then Fetched(LGET_I(Sub, arg, RdI16(code, pc + 3)), pc + 5)
      else if b == 84 then Fetched(ADD_INPLACE, pc + 1)
      else if 85 <= b <= 90 then Fetched(COMPARE_I_JF(CompareOf(b - 85), imm, arg2), pc + 5)
      else NoInstr
  }

  /** `cells` stand in `code` at `pc`. */
  ghost predicate At(code: seq<nat>, pc: nat, cells: seq<nat>) {
    pc + |cells| <= |code| && code[pc..pc + |cells|] == cells
  }

  lemma AtParts(code: seq<nat>, pc: nat, a: seq<nat>, b: seq<nat>)
    requires At(code, pc, a + b)
    ensures At(code, pc, a) && At(code, pc + |a|, b)
  {
    var all := code[pc..pc + |a + b|];
    assert all[..|a|] == a && all[|a|..] == b;
    assert code[pc..pc + |a|] == all[..|a|];
    assert code[pc + |a|..pc + |a| + |b|] == all[|a|..];
  }

  lemma AtCells(code: seq<nat>, pc: nat, cells: seq<nat>)
    requires At(code, pc, cells)
    ensures forall k :: 0 <= k < |cells| ==> Cell(code, pc + k) == cells[k] && pc + k < |code|
  {
    forall k | 0 <= k < |cells| ensures code[pc + k] == cells[k] { assert code[pc..pc + |cells|][k] == cells[k]; }
  }

  lemma ReadsBack(v: nat)
    ensures U16(v)[0] * 256 + U16(v)[1] == v
  {
  }

  lemma ImmediateReadsBack(k: int)
    requires FitsImmediate(k)
    ensures var v := k % 0x1_0000; v == U16(v)[0] * 256 + U16(v)[1] && k == if v >= 0x8000 then v - 0x1_0000 else v
  {
  }

  /** An instruction that takes a signed immediate, and its siblings without one. */
  predicate TakesImmediate(i: Instr) { i.BINARY_I? || i.LGET_I? || i.COMPARE_I_JF? }

  predicate TakesOperand(i: Instr) {
    i.CONST? || i.GET_LOCAL? || i.SET_LOCAL? || i.JUMP? || i.JUMP_IF_FALSE? || i.LOOP? || i.AND_KEEP?
    || i.OR_KEEP? || i.COALESCE? || i.RUNTIME_ERROR? || i.TRY_PUSH? || i.COMPARE_JF? || i.LGET2?
  }

  lemma FetchImmediate(code: seq<nat>, pc: nat, i: Instr)
    requires Legal(i) && TakesImmediate(i) && At(code, pc, Encode(i))
    ensures Fetch(code, pc) == Fetched(i, pc + Size(i))
  {
    hide Fetch, At, Encode;
    match i
    case BINARY_I(_, _) => FetchBinaryImmediate(code, pc, i);
    case LGET_I(_, _, _) => FetchSlotImmediate(code, pc, i);
    case COMPARE_I_JF(_, _, _) => FetchCompareImmediate(code, pc, i);
  }

  lemma FetchBinaryImmediate(code: seq<nat>, pc: nat, i: Instr)
    requires Legal(i) && i.BINARY_I? && At(code, pc, Encode(i))
    ensures Fetch(code, pc) == Fetched(i, pc + Size(i))
  {
    var c := Encode(i);
    AtCells(code, pc, c);
    assert Cell(code, pc + 0) == c[0] && Cell(code, pc + 1) == c[1] && Cell(code, pc + 2) == c[2];
    ImmediateReadsBack(i.imm);
  }

  lemma FetchSlotImmediate(code: seq<nat>, pc: nat, i: Instr)
    requires Legal(i) && i.LGET_I? && At(code, pc, Encode(i))
    ensures Fetch(code, pc) == Fetched(i, pc + Size(i))
  {
    var c := Encode(i);
    AtCells(code, pc, c);
    assert Cell(code, pc + 0) == c[0] && Cell(code, pc + 1) == c[1] && Cell(code, pc + 2) == c[2];
    assert Cell(code, pc + 3) == c[3] && Cell(code, pc + 4) == c[4];
    ImmediateReadsBack(i.imm); ReadsBack(i.slot);
  }

  lemma FetchCompareImmediate(code: seq<nat>, pc: nat, i: Instr)
    requires Legal(i) && i.COMPARE_I_JF? && At(code, pc, Encode(i))
    ensures Fetch(code, pc) == Fetched(i, pc + Size(i))
  {
    var c := Encode(i);
    AtCells(code, pc, c);
    assert Cell(code, pc + 0) == c[0] && Cell(code, pc + 1) == c[1] && Cell(code, pc + 2) == c[2];
    assert Cell(code, pc + 3) == c[3] && Cell(code, pc + 4) == c[4];
    ImmediateReadsBack(i.imm); ReadsBack(i.d);
  }

  lemma FetchOperand(code: seq<nat>, pc: nat, i: Instr)
    requires Legal(i) && TakesOperand(i) && At(code, pc, Encode(i))
    ensures Fetch(code, pc) == Fetched(i, pc + Size(i))
  {
    var c := Encode(i);
    AtCells(code, pc, c);
    assert Cell(code, pc + 0) == c[0] && Cell(code, pc + 1) == c[1] && Cell(code, pc + 2) == c[2];
    assert i.LGET2? ==> Cell(code, pc + 3) == c[3] && Cell(code, pc + 4) == c[4];
  }

  /** An encoded instruction is fetched as it was. */
  lemma FetchEncoded(code: seq<nat>, pc: nat, i: Instr)
    requires Legal(i) && At(code, pc, Encode(i))
    ensures Fetch(code, pc) == Fetched(i, pc + Size(i))
  {
    if TakesImmediate(i) {
      FetchImmediate(code, pc, i);
    } else if TakesOperand(i) {
      FetchOperand(code, pc, i);
    } else {
      var c := Encode(i);
      AtCells(code, pc, c);
      assert Cell(code, pc + 0) == c[0];
      assert i.SAY? ==> Cell(code, pc + 1) == c[1];
    }
  }

  // ---------------------------------------------------------------- the machine

  datatype Handler = Handler(top: nat, catchPc: nat)

  datatype VM =
    | Running(pc: nat, stack: seq<Value>, locals: seq<Value>, handlers: seq<Handler>, out: seq<Value>)
    | Returned(value: Value, locals: seq<Value>, out: seq<Value>)
    | Uncaught(text: Value, locals: seq<Value>, out: seq<Value>)
    | Stuck

  datatype Chunk = Chunk(code: seq<nat>, consts: seq<Value>)

  /** Raises an error: to the innermost handler, or out of the function. */
  function Throw(stack: seq<Value>, locals: seq<Value>, handlers: seq<Handler>, out: seq<Value>, text: Value): VM {
    if handlers == [] then Uncaught(text, locals, out)
    else
      var h := handlers[|handlers| - 1];
      if h.top <= |stack| then Running(h.catchPc, stack[..h.top] + [text], locals, handlers[..|handlers| - 1], out)
      else Stuck
  }

  /** The result of an operation: pushed on `stack`, or raised. */
  function Push(s: VM, next: nat, stack: seq<Value>, r: EvalResult): VM
    requires s.Running?
  {
    match r
    case Val(v) => s.(pc := next, stack := stack + [v])
    case Raise => Throw(stack, s.locals, s.handlers, s.out, ErrorText)
    case Outside => Stuck
  }

  /** A comparison decides a jump: taken when it is not true. */
  function Decide(s: VM, next: nat, stack: seq<Value>, r: EvalResult, d: nat): VM
    requires s.Running?
  {
    match r
    case Val(v) => s.(pc := if Truthy(v) then next else next + d, stack := stack)
    case Raise => Throw(stack, s.locals, s.handlers, s.out, ErrorText)
    case Outside => Stuck
  }

  function Needs(i: Instr): nat {
    match i
    case BINARY(_) => 2
    case COMPARE_JF(_, _) => 2
    case ADD_INPLACE => 2
    case POP => 1 case DUP => 1 case SET_LOCAL(_) => 1 case PREFIX(_) => 1
    case JUMP_IF_FALSE(_) => 1 case AND_KEEP(_) => 1 case OR_KEEP(_) => 1 case COALESCE(_) => 1
    case RETURN => 1 case THROW_ => 1 case BINARY_I(_, _) => 1 case COMPARE_I_JF(_, _, _) => 1
    case SAY(n) => n
    case _ => 0
  }

  predicate SlotsOk(i: Instr, locals: nat, consts: nat) {
    match i
    case GET_LOCAL(s) => s < locals
    case SET_LOCAL(s) => s < locals
    case LGET2(a, b) => a < locals && b < locals
    case LGET_I(_, s, _) => s < locals
    case CONST(k) => k < consts
    case RUNTIME_ERROR(k) => k < consts
    case _ => true
  }

  function Step(ch: Chunk, s: VM): VM {
    if !s.Running? then s
    else
      match Fetch(ch.code, s.pc)
      case NoInstr => Stuck
      case Fetched(i, next) => Perform(ch, s, i, next)
  }

  /** What one instruction does; `next` is the address behind it. */
  function Perform(ch: Chunk, s: VM, i: Instr, next: nat): VM
    requires s.Running?
  {
    if |s.stack| < Needs(i) || !SlotsOk(i, |s.locals|, |ch.consts|) then Stuck
    else
      var n := |s.stack|;
      var below := if Needs(i) <= n then s.stack[..n - Needs(i)] else [];
      var top := if n > 0 then s.stack[n - 1] else Null;
      var second := if n > 1 then s.stack[n - 2] else Null;
      match i
      case CONST(k) => s.(pc := next, stack := s.stack + [ch.consts[k]])
      case NIL => s.(pc := next, stack := s.stack + [Null])
      case TRUE_ => s.(pc := next, stack := s.stack + [Bool(true)])
      case FALSE_ => s.(pc := next, stack := s.stack + [Bool(false)])
      case POP => s.(pc := next, stack := below)
      case DUP => s.(pc := next, stack := s.stack + [top])
      case GET_LOCAL(k) => s.(pc := next, stack := s.stack + [s.locals[k]])
      case SET_LOCAL(k) => s.(pc := next, stack := below, locals := s.locals[k := top])
      case BINARY(op) => Push(s, next, below, Apply(op, second, top))
      case ADD_INPLACE => Push(s, next, below, Apply(Add, second, top))
      case PREFIX(op) => Push(s, next, below, ApplyPrefix(op, top))
      case JUMP(d) => s.(pc := next + d)
      case LOOP(d) => if d <= next then s.(pc := next - d) else Stuck
      case JUMP_IF_FALSE(d) => s.(pc := if Truthy(top) then next else next + d, stack := below)
      case AND_KEEP(d) => if Truthy(top) then s.(pc := next, stack := below) else s.(pc := next + d)
      case OR_KEEP(d) => if Truthy(top) then s.(pc := next + d) else s.(pc := next, stack := below)
      case COALESCE(d) => if top != Null then s.(pc := next + d) else s.(pc := next, stack := below)
      case RETURN => Returned(top, s.locals, s.out)
      case SAY(k) => s.(pc := next, stack := below, out := s.out + s.stack[n - k..])
      case RUNTIME_ERROR(_) => Throw(s.stack, s.locals, s.handlers, s.out, ErrorText)
      case TRY_PUSH(d) => s.(pc := next, handlers := s.handlers + [Handler(n, next + d)])
      case TRY_POP => s.(pc := next, handlers := if s.handlers == [] then [] else s.handlers[..|s.handlers| - 1])
      case THROW_ => Throw(below, s.locals, s.handlers, s.out, top.Text())
      case BINARY_I(op, k) => Push(s, next, below, Apply(op, top, Int(k)))
      case COMPARE_JF(op, d) => Decide(s, next, below, Apply(op, second, top), d)
      case COMPARE_I_JF(op, k, d) => Decide(s, next, below, Apply(op, top, Int(k)), d)
      case LGET2(a, b) => s.(pc := next, stack := s.stack + [s.locals[a], s.locals[b]])
      case LGET_I(op, k, imm) => Push(s, next, s.stack, Apply(op, s.locals[k], Int(imm)))
      case BreakJ => Stuck
      case ContJ => Stuck
  }

  function Run(ch: Chunk, s: VM, n: nat): VM
    decreases n
  {
    if n == 0 then s else Run(ch, Step(ch, s), n - 1)
  }

  lemma {:induction false} RunAdd(ch: Chunk, s: VM, m: nat, n: nat)
    ensures Run(ch, s, m + n) == Run(ch, Run(ch, s, m), n)
    decreases m
  {
    if m > 0 { RunAdd(ch, Step(ch, s), m - 1, n); }
  }

  /** One step, when the instruction at hand is known. */
  lemma StepAt(ch: Chunk, s: VM, i: Instr)
    requires s.Running? && Legal(i) && At(ch.code, s.pc, Encode(i))
    ensures Run(ch, s, 1) == Perform(ch, s, i, s.pc + Size(i))
  {
    FetchEncoded(ch.code, s.pc, i);
    assert Run(ch, s, 1) == Run(ch, Step(ch, s), 0);
  }
}
