/** What the compiler of a loop region emits.

 A region is the code between two addresses.  Locals it uses and operand positions each have a register
 of the pool; both hold plain integers. */
module JitRegion {
  import opened Bytecode
  import opened JitWords
  import opened JitMachine
  import opened Options

  datatype Region = Region(ch: Chunk, start: nat, end: nat)

  // ---------------------------------------------------------------- the linear scan

  predicate Supported(i: Instr) {
    match i
    case GET_LOCAL(_) => true case SET_LOCAL(_) => true case CONST(_) => true
    case POP => true case DUP => true
    case BINARY(op) => op in {Add, Sub, Mul, Band, Bor, Bxor}
    case ADD_INPLACE => true
    case BINARY_I(_, _) => true
    case COMPARE_JF(_, _) => true
    case JUMP(_) => true case LOOP(_) => true
    case _ => false
  }

  function Delta(i: Instr): int {
    match i
    case GET_LOCAL(_) => 1 case CONST(_) => 1 case DUP => 1
    case SET_LOCAL(_) => -1 case POP => -1
    case BINARY(_) => -1 case ADD_INPLACE => -1
    case COMPARE_JF(_, _) => -2
    case _ => 0
  }

  /** The operand depth behind an instruction. */
  function After(d: nat, i: Instr): nat { if d + Delta(i) >= 0 then d + Delta(i) else 0 }

  /** The depth at which the scan arrives at `t`, if it does. */
  function Scan(r: Region, at: nat, d: nat, t: nat): Option<nat>
    decreases r.end - at
  {
    if at == t then Some(d)
    else if at >= r.end then None
    else match Fetch(r.ch.code, at)
      case NoInstr => None
      case Fetched(i, next) => Scan(r, next, After(d, i), t)
  }

  predicate Visits(r: Region, off: nat, d: nat) { Scan(r, r.start, 0, off) == Some(d) }

  function AddSlot(L: seq<nat>, i: Instr): seq<nat> {
    if (i.GET_LOCAL? || i.SET_LOCAL?) && i.slot !in L then L + [i.slot] else L
  }

  function IndexOf(L: seq<nat>, slot: nat): (k: nat)
    ensures slot in L ==> k < |L| && L[k] == slot
  {
    if L == [] || L[0] == slot then 0 else 1 + IndexOf(L[1..], slot)
  }

  predicate GoodConst(ch: Chunk, i: Instr) {
    i.CONST? ==> i.k < |ch.consts| && ch.consts[i.k].Int? && Inline(ch.consts[i.k].n)
  }

  /** The slots a region uses in the order of their first use, and its greatest depth. */
  datatype Uses = Uses(slots: seq<nat>, depth: nat)

  /** The first pass: every instruction is supported, constants are small integers, the depth never
      negative. */
  function Prepass(r: Region, at: nat, d: nat, u: Uses): Option<Uses>
    decreases r.end - at
  {
    if at >= r.end then Some(u)
    else match Fetch(r.ch.code, at)
      case NoInstr => None
      case Fetched(i, next) =>
        if !Supported(i) || next > r.end || !GoodConst(r.ch, i) || d + Delta(i) < 0 then None
        else Prepass(r, next, After(d, i),
            Uses(AddSlot(u.slots, i), if After(d, i) > u.depth then After(d, i) else u.depth))
  }

  /** The remainder by the literal zero is refused when it is emitted. */
  predicate NoZeroMod(r: Region, at: nat)
    decreases r.end - at
  {
    at < r.end ==>
      match Fetch(r.ch.code, at)
      case NoInstr => true
      case Fetched(i, next) => i != BINARY_I(Mod, 0) && NoZeroMod(r, next)
  }

  function UsesOf(r: Region): Option<Uses> { Prepass(r, r.start, 0, Uses([], 0)) }

  /** Whether a region is compiled at all. */
  predicate Accepted(r: Region) {
    UsesOf(r).Some? && |UsesOf(r).value.slots| + UsesOf(r).value.depth <= POOL_N && NoZeroMod(r, r.start)
  }

  // ---------------------------------------------------------------- emitted code

  function BoxTo(d: Reg, s: Reg): seq<Asm> {
    [MovRR(d, s), MovAbs(RCX, PAYLOAD), Calc(AndRR, d, RCX), MovAbs(RCX, Wrap(TAG_INT)), Calc(OrRR, d, RCX)]
  }

  /** Writes operands `i` to `d` to memory. */
  function Publish(i: nat, d: nat, n: nat): seq<Asm>
    decreases if d > i then d - i else 0
  {
    if i >= d then [] else BoxTo(RDX, Pool(n + i)) + [StoreSp(i, RDX)] + Publish(i + 1, d, n)
  }

  function BailTo(off: nat, d: nat, n: nat): seq<Asm> {
    Publish(0, d, n) + (if d > 0 then [AddSp(d)] else []) + [MovAbs(RAX, off), Jmp(Tail)]
  }

  /** Leaves with the operands as they were, if the result in RAX is too wide. */
  function RangeCheck(off: nat, d: nat, n: nat): seq<Asm> {
    [MovRR(RCX, RAX), ShlRI(RCX, 17), SarRI(RCX, 17), CmpRR(RCX, RAX),
        Jcc(E, Over(|BailTo(off, d, n)|))] + BailTo(off, d, n)
  }

  function BranchTo(r: Region, target: nat, d: nat, n: nat): seq<Asm> {
    if r.start <= target < r.end then [Jmp(At(target))] else BailTo(target, d, n)
  }

  function ArithOf(op: BinOp): Arith {
    match op case Add => AddRR case Sub => SubRR case Mul => ImulRR case Band => AndRR case Bor => OrRR case _ => XorRR
  }

  function CondOf(op: BinOp): Cond {
    match op case Lt => L case Le => LE case Gt => G case Ge => GE case Eq => E case _ => NE
  }

  function PoolAt(n: nat, d: nat, below: nat): Reg { Pool(if n + d >= below then n + d - below else 0) }

  function EmitBinary(f: Arith, off: nat, d: nat, n: nat): seq<Asm> {
    var lhs, rhs := PoolAt(n, d, 2), PoolAt(n, d, 1);
    [MovRR(RAX, lhs), Calc(f, RAX, rhs)] + RangeCheck(off, d, n) + [MovRR(lhs, RAX)]
  }

  function EmitImmediate(f: Arith, k: int, off: nat, d: nat, n: nat): seq<Asm> {
    var top := PoolAt(n, d, 1);
    [MovRR(RAX, top), MovAbs(RDX, k), Calc(f, RAX, RDX)] + RangeCheck(off, d, n) + [MovRR(top, RAX)]
  }

  function EmitMod(k: int, d: nat, n: nat): seq<Asm> {
    var top := PoolAt(n, d, 1);
    [MovRR(RAX, top), MovAbs(RCX, k), Cqo, Idiv(RCX), MovRR(RAX, RDX), CmpRI(RAX, 0), Jcc(E, Over(5)),
     MovRR(RDX, RAX), Calc(XorRR, RDX, RCX), CmpRI(RDX, 0), Jcc(GE, Over(1)), Calc(AddRR, RAX, RCX), MovRR(top, RAX)]
  }

  function EmitCompare(r: Region, op: BinOp, target: nat, d: nat, n: nat): seq<Asm> {
    var branch := BranchTo(r, target, Gap(d, 2), n);
    [CmpRR(PoolAt(n, d, 2), PoolAt(n, d, 1)), Jcc(CondOf(op), Over(|branch|))] + branch
  }

  function Gap(a: nat, b: nat): nat { if a >= b then a - b else 0 }

  /** A back edge: leave if the collector waits. */
  function EmitLoop(r: Region, target: nat, d: nat, n: nat): seq<Asm> {
    [ReadFlag, CmpRI(RAX, 0), Jcc(E, Over(|BailTo(target, d, n)|))] + BailTo(target, d, n) + BranchTo(r, target, d, n)
  }

  /** The code of instruction `i` at `off`, reached with `d` operands. */
  function EmitOne(r: Region, L: seq<nat>, i: Instr, off: nat, next: nat, d: nat): seq<Asm> {
    var n := |L|;
    match i
    case GET_LOCAL(s) => [MovRR(Pool(n + d), Pool(IndexOf(L, s)))]
    case SET_LOCAL(s) => [MovRR(Pool(IndexOf(L, s)), PoolAt(n, d, 1))]
    case CONST(k) => [MovAbs(Pool(n + d), if k < |r.ch.consts| && r.ch.consts[k].Int? then r.ch.consts[k].n else 0)]
    case DUP => [MovRR(Pool(n + d), PoolAt(n, d, 1))]
    case BINARY(op) => EmitBinary(ArithOf(op), off, d, n)
    case ADD_INPLACE => EmitBinary(AddRR, off, d, n)
    case BINARY_I(op, k) => if op == Mod then EmitMod(k, d, n) else EmitImmediate(ArithOf(op), k, off, d, n)
    case COMPARE_JF(op, dd) => EmitCompare(r, op, next + dd, d, n)
    case JUMP(dd) => BranchTo(r, next + dd, d, n)
    case LOOP(dd) => EmitLoop(r, Gap(next, dd), d, n)
    case _ => []
  }

  function Body(r: Region, L: seq<nat>, at: nat, d: nat): seq<Asm>
    decreases r.end - at
  {
    if at >= r.end then []
    else match Fetch(r.ch.code, at)
      case NoInstr => []
      case Fetched(i, next) => EmitOne(r, L, i, at, next, d) + Body(r, L, next, After(d, i))
  }

  /** Where the code of each address starts, that of `at` at `p`. */
  function Labels(r: Region, L: seq<nat>, at: nat, d: nat, p: nat): map<nat, nat>
    decreases r.end - at
  {
    if at >= r.end then map[]
    else match Fetch(r.ch.code, at)
      case NoInstr => map[]
      case Fetched(i, next) => Labels(r, L, next, After(d, i), p + |EmitOne(r, L, i, at, next, d)|)[at := p]
  }

  /** Loads a slot, and leaves unless it holds a small integer. */
  function LoadLocal(i: nat, slot: nat): seq<Asm> {
    [LoadSlot(Pool(i), slot), MovRR(RCX, Pool(i)), ShrRI(RCX, 47), CmpRI(RCX, TOP17_INT), Jcc(E, Over(1)),
     Jmp(PrologueBail), ShlRI(Pool(i), 17), SarRI(Pool(i), 17)]
  }

  function Prologue(L: seq<nat>, i: nat): seq<Asm>
    decreases |L| - i
  {
    if i >= |L| then [] else LoadLocal(i, L[i]) + Prologue(L, i + 1)
  }

  function StoreLocals(L: seq<nat>, i: nat): seq<Asm>
    decreases |L| - i
  {
    if i >= |L| then [] else BoxTo(RDX, Pool(i)) + [StoreSlot(L[i], RDX)] + StoreLocals(L, i + 1)
  }

  /** The code of a region: prologue, instructions, normal exit, the shared tail, the early exit. */
  function Compiled(r: Region, L: seq<nat>): Jit {
    var pro := Prologue(L, 0);
    var body := Body(r, L, r.start, 0);
    var exit := [MovAbs(RAX, r.end), Jmp(Tail)];
    var tail := StoreLocals(L, 0) + [Leave];
    Jit(pro + body + exit + tail + [MovAbs(RAX, r.start), Leave],
        Labels(r, L, r.start, 0, |pro|), |pro| + |body| + 2, |pro| + |body| + 2 + |tail|)
  }

  // ---------------------------------------------------------------- what is asked of regions

  function TargetOf(i: Instr, next: nat): Option<nat> {
    match i
    case COMPARE_JF(_, d) => Some(next + d)
    case JUMP(d) => Some(next + d)
    case LOOP(d) => if d <= next then Some(next - d) else None
    case _ => None
  }

  /** An instruction finds its operands, slots and constants, and what it jumps to within the region is
      an instruction reached with as many operands. */
  predicate RegularAt(r: Region, off: nat, d: nat, slots: nat) {
    match Fetch(r.ch.code, off)
    case NoInstr => true
    case Fetched(i, next) =>
      && Needs(i) <= d && SlotsOk(i, slots, |r.ch.consts|) && (i.LOOP? ==> i.d <= next)
      && (TargetOf(i, next).Some? && r.start <= TargetOf(i, next).value < r.end ==>
           Visits(r, TargetOf(i, next).value, After(d, i)))
  }

  ghost predicate Regular(r: Region, slots: nat) {
    && (forall c :: c in r.ch.code ==> c < 256)
    && r.start <= r.end && (Scan(r, r.start, 0, r.end).Some? ==> Visits(r, r.end, 0))
    && forall off: nat, d: nat :: Visits(r, off, d) && off < r.end ==> RegularAt(r, off, d, slots)
  }
}
