/** The machine that compiled loops run on: ten registers, a frame of slots, the operand area above the
    stack pointer.  Registers and memory hold signed 64-bit words. */
module JitMachine {
  import opened Bytecode
  import opened JitWords

  /** Three scratch registers and the pool. */
  datatype Reg = RAX | RCX | RDX | Pool(i: nat)

  const POOL_N := 7

  datatype Cond = E | NE | L | LE | G | GE

  /** Where a jump leads: past the next `n` instructions, to the code of a bytecode address, to the
      shared exit, or to the exit for frames that hold something else than integers. */
  datatype Goal = Over(n: nat) | At(off: nat) | Tail | PrologueBail

  datatype Arith = AddRR | SubRR | ImulRR | AndRR | OrRR | XorRR

  datatype Asm =
    | MovRR(d: Reg, s: Reg)
    | MovAbs(d: Reg, v: int)
    | Calc(f: Arith, d: Reg, s: Reg)
    | ShlRI(d: Reg, n: nat) | SarRI(d: Reg, n: nat) | ShrRI(d: Reg, n: nat)
    | CmpRR(a: Reg, b: Reg) | CmpRI(a: Reg, v: int)
    | Jcc(c: Cond, goal: Goal) | Jmp(goal: Goal)
    | LoadSlot(d: Reg, slot: nat) | StoreSlot(slot: nat, s: Reg)
    | StoreSp(i: nat, s: Reg) | AddSp(n: nat)
    | Cqo | Idiv(s: Reg)
    | ReadFlag
    | Leave

  /** The generated code: `labels` are the places of bytecode addresses. */
  datatype Jit = Jit(asm: seq<Asm>, labels: map<nat, nat>, tail: nat, prologueBail: nat)

  datatype Regs = Regs(rax: int, rcx: int, rdx: int, pool: seq<int>) {
    function Get(r: Reg): int {
      match r
      case RAX => rax case RCX => rcx case RDX => rdx
      case Pool(i) => if i < |pool| then pool[i] else 0
    }

    function Put(r: Reg, v: int): Regs {
      match r
      case RAX => this.(rax := v) case RCX => this.(rcx := v) case RDX => this.(rdx := v)
      case Pool(i) => if i < |pool| then this.(pool := pool[i := v]) else this
    }
  }

  /** `area` are the words from the initial stack pointer up, `sp` counts those in use; `flags` are the
      operands of the last comparison.  `Left`: the code returned with a bytecode address. */
  datatype M =
    | Go(pc: nat, regs: Regs, flags: (int, int), slots: seq<int>, area: seq<int>, sp: nat, polls: nat)
    | Left(off: int, frame: seq<int>, stack: seq<int>)
    | Broken

  function Compute(f: Arith, a: int, b: int): int {
    match f
    case AddRR => Wrap(a + b)
    case SubRR => Wrap(a - b)
    case ImulRR => Wrap(a * b)
    case AndRR => Wrap(BitAnd(Unsigned(a), Unsigned(b)))
    case OrRR => Wrap(BitOr(Unsigned(a), Unsigned(b)))
    case XorRR => Wrap(BitXor(Unsigned(a), Unsigned(b)))
  }

  predicate Holds(c: Cond, flags: (int, int)) {
    match c
    case E => flags.0 == flags.1 case NE => flags.0 != flags.1
    case L => flags.0 < flags.1 case LE => flags.0 <= flags.1
    case G => flags.0 > flags.1 case GE => flags.0 >= flags.1
  }

  predicate Straight(i: Asm) { !i.Jcc? && !i.Jmp? && !i.Leave? && !i.ReadFlag? }

  /** An instruction without jumps. */
  function Effect(i: Asm, m: M): M {
    if !m.Go? then m
    else
      var r := m.regs;
      var n := m.(pc := m.pc + 1);
      match i
      case MovRR(d, s) => n.(regs := r.Put(d, r.Get(s)))
      case MovAbs(d, v) => n.(regs := r.Put(d, v))
      case Calc(f, d, s) => n.(regs := r.Put(d, Compute(f, r.Get(d), r.Get(s))))
      case ShlRI(d, k) => n.(regs := r.Put(d, ShiftLeft(r.Get(d), k)))
      case SarRI(d, k) => n.(regs := r.Put(d, ShiftRight(r.Get(d), k)))
      case ShrRI(d, k) => n.(regs := r.Put(d, ShiftRightLogical(r.Get(d), k)))
      case CmpRR(a, b) => n.(flags := (r.Get(a), r.Get(b)))
      case CmpRI(a, v) => n.(flags := (r.Get(a), v))
      case LoadSlot(d, k) => if k < |m.slots| then n.(regs := r.Put(d, m.slots[k])) else Broken
      case StoreSlot(k, s) => if k < |m.slots| then n.(slots := m.slots[k := r.Get(s)]) else Broken
      case StoreSp(k, s) => if m.sp + k < |m.area| then n.(area := m.area[m.sp + k := r.Get(s)]) else Broken
      case AddSp(k) => if m.sp + k <= |m.area| then n.(sp := m.sp + k) else Broken
      case Cqo => n.(regs := r.(rdx := if r.rax < 0 then -1 else 0))
      case Idiv(s) =>
        var k := r.Get(s);
        if k == 0 || r.rdx != (if r.rax < 0 then -1 else 0) || (r.rax == -TWO63 && k == -1) then Broken
        else n.(regs := r.(rax := TruncDiv(r.rax, k), rdx := TruncMod(r.rax, k)))
      case _ => Broken
  }

  function Land(j: Jit, m: M, goal: Goal): M
    requires m.Go?
  {
    match goal
    case Over(n) => m.(pc := m.pc + 1 + n)
    case At(off) => if off in j.labels then m.(pc := j.labels[off]) else Broken
    case Tail => m.(pc := j.tail)
    case PrologueBail => m.(pc := j.prologueBail)
  }

  /** One instruction; `gc` is the collector's flag, read for the k-th time. */
  function JStep(j: Jit, gc: nat -> bool, m: M): M {
    if !m.Go? then m
    else if m.pc >= |j.asm| then Broken
    else match j.asm[m.pc]
      case Jcc(c, goal) => if Holds(c, m.flags) then Land(j, m, goal) else m.(pc := m.pc + 1)
      case Jmp(goal) => Land(j, m, goal)
      case ReadFlag =>
        m.(pc := m.pc + 1, regs := m.regs.(rax := if gc(m.polls) then 1 else 0, rcx := 0), polls := m.polls + 1)
      case Leave => if m.sp <= |m.area| then Left(m.regs.rax, m.slots, m.area[..m.sp]) else Broken
      case i => Effect(i, m)
  }

  function JRun(j: Jit, gc: nat -> bool, m: M, n: nat): M
    decreases n
  {
    if n == 0 then m else JRun(j, gc, JStep(j, gc, m), n - 1)
  }

  lemma {:induction false} JRunAdd(j: Jit, gc: nat -> bool, m: M, a: nat, b: nat)
    ensures JRun(j, gc, m, a + b) == JRun(j, gc, JRun(j, gc, m, a), b)
    decreases a
  {
    if a > 0 { JRunAdd(j, gc, JStep(j, gc, m), a - 1, b); }
  }

  lemma {:induction false} JStopped(j: Jit, gc: nat -> bool, m: M, n: nat)
    requires !m.Go?
    ensures JRun(j, gc, m, n) == m
  {
    if n > 0 { JStopped(j, gc, m, n - 1); }
  }

  ghost predicate Gets(j: Jit, gc: nat -> bool, m: M, t: M, k: nat) {
    exists n: nat :: n >= k && JRun(j, gc, m, n) == t
  }

  lemma GetsNow(j: Jit, gc: nat -> bool, m: M)
    ensures Gets(j, gc, m, m, 0)
  {
    assert JRun(j, gc, m, 0) == m;
  }

  lemma GetsOn(j: Jit, gc: nat -> bool, m: M, t: M, u: M, a: nat, b: nat)
    requires Gets(j, gc, m, t, a) && Gets(j, gc, t, u, b)
    ensures Gets(j, gc, m, u, a + b) && Gets(j, gc, m, u, a) && Gets(j, gc, m, u, b)
  {
    var x: nat :| x >= a && JRun(j, gc, m, x) == t;
    var y: nat :| y >= b && JRun(j, gc, t, y) == u;
    JRunAdd(j, gc, m, x, y);
  }

  // ---------------------------------------------------------------- blocks

  /** `b` stands in the code at `pc`. */
  predicate StandsAt(j: Jit, pc: nat, b: seq<Asm>) { pc + |b| <= |j.asm| && j.asm[pc..pc + |b|] == b }

  lemma StandsCat(j: Jit, pc: nat, a: seq<Asm>, b: seq<Asm>)
    requires StandsAt(j, pc, a + b)
    ensures StandsAt(j, pc, a) && StandsAt(j, pc + |a|, b)
  {
    var all := j.asm[pc..pc + |a + b|];
    assert all[..|a|] == a && all[|a|..] == b;
    assert j.asm[pc..pc + |a|] == all[..|a|];
    assert j.asm[pc + |a|..pc + |a| + |b|] == all[|a|..];
  }

  lemma OneAsm(j: Jit, gc: nat -> bool, m: M, i: Asm)
    requires m.Go? && StandsAt(j, m.pc, [i])
    ensures m.pc < |j.asm| && j.asm[m.pc] == i && Gets(j, gc, m, JStep(j, gc, m), 1)
  {
    assert j.asm[m.pc] == j.asm[m.pc..m.pc + 1][0];
    assert JRun(j, gc, m, 1) == JRun(j, gc, JStep(j, gc, m), 0);
  }

  predicate AllStraight(b: seq<Asm>) { forall i :: 0 <= i < |b| ==> Straight(b[i]) }

  /** Straight code, one effect after the other. */
  function Flow(b: seq<Asm>, m: M): M {
    if b == [] then m else Flow(b[1..], Effect(b[0], m))
  }

  lemma {:induction false} FlowCat(a: seq<Asm>, b: seq<Asm>, m: M)
    ensures Flow(a + b, m) == Flow(b, Flow(a, m))
  {
    if a == [] {
      assert a + b == b;
    } else {
      assert (a + b)[0] == a[0] && (a + b)[1..] == a[1..] + b;
      FlowCat(a[1..], b, Effect(a[0], m));
    }
  }

  lemma {:induction false} FlowKeeps(b: seq<Asm>, m: M)
    requires AllStraight(b) && Flow(b, m).Go?
    ensures m.Go? && Flow(b, m).pc == m.pc + |b|
  {
    hide Effect;
    if b != [] {
      EffectMoves(b[0], m);
      FlowKeeps(b[1..], Effect(b[0], m));
    }
  }

  lemma EffectMoves(i: Asm, m: M)
    requires Straight(i)
    ensures Effect(i, m).Go? ==> m.Go? && Effect(i, m).pc == m.pc + 1
  {
  }

  lemma {:induction false} FlowRuns(j: Jit, gc: nat -> bool, m: M, b: seq<Asm>)
    requires AllStraight(b) && Flow(b, m).Go? && StandsAt(j, if m.Go? then m.pc else 0, b)
    ensures m.Go? && Gets(j, gc, m, Flow(b, m), |b|)
    decreases |b|
  {
    hide Effect;
    FlowKeeps(b, m);
    if b == [] {
      GetsNow(j, gc, m);
    } else {
      FlowKeeps(b[1..], Effect(b[0], m));
      EffectMoves(b[0], m);
      assert b == [b[0]] + b[1..];
      StandsCat(j, m.pc, [b[0]], b[1..]);
      OneAsm(j, gc, m, b[0]);
      FlowRuns(j, gc, Effect(b[0], m), b[1..]);
      GetsOn(j, gc, m, Effect(b[0], m), Flow(b, m), 1, |b| - 1);
    }
  }
}
