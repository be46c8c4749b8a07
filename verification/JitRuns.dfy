/** Compiled loops do what the interpreter does. */
module JitRuns {
  import opened Bytecode
  import opened JitWords
  import opened JitMachine
  import opened JitRegion
  import opened JitExits
  import opened Options

  // ---------------------------------------------------------------- the scan

  lemma {:induction false} ScanOrder(r: Region, at: nat, d: nat, t: nat)
    requires Scan(r, at, d, t).Some?
    ensures at <= t
    decreases r.end - at
  {
    if at != t {
      var f := Fetch(r.ch.code, at);
      ScanOrder(r, f.next, After(d, f.i), t);
    }
  }

  /** From an instruction the scan goes to the next one. */
  lemma {:induction false} ScanOn(r: Region, at: nat, d: nat, t: nat, dt: nat)
    requires Scan(r, at, d, t) == Some(dt) && t < r.end && Fetch(r.ch.code, t).Fetched?
    ensures var f := Fetch(r.ch.code, t); Scan(r, at, d, f.next) == Some(After(dt, f.i))
    decreases r.end - at
  {
    ScanOrder(r, at, d, t);
    var f := Fetch(r.ch.code, at);
    if at != t { ScanOn(r, f.next, After(d, f.i), t, dt); }
  }

  lemma {:induction false} PrepassGrows(r: Region, at: nat, d: nat, u: Uses)
    requires Prepass(r, at, d, u).Some? && Distinct(u.slots)
    ensures var w := Prepass(r, at, d, u).value;
      u.depth <= w.depth && (forall x :: x in u.slots ==> x in w.slots) && Distinct(w.slots)
    decreases r.end - at
  {
    if at < r.end {
      var f := Fetch(r.ch.code, at);
      PrepassGrows(r, f.next, After(d, f.i),
                   Uses(AddSlot(u.slots, f.i), if After(d, f.i) > u.depth then After(d, f.i) else u.depth));
    }
  }

  /** What the first pass has checked of an instruction. */
  predicate Checked(r: Region, w: Uses, t: nat, dt: nat) {
    match Fetch(r.ch.code, t)
    case NoInstr => false
    case Fetched(i, next) =>
      && Supported(i) && next <= r.end && GoodConst(r.ch, i) && dt + Delta(i) >= 0
      && dt <= w.depth && After(dt, i) <= w.depth && (i.GET_LOCAL? || i.SET_LOCAL? ==> i.slot in w.slots)
  }

  lemma {:induction false} PrepassChecks(r: Region, at: nat, d: nat, u: Uses, t: nat, dt: nat)
    requires Prepass(r, at, d, u).Some? && Distinct(u.slots) && d <= u.depth
    requires Scan(r, at, d, t) == Some(dt) && t < r.end
    ensures Checked(r, Prepass(r, at, d, u).value, t, dt)
    decreases r.end - at
  {
    ScanOrder(r, at, d, t);
    var f := Fetch(r.ch.code, at);
    var u1 := Uses(AddSlot(u.slots, f.i), if After(d, f.i) > u.depth then After(d, f.i) else u.depth);
    PrepassGrows(r, f.next, After(d, f.i), u1);
    if at != t { PrepassChecks(r, f.next, After(d, f.i), u1, t, dt); }
  }

  // ---------------------------------------------------------------- places

  /** The code from an address on. */
  function Rest(r: Region, L: seq<nat>, at: nat, d: nat): seq<Asm> {
    Body(r, L, at, d) + [MovAbs(RAX, r.end), Jmp(Tail)]
  }

  lemma RestIs(r: Region, L: seq<nat>, at: nat, d: nat)
    requires at < r.end && Fetch(r.ch.code, at).Fetched?
    ensures var f := Fetch(r.ch.code, at);
      Rest(r, L, at, d) == EmitOne(r, L, f.i, at, f.next, d) + Rest(r, L, f.next, After(d, f.i))
  {
    hide EmitOne;
  }

  /** A label is where the code of its address stands. */
  lemma {:induction false} LabelStands(r: Region, L: seq<nat>, j: Jit, at: nat, d: nat, p: nat, t: nat, dt: nat)
    requires StandsAt(j, p, Rest(r, L, at, d)) && Scan(r, at, d, t) == Some(dt) && t < r.end
    requires Fetch(r.ch.code, t).Fetched?
    ensures var m := Labels(r, L, at, d, p); t in m && StandsAt(j, m[t], Rest(r, L, t, dt))
    decreases r.end - at
  {
    hide EmitOne, StandsAt;
    ScanOrder(r, at, d, t);
    if at != t {
      var f := Fetch(r.ch.code, at);
      var one := EmitOne(r, L, f.i, at, f.next, d);
      RestIs(r, L, at, d);
      StandsCat(j, p, one, Rest(r, L, f.next, After(d, f.i)));
      LabelStands(r, L, j, f.next, After(d, f.i), p + |one|, t, dt);
    }
  }

  // ---------------------------------------------------------------- one instruction

  /** The setting of a run: an accepted region, its code, the collector's flag, the heap. */
  datatype World = World(r: Region, L: seq<nat>, j: Jit, gc: nat -> bool, heap: int -> Value, e: Env) {
    /** Its code has been emitted. */
    predicate Built(slots: nat) {
      Accepted(r) && L == UsesOf(r).value.slots && j == Compiled(r, L) && forall x :: x in L ==> x < slots
    }

    ghost predicate Valid(slots: nat) { Built(slots) && Regular(r, slots) }
  }

  /** Compiled code and interpreter at the same instruction. */
  ghost predicate Boundary(w: World, m: M, s: VM, off: nat, d: nat) {
    && Visits(w.r, off, d) && off <= w.r.end && Same(w.L, w.heap, w.e, m, s, d) && s.pc == off
    && StandsAt(w.j, m.pc, Rest(w.r, w.L, off, d))
  }

  ghost predicate Arrives(w: World, m: M, s: VM, off: nat, t: M, off2: nat, d2: nat) {
    Gets(w.j, w.gc, m, t, if off2 > off then 0 else 1) && Boundary(w, t, s, off2, d2)
  }

  ghost predicate Quits(w: World, m: M, s: VM) {
    exists t :: Gets(w.j, w.gc, m, t, 1) && Exits(w.heap, w.e, t, s)
  }

  /** From `m` at `off`, next to the interpreter in state `s`: on to another instruction, with one step
      of the interpreter, or out, before or after that step. */
  ghost predicate Moves(w: World, m: M, s: VM, off: nat) {
    || (exists t, off2: nat, d2: nat :: Arrives(w, m, Step(w.r.ch, s), off, t, off2, d2))
    || Quits(w, m, s) || Quits(w, m, Step(w.r.ch, s))
  }

  lemma TailPlaced(w: World)
    requires w.j == Compiled(w.r, w.L)
    ensures TailStands(w.j, w.L)
    ensures var p := |Prologue(w.L, 0)|;
      && StandsAt(w.j, 0, Prologue(w.L, 0)) && StandsAt(w.j, p, Rest(w.r, w.L, w.r.start, 0))
      && w.j.labels == Labels(w.r, w.L, w.r.start, 0, p)
      && StandsAt(w.j, w.j.prologueBail, [MovAbs(RAX, w.r.start), Leave])
  {
    hide Body, Labels, Prologue, StoreLocals;
    var pro, rest, tail := Prologue(w.L, 0), Rest(w.r, w.L, w.r.start, 0), StoreLocals(w.L, 0) + [Leave];
    var bail := [MovAbs(RAX, w.r.start), Leave];
    assert w.j.asm == pro + rest + tail + bail;
    assert w.j.asm[0..|pro|] == pro;
    assert w.j.asm[|pro|..|pro| + |rest|] == rest;
    assert w.j.asm[|pro| + |rest|..|pro| + |rest| + |tail|] == tail;
  }

  /** At an address with `d` operands, between the code and the interpreter. */
  lemma AtLabel(w: World, slots: nat, m: M, s: VM, t: nat, dt: nat)
    requires w.Valid(slots) && Visits(w.r, t, dt) && t < w.r.end && m.Go?
    requires Same(w.L, w.heap, w.e, m, s, dt) && s.pc == t
    ensures t in w.j.labels && Boundary(w, m.(pc := w.j.labels[t]), s, t, dt)
  {
    TailPlaced(w);
    PrepassChecks(w.r, w.r.start, 0, Uses([], 0), t, dt);
    LabelStands(w.r, w.L, w.j, w.r.start, 0, |Prologue(w.L, 0)|, t, dt);
    var u := m.(pc := w.j.labels[t]);
    SameElsewhere(w.L, w.heap, w.e, m, u, s, dt, t);
    assert s.(pc := t) == s;
  }

  /** A branch, from a state of the interpreter that has taken it. */
  lemma BranchRuns(w: World, slots: nat, m: M, s: VM, off: nat, target: nat, d: nat)
    requires w.Valid(slots) && Same(w.L, w.heap, w.e, m, s, d) && s.pc == target
    requires StandsAt(w.j, m.pc, BranchTo(w.r, target, d, |w.L|))
    requires w.r.start <= target < w.r.end ==> Visits(w.r, target, d)
    ensures (exists t :: Gets(w.j, w.gc, m, t, 1) && Boundary(w, t, s, target, d)) || Quits(w, m, s)
  {
    TailPlaced(w);
    if w.r.start <= target < w.r.end {
      OneAsm(w.j, w.gc, m, Jmp(At(target)));
      AtLabel(w, slots, m, s, target, d);
    } else {
      BailRuns(w.j, w.gc, w.L, w.heap, w.e, m, s, d, target);
      assert s.(pc := target) == s;
    }
  }

  // ---------------------------------------------------------------- operands in registers

  /** A value pushed, and put in the register of its position. */
  lemma PushSame(w: World, m: M, t: M, s: VM, s2: VM, d: nat, v: int)
    requires Same(w.L, w.heap, w.e, m, s, d) && Inline(v) && |w.L| + d + 1 <= POOL_N
    requires t.Go? && t == m.(pc := t.pc, flags := t.flags, polls := t.polls, regs := t.regs)
    requires t.regs.pool == m.regs.pool[|w.L| + d := v]
    requires s2.Running? && s2 == s.(pc := s2.pc, stack := s.stack + [Int(v)])
    ensures Same(w.L, w.heap, w.e, t, s2, d + 1)
  {
    forall k: nat | k < d + 1 ensures OperandIs(w.L, w.e, t, s2, k) {
      if k < d { assert OperandIs(w.L, w.e, m, s, k); }
    }
    forall i | 0 <= i < |s.locals| ensures s.locals[i] == SlotValue(w.L, w.heap, t, i) {
      assert SlotValue(w.L, w.heap, m, i) == SlotValue(w.L, w.heap, t, i);
    }
    assert s2.stack[..|w.e.base|] == s.stack[..|w.e.base|];
  }

  /** A value dropped; its register keeps what it held. */
  lemma PopSame(w: World, m: M, t: M, s: VM, s2: VM, d: nat)
    requires Same(w.L, w.heap, w.e, m, s, d) && d >= 1
    requires t.Go? && t == m.(pc := t.pc, flags := t.flags, polls := t.polls, regs := t.regs)
        && t.regs.pool == m.regs.pool
    requires s2.Running? && s2 == s.(pc := s2.pc, stack := s.stack[..|s.stack| - 1])
    ensures Same(w.L, w.heap, w.e, t, s2, d - 1)
    ensures s.stack[|s.stack| - 1] == Int(m.regs.pool[|w.L| + d - 1]) && Inline(m.regs.pool[|w.L| + d - 1])
  {
    forall k: nat | k < d ensures OperandIs(w.L, w.e, m, s, k) && (k < d - 1 ==> OperandIs(w.L, w.e, t, s2, k)) {
      assert OperandIs(w.L, w.e, m, s, k);
    }
    assert OperandIs(w.L, w.e, m, s, d - 1);
    forall i | 0 <= i < |s.locals| ensures s.locals[i] == SlotValue(w.L, w.heap, t, i) {
      assert SlotValue(w.L, w.heap, m, i) == SlotValue(w.L, w.heap, t, i);
    }
    assert s2.stack[..|w.e.base|] == s.stack[..|w.e.base|];
  }

  /** A value stored in a slot that has a register. */
  lemma StoreSame(w: World, m: M, t: M, s: VM, s2: VM, d: nat, slot: nat, v: int)
    requires Same(w.L, w.heap, w.e, m, s, d) && Inline(v) && slot in w.L
    requires t.Go? && t == m.(pc := t.pc, flags := t.flags, polls := t.polls, regs := t.regs)
    requires t.regs.pool == m.regs.pool[IndexOf(w.L, slot) := v]
    requires slot < |s.locals| && s2.Running? && s2 == s.(pc := s2.pc, locals := s.locals[slot := Int(v)])
    ensures Same(w.L, w.heap, w.e, t, s2, d)
  {
    forall k: nat | k < d ensures OperandIs(w.L, w.e, t, s2, k) { assert OperandIs(w.L, w.e, m, s, k); }
    forall i | 0 <= i < |s.locals| ensures s2.locals[i] == SlotValue(w.L, w.heap, t, i) {
      assert s.locals[i] == SlotValue(w.L, w.heap, m, i);
      if i in w.L && i != slot { assert w.L[IndexOf(w.L, i)] == i && w.L[IndexOf(w.L, slot)] == slot; }
    }
  }

  /** The two topmost operands replaced by one. */
  lemma ReplaceTwo(w: World, m: M, t: M, s: VM, s2: VM, d: nat, v: int)
    requires Same(w.L, w.heap, w.e, m, s, d) && d >= 2 && Inline(v)
    requires t.Go? && t == m.(pc := t.pc, flags := t.flags, polls := t.polls, regs := t.regs)
    requires t.regs.pool == m.regs.pool[|w.L| + d - 2 := v]
    requires s2.Running? && s2 == s.(pc := s2.pc, stack := s.stack[..|s.stack| - 2] + [Int(v)])
    ensures Same(w.L, w.heap, w.e, t, s2, d - 1)
  {
    var s3 := s.(stack := s.stack[..|s.stack| - 1]);
    var s4 := s.(stack := s.stack[..|s.stack| - 2]);
    PopSame(w, m, m, s, s3, d);
    assert s3.stack[..|s3.stack| - 1] == s4.stack;
    PopSame(w, m, m, s3, s4, d - 1);
    PushSame(w, m, t, s4, s2, d - 2, v);
  }

  lemma TopTwo(w: World, m: M, s: VM, d: nat)
    requires Same(w.L, w.heap, w.e, m, s, d)
    ensures d >= 1 ==> s.stack[|s.stack| - 1] == Int(m.regs.pool[|w.L| + d - 1]) && Inline(m.regs.pool[|w.L| + d - 1])
    ensures d >= 2 ==> s.stack[|s.stack| - 2] == Int(m.regs.pool[|w.L| + d - 2]) && Inline(m.regs.pool[|w.L| + d - 2])
  {
    if d >= 1 { assert OperandIs(w.L, w.e, m, s, d - 1); }
    if d >= 2 { assert OperandIs(w.L, w.e, m, s, d - 2); }
  }

  // ---------------------------------------------------------------- single instructions

  /** All there is to know of the instruction at hand. */
  ghost predicate Facts(w: World, slots: nat, m: M, s: VM, off: nat, d: nat, i: Instr, next: nat) {
    && w.Valid(slots) && Same(w.L, w.heap, w.e, m, s, d) && s.pc == off && |m.slots| == slots && off < next <= w.r.end
    && Step(w.r.ch, s) == Perform(w.r.ch, s, i, next) && Visits(w.r, next, After(d, i))
    && Supported(i) && GoodConst(w.r.ch, i) && (i.GET_LOCAL? || i.SET_LOCAL? ==> i.slot in w.L)
    && |w.L| + d <= POOL_N && |w.L| + After(d, i) <= POOL_N && Needs(i) <= d && SlotsOk(i, slots, |w.r.ch.consts|)
    && StandsAt(w.j, m.pc, EmitOne(w.r, w.L, i, off, next, d))
    && StandsAt(w.j, m.pc + |EmitOne(w.r, w.L, i, off, next, d)|, Rest(w.r, w.L, next, After(d, i)))
    && (i.LOOP? ==> i.d <= next) && i != BINARY_I(Mod, 0)
    && (TargetOf(i, next).Some? && w.r.start <= TargetOf(i, next).value < w.r.end ==>
         Visits(w.r, TargetOf(i, next).value, After(d, i)))
  }

  lemma {:induction false} NoZeroModAt(r: Region, at: nat, d: nat, t: nat)
    requires NoZeroMod(r, at) && Scan(r, at, d, t).Some? && t < r.end && Fetch(r.ch.code, t).Fetched?
    ensures Fetch(r.ch.code, t).i != BINARY_I(Mod, 0)
    decreases r.end - at
  {
    ScanOrder(r, at, d, t);
    var f := Fetch(r.ch.code, at);
    if at != t { NoZeroModAt(r, f.next, After(d, f.i), t); }
  }

  lemma FactsHold(w: World, slots: nat, m: M, s: VM, off: nat, d: nat)
    requires w.Valid(slots) && Boundary(w, m, s, off, d) && off < w.r.end && |m.slots| == slots
    ensures var f := Fetch(w.r.ch.code, off); f.Fetched? && Facts(w, slots, m, s, off, d, f.i, f.next)
  {
    hide EmitOne, Perform, StandsAt, Same, Body, Labels, Scan, Fetch, NoZeroMod, Prepass, SlotsOk, Needs, Supported,
        GoodConst, Rest;
    SameShape(w, m, s, d);
    PrepassChecks(w.r, w.r.start, 0, Uses([], 0), off, d);
    NoZeroModAt(w.r, w.r.start, 0, off);
    var f := Fetch(w.r.ch.code, off);
    ScanOn(w.r, w.r.start, 0, off, d);
    RestIs(w.r, w.L, off, d);
    StandsCat(w.j, m.pc, EmitOne(w.r, w.L, f.i, off, f.next, d), Rest(w.r, w.L, f.next, After(d, f.i)));
    assert RegularAt(w.r, off, d, slots);
  }

  lemma SameShape(w: World, m: M, s: VM, d: nat)
    requires Same(w.L, w.heap, w.e, m, s, d)
    ensures m.Go? && s.Running? && |m.regs.pool| == POOL_N && |s.stack| >= d && |s.locals| == |m.slots|
        && |w.L| + d <= POOL_N
  {
  }

  /** Straight through to the next instruction. */
  lemma Onward(w: World, slots: nat, m: M, s: VM, off: nat, d: nat, i: Instr, next: nat, t: M)
    requires Facts(w, slots, m, s, off, d, i, next)
    requires Gets(w.j, w.gc, m, t, 0) && t.Go? && t.pc == m.pc + |EmitOne(w.r, w.L, i, off, next, d)|
    requires Step(w.r.ch, s).Running? && Step(w.r.ch, s).pc == next
    requires Same(w.L, w.heap, w.e, t, Step(w.r.ch, s), After(d, i))
    ensures Moves(w, m, s, off)
  {
    hide EmitOne, Perform, Step, Same, Rest;
    assert Arrives(w, m, Step(w.r.ch, s), off, t, next, After(d, i));
  }

  lemma OneMove(w: World, m: M, d: Reg, v: Reg)
    requires m.Go? && StandsAt(w.j, m.pc, [MovRR(d, v)])
    ensures Gets(w.j, w.gc, m, m.(pc := m.pc + 1, regs := m.regs.Put(d, m.regs.Get(v))), 0)
  {
    OneAsm(w.j, w.gc, m, MovRR(d, v));
  }

  /** A load, a constant or a copy puts `v` in the register of the next position. */
  lemma PushRuns(w: World, slots: nat, m: M, s: VM, off: nat, d: nat, i: Instr, next: nat, v: int)
    requires Facts(w, slots, m, s, off, d, i, next) && Inline(v) && After(d, i) == d + 1
    requires Gets(w.j, w.gc, m, m.(pc := m.pc + 1, regs := m.regs.Put(Pool(|w.L| + d), v)), 0)
    requires |EmitOne(w.r, w.L, i, off, next, d)| == 1
    requires Perform(w.r.ch, s, i, next) == s.(pc := next, stack := s.stack + [Int(v)])
    ensures Moves(w, m, s, off)
  {
    hide EmitOne, Perform, Same, Rest, Step;
    SameShape(w, m, s, d);
    var t := m.(pc := m.pc + 1, regs := m.regs.Put(Pool(|w.L| + d), v));
    PushSame(w, m, t, s, Step(w.r.ch, s), d, v);
    Onward(w, slots, m, s, off, d, i, next, t);
  }

  /** The one instruction of a push. */
  function PushAsm(w: World, i: Instr, d: nat): Asm
    requires i.GET_LOCAL? || i.DUP? || (i.CONST? && GoodConst(w.r.ch, i))
  {
    match i
    case GET_LOCAL(s) => MovRR(Pool(|w.L| + d), Pool(IndexOf(w.L, s)))
    case DUP => MovRR(Pool(|w.L| + d), PoolAt(|w.L|, d, 1))
    case CONST(k) => MovAbs(Pool(|w.L| + d), w.r.ch.consts[k].n)
  }

  lemma PushCode(w: World, i: Instr, off: nat, next: nat, d: nat)
    requires i.GET_LOCAL? || i.DUP? || (i.CONST? && GoodConst(w.r.ch, i))
    ensures EmitOne(w.r, w.L, i, off, next, d) == [PushAsm(w, i, d)] && After(d, i) == d + 1
  {
  }

  lemma PerformPush(w: World, s: VM, i: Instr, next: nat, v: int)
    requires s.Running? && |s.stack| >= Needs(i) && SlotsOk(i, |s.locals|, |w.r.ch.consts|)
    requires (i.GET_LOCAL? && s.locals[i.slot] == Int(v)) || (i.CONST? && GoodConst(w.r.ch, i)
        && w.r.ch.consts[i.k].n == v)
      || (i.DUP? && s.stack[|s.stack| - 1] == Int(v))
    ensures Perform(w.r.ch, s, i, next) == s.(pc := next, stack := s.stack + [Int(v)])
  {
  }

  lemma OneConst(w: World, m: M, d: Reg, v: int)
    requires m.Go? && StandsAt(w.j, m.pc, [MovAbs(d, v)])
    ensures Gets(w.j, w.gc, m, m.(pc := m.pc + 1, regs := m.regs.Put(d, v)), 0)
  {
    OneAsm(w.j, w.gc, m, MovAbs(d, v));
  }

  lemma SlotIs(w: World, m: M, s: VM, d: nat, slot: nat)
    requires Same(w.L, w.heap, w.e, m, s, d) && slot in w.L && slot < |s.locals|
    ensures var x := IndexOf(w.L, slot); x < |w.L| && s.locals[slot] == Int(m.regs.pool[x]) && Inline(m.regs.pool[x])
  {
    assert s.locals[slot] == SlotValue(w.L, w.heap, m, slot);
  }

  /** Loads, constants and copies. */
  lemma LoadRuns(w: World, slots: nat, m: M, s: VM, off: nat, d: nat, i: Instr, next: nat)
    requires Facts(w, slots, m, s, off, d, i, next) && (i.GET_LOCAL? || i.CONST? || i.DUP?)
    ensures Moves(w, m, s, off)
  {
    hide Rest, Step, Same, Perform, EmitOne, StandsAt, Gets, Boundary, Exits;
    SameShape(w, m, s, d);
    TopTwo(w, m, s, d);
    PushCode(w, i, off, next, d);
    var top := Pool(|w.L| + d);
    var v: int;
    match i {
      case GET_LOCAL(k) =>
        SlotIs(w, m, s, d, k);
        v := m.regs.pool[IndexOf(w.L, k)];
        OneMove(w, m, top, Pool(IndexOf(w.L, k)));
      case CONST(k) =>
        v := w.r.ch.consts[k].n;
        OneConst(w, m, top, v);
      case DUP =>
        v := m.regs.pool[|w.L| + d - 1];
        OneMove(w, m, top, Pool(|w.L| + d - 1));
    }
    PerformPush(w, s, i, next, v);
    PushRuns(w, slots, m, s, off, d, i, next, v);
  }

  lemma SetCode(w: World, s: VM, i: Instr, off: nat, next: nat, d: nat)
    requires i.SET_LOCAL? && d >= 1 && s.Running? && s.stack != [] && i.slot < |s.locals|
    ensures EmitOne(w.r, w.L, i, off, next, d) == [MovRR(Pool(IndexOf(w.L, i.slot)), Pool(|w.L| + d - 1))]
    ensures After(d, i) == d - 1
    ensures Perform(w.r.ch, s, i, next) ==
      s.(pc := next, stack := s.stack[..|s.stack| - 1], locals := s.locals[i.slot := s.stack[|s.stack| - 1]])
  {
  }

  lemma SetRuns(w: World, slots: nat, m: M, s: VM, off: nat, d: nat, i: Instr, next: nat)
    requires Facts(w, slots, m, s, off, d, i, next) && i.SET_LOCAL?
    ensures Moves(w, m, s, off)
  {
    hide Rest, Same, Step, Gets, Boundary, Exits, Perform, EmitOne, StandsAt;
    SameShape(w, m, s, d);
    SetCode(w, s, i, off, next, d);
    var x := IndexOf(w.L, i.slot);
    var v := m.regs.pool[|w.L| + d - 1];
    OneMove(w, m, Pool(x), Pool(|w.L| + d - 1));
    var t := m.(pc := m.pc + 1, regs := m.regs.Put(Pool(x), v));
    var s1 := s.(stack := s.stack[..|s.stack| - 1]);
    PopSame(w, m, m, s, s1, d);
    StoreSame(w, m, t, s1, Step(w.r.ch, s), d - 1, i.slot, v);
    Onward(w, slots, m, s, off, d, i, next, t);
  }

  lemma PopRuns(w: World, slots: nat, m: M, s: VM, off: nat, d: nat, i: Instr, next: nat)
    requires Facts(w, slots, m, s, off, d, i, next) && i.POP?
    ensures Moves(w, m, s, off)
  {
    hide Rest, Same, Step, Gets, Boundary, Exits;
    SameShape(w, m, s, d);
    GetsNow(w.j, w.gc, m);
    PopSame(w, m, m, s, Step(w.r.ch, s), d);
    Onward(w, slots, m, s, off, d, i, next, m);
  }

  // ---------------------------------------------------------------- arithmetic

  /** On, `size` instructions further, with nothing changed but scratch registers. */
  ghost predicate Passes(w: World, m: M, t: M, size: nat) {
    Gets(w.j, w.gc, m, t, 0) && Scratched(m, t) && t.regs.rax == m.regs.rax && t.area == m.area && t.pc == m.pc + size
  }

  /** What the check compares. */
  function CheckedAt(m: M, size: nat): M
    requires m.Go?
  {
    m.(pc := m.pc + size, regs := m.regs.(rcx := Narrow(m.regs.rax)), flags := (Narrow(m.regs.rax), m.regs.rax))
  }

  lemma CheckFlow(j: Jit, gc: nat -> bool, m: M, off: nat, d: nat, n: nat)
    requires m.Go? && StandsAt(j, m.pc, RangeCheck(off, d, n))
    ensures Narrow(m.regs.rax) == m.regs.rax ==> Gets(j, gc, m, CheckedAt(m, |RangeCheck(off, d, n)|), 0)
    ensures Narrow(m.regs.rax) != m.regs.rax ==>
        Gets(j, gc, m, CheckedAt(m, 5), 0) && StandsAt(j, m.pc + 5, BailTo(off, d, n))
  {
    hide Flow, ShiftLeft, ShiftRight, BailTo, StandsAt, Gets;
    var b := [MovRR(RCX, RAX), ShlRI(RCX, 17), SarRI(RCX, 17), CmpRR(RCX, RAX)];
    var bail := BailTo(off, d, n);
    var jump := Jcc(E, Over(|bail|));
    assert RangeCheck(off, d, n) == b + ([jump] + bail);
    StandsCat(j, m.pc, b, [jump] + bail);
    StandsCat(j, m.pc + 4, [jump], bail);
    ShiftsNarrow(m.regs.rax);
    FlowFour(b, m);
    var u := CheckedAt(m, 4);
    assert Flow(b, m) == u;
    FlowRuns(j, gc, m, b);
    JumpOver(j, gc, u, E, |bail|);
    GetsOn(j, gc, m, u, if Holds(E, u.flags) then u.(pc := u.pc + 1 + |bail|) else u.(pc := u.pc + 1), 4, 0);
  }

  lemma JumpOver(j: Jit, gc: nat -> bool, u: M, c: Cond, n: nat)
    requires u.Go? && StandsAt(j, u.pc, [Jcc(c, Over(n))])
    ensures Gets(j, gc, u, if Holds(c, u.flags) then u.(pc := u.pc + 1 + n) else u.(pc := u.pc + 1), 0)
  {
    OneAsm(j, gc, u, Jcc(c, Over(n)));
  }

  /** The check of a result in RAX: on behind the check, the result being small, or out. */
  lemma CheckRuns(w: World, slots: nat, m: M, s: VM, off: nat, d: nat)
    requires w.Valid(slots) && Same(w.L, w.heap, w.e, m, s, d) && s.pc == off
    requires m.Go? && StandsAt(w.j, m.pc, RangeCheck(off, d, |w.L|))
    ensures Quits(w, m, s) || (Inline(m.regs.rax) && exists t :: Passes(w, m, t, |RangeCheck(off, d, |w.L|)|))
  {
    hide BailTo, TailStands, Same, StandsAt, RangeCheck, Gets, Accepted, Regular, JitRegion.Compiled, Exits;
    SameShape(w, m, s, d);
    var v := m.regs.rax;
    CheckFlow(w.j, w.gc, m, off, d, |w.L|);
    if Narrow(v) == v {
      assert Passes(w, m, CheckedAt(m, |RangeCheck(off, d, |w.L|)|), |RangeCheck(off, d, |w.L|)|);
    } else {
      TailPlaced(w);
      var t := CheckedAt(m, 5);
      SameElsewhere(w.L, w.heap, w.e, m, t, s, d, off);
      assert s.(pc := off) == s;
      BailRuns(w.j, w.gc, w.L, w.heap, w.e, t, s, d, off);
      QuitsAfter(w, m, t, s);
    }
  }

  lemma FlowFour(b: seq<Asm>, m: M)
    requires |b| == 4
    ensures Flow(b, m) == Effect(b[3], Effect(b[2], Effect(b[1], Effect(b[0], m))))
  {
    hide Effect;
    var c := [b[1], b[2], b[3]];
    assert b == [b[0]] + c;
    FlowCat([b[0]], c, m);
    FlowOne(b[0], m);
    FlowThree(c, Effect(b[0], m));
  }

  lemma FlowThree(b: seq<Asm>, m: M)
    requires |b| == 3
    ensures Flow(b, m) == Effect(b[2], Effect(b[1], Effect(b[0], m)))
  {
    hide Effect;
    assert b == [b[0]] + ([b[1]] + [b[2]]);
    FlowCat([b[0]], [b[1]] + [b[2]], m);
    FlowOne(b[0], m);
    FlowCat([b[1]], [b[2]], Effect(b[0], m));
    FlowOne(b[1], Effect(b[0], m));
    FlowOne(b[2], Effect(b[1], Effect(b[0], m)));
  }

  lemma FlowTwo(b: seq<Asm>, m: M)
    requires |b| == 2
    ensures Flow(b, m) == Effect(b[1], Effect(b[0], m))
  {
    hide Effect;
    assert b == [b[0]] + [b[1]];
    FlowCat([b[0]], [b[1]], m);
    FlowOne(b[0], m);
    FlowOne(b[1], Effect(b[0], m));
  }

  predicate IsArith(op: BinOp) { op in {Add, Sub, Mul, Band, Bor, Bxor} }

  /** The machine's result is the interpreter's. */
  lemma SameArith(op: BinOp, a: int, b: int)
    requires IsArith(op)
    ensures Apply(op, Int(a), Int(b)) == Val(Int(Compute(ArithOf(op), a, b)))
  {
    hide Wrap, BitAnd, BitOr, BitXor, Unsigned;
  }

  /** A checked result, put in the register of its position. */
  lemma PutRuns(w: World, slots: nat, m: M, s: VM, off: nat, d: nat, i: Instr, next: nat, t: M, v: int, below: nat)
    requires Facts(w, slots, m, s, off, d, i, next) && 1 <= below <= 2 && below <= d && After(d, i) == d + 1 - below
    requires Gets(w.j, w.gc, m, t, 0) && Scratched(m, t) && t.area == m.area && t.regs.rax == v && Inline(v)
    requires StandsAt(w.j, t.pc, [MovRR(Pool(|w.L| + d - below), RAX)])
        && t.pc + 1 == m.pc + |EmitOne(w.r, w.L, i, off, next, d)|
    requires s.Running? && |s.stack| >= below
    requires Perform(w.r.ch, s, i, next) == s.(pc := next, stack := s.stack[..|s.stack| - below] + [Int(v)])
    ensures Moves(w, m, s, off)
  {
    hide Rest, Same, EmitOne, Perform, Step, StandsAt, Gets;
    SameShape(w, m, s, d);
    var k := |w.L| + d - below;
    OneMove(w, t, Pool(k), RAX);
    var t2 := t.(pc := t.pc + 1, regs := t.regs.Put(Pool(k), v));
    GetsOn(w.j, w.gc, m, t, t2, 0, 0);
    if below == 2 {
      ReplaceTwo(w, m, t2, s, Perform(w.r.ch, s, i, next), d, v);
    } else {
      ReplaceOne(w, m, t2, s, Perform(w.r.ch, s, i, next), d, v);
    }
    Onward(w, slots, m, s, off, d, i, next, t2);
  }

  /** An operation's result, checked and put in the register of its position. */
  lemma ResultRuns(w: World, slots: nat, m: M, s: VM, off: nat, d: nat, i: Instr, next: nat, u: M, v: int, below: nat)
    requires Facts(w, slots, m, s, off, d, i, next) && 1 <= below <= 2 && below <= d && After(d, i) == d + 1 - below
    requires Gets(w.j, w.gc, m, u, 0) && Scratched(m, u) && u.area == m.area && u.regs.rax == v
    requires var n := |w.L|;
      var check := RangeCheck(off, d, n);
      && StandsAt(w.j, u.pc, check + [MovRR(Pool(n + d - below), RAX)])
      && u.pc + |check| + 1 == m.pc + |EmitOne(w.r, w.L, i, off, next, d)|
    requires s.Running? && |s.stack| >= below
    requires Inline(v) ==> Perform(w.r.ch, s, i, next) == s.(pc := next,
        stack := s.stack[..|s.stack| - below] + [Int(v)])
    ensures Moves(w, m, s, off)
  {
    hide RangeCheck, Rest, Same, EmitOne, Perform, Step, StandsAt, Gets, Exits, Boundary;
    SameShape(w, m, s, d);
    var n := |w.L|;
    var check := RangeCheck(off, d, n);
    StandsCat(w.j, u.pc, check, [MovRR(Pool(n + d - below), RAX)]);
    SameElsewhere(w.L, w.heap, w.e, m, u, s, d, off);
    assert s.(pc := off) == s;
    CheckRuns(w, slots, u, s, off, d);
    if Quits(w, u, s) {
      QuitsAfter(w, m, u, s);
    } else {
      var t :| Passes(w, u, t, |check|);
      GetsOn(w.j, w.gc, m, u, t, 0, 0);
      PutRuns(w, slots, m, s, off, d, i, next, t, v, below);
    }
  }

  lemma BinaryFlow(j: Jit, gc: nat -> bool, m: M, lhs: Reg, rhs: Reg, f: Arith)
    requires m.Go? && StandsAt(j, m.pc, [MovRR(RAX, lhs), Calc(f, RAX, rhs)]) && rhs.Pool?
    ensures Gets(j, gc, m, m.(pc := m.pc + 2, regs := m.regs.(rax := Compute(f, m.regs.Get(lhs), m.regs.Get(rhs)))), 0)
  {
    hide Flow, Compute, StandsAt;
    var b := [MovRR(RAX, lhs), Calc(f, RAX, rhs)];
    FlowTwo(b, m);
    FlowRuns(j, gc, m, b);
  }

  lemma ImmediateFlow(j: Jit, gc: nat -> bool, m: M, top: Reg, k: int, f: Arith)
    requires m.Go? && StandsAt(j, m.pc, [MovRR(RAX, top), MovAbs(RDX, k), Calc(f, RAX, RDX)])
    ensures Gets(j, gc, m, m.(pc := m.pc + 3, regs := m.regs.(rax := Compute(f, m.regs.Get(top), k), rdx := k)), 0)
  {
    hide Flow, Compute, StandsAt;
    var b := [MovRR(RAX, top), MovAbs(RDX, k), Calc(f, RAX, RDX)];
    FlowThree(b, m);
    FlowRuns(j, gc, m, b);
  }

  lemma EmitOneBinary(w: World, i: Instr, op: BinOp, off: nat, next: nat, d: nat)
    requires d >= 2 && (i == BINARY(op) || (op == Add && i == ADD_INPLACE))
    ensures var n := |w.L|;
      EmitOne(w.r, w.L, i, off, next, d) ==
        [MovRR(RAX, Pool(n + d - 2)),
            Calc(ArithOf(op), RAX, Pool(n + d - 1))] + (RangeCheck(off, d, n) + [MovRR(Pool(n + d - 2), RAX)])
  {
    hide RangeCheck;
  }

  lemma EmitOneImmediate(w: World, i: Instr, off: nat, next: nat, d: nat)
    requires d >= 1 && i.BINARY_I? && IsArith(i.op)
    ensures var n := |w.L|;
      EmitOne(w.r, w.L, i, off, next, d) ==
        [MovRR(RAX, Pool(n + d - 1)), MovAbs(RDX, i.imm),
            Calc(ArithOf(i.op), RAX, RDX)] + (RangeCheck(off, d, n) + [MovRR(Pool(n + d - 1), RAX)])
  {
    hide RangeCheck;
  }

  /** The interpreter's step. */
  lemma PerformArith(ch: Chunk, s: VM, i: Instr, next: nat, op: BinOp, x: int, y: int)
    requires s.Running? && IsArith(op) && |s.stack| >= Needs(i)
    requires i == BINARY(op) || (op == Add && i == ADD_INPLACE) || i == BINARY_I(op, y)
    requires s.stack[|s.stack| - Needs(i)] == Int(x) && (!i.BINARY_I? ==> s.stack[|s.stack| - 1] == Int(y))
    ensures Perform(ch, s, i, next) ==
      s.(pc := next, stack := s.stack[..|s.stack| - Needs(i)] + [Int(Compute(ArithOf(op), x, y))])
  {
    hide Compute, Apply;
    SameArith(op, x, y);
  }

  /** An operation on two registers. */
  lemma BinaryRuns(w: World, slots: nat, m: M, s: VM, off: nat, d: nat, i: Instr, next: nat, op: BinOp)
    requires Facts(w, slots, m, s, off, d, i, next) && IsArith(op)
    requires i == BINARY(op) || (op == Add && i == ADD_INPLACE)
    ensures Moves(w, m, s, off)
  {
    hide Compute, RangeCheck, Apply, Rest, Same, Step, Perform, EmitOne, StandsAt, Gets, Boundary, Exits, Fetch,
      Scan, Inline;
    SameShape(w, m, s, d);
    var n := |w.L|;
    var lhs, rhs := Pool(n + d - 2), Pool(n + d - 1);
    EmitOneBinary(w, i, op, off, next, d);
    StandsCat(w.j, m.pc, [MovRR(RAX, lhs), Calc(ArithOf(op), RAX, rhs)], RangeCheck(off, d, n) + [MovRR(lhs, RAX)]);
    TopTwo(w, m, s, d);
    var x, y := m.regs.pool[n + d - 2], m.regs.pool[n + d - 1];
    var v := Compute(ArithOf(op), x, y);
    BinaryFlow(w.j, w.gc, m, lhs, rhs, ArithOf(op));
    PerformArith(w.r.ch, s, i, next, op, x, y);
    ResultRuns(w, slots, m, s, off, d, i, next, m.(pc := m.pc + 2, regs := m.regs.(rax := v)), v, 2);
  }

  lemma QuitsAfter(w: World, m: M, u: M, s: VM)
    requires Gets(w.j, w.gc, m, u, 0) && Quits(w, u, s)
    ensures Quits(w, m, s)
  {
    var q :| Gets(w.j, w.gc, u, q, 1) && Exits(w.heap, w.e, q, s);
    GetsOn(w.j, w.gc, m, u, q, 0, 1);
  }

  /** The topmost operand replaced. */
  lemma ReplaceOne(w: World, m: M, t: M, s: VM, s2: VM, d: nat, v: int)
    requires Same(w.L, w.heap, w.e, m, s, d) && d >= 1 && Inline(v)
    requires t.Go? && t == m.(pc := t.pc, flags := t.flags, polls := t.polls, regs := t.regs)
    requires t.regs.pool == m.regs.pool[|w.L| + d - 1 := v]
    requires s2.Running? && s2 == s.(pc := s2.pc, stack := s.stack[..|s.stack| - 1] + [Int(v)])
    ensures Same(w.L, w.heap, w.e, t, s2, d)
  {
    var s3 := s.(stack := s.stack[..|s.stack| - 1]);
    PopSame(w, m, m, s, s3, d);
    PushSame(w, m, t, s3, s2, d - 1, v);
  }

  /** An operation on a register and a literal. */
  lemma ImmediateRuns(w: World, slots: nat, m: M, s: VM, off: nat, d: nat, i: Instr, next: nat)
    requires Facts(w, slots, m, s, off, d, i, next) && i.BINARY_I? && IsArith(i.op)
    ensures Moves(w, m, s, off)
  {
    hide Compute, RangeCheck, Apply, Rest, Same, Step, Perform, EmitOne, StandsAt, Gets, Boundary, Exits;
    SameShape(w, m, s, d);
    var n := |w.L|;
    var top := Pool(n + d - 1);
    EmitOneImmediate(w, i, off, next, d);
    StandsCat(w.j, m.pc, [MovRR(RAX, top), MovAbs(RDX, i.imm), Calc(ArithOf(i.op), RAX, RDX)],
              RangeCheck(off, d, n) + [MovRR(top, RAX)]);
    TopTwo(w, m, s, d);
    var x := m.regs.pool[n + d - 1];
    var v := Compute(ArithOf(i.op), x, i.imm);
    ImmediateFlow(w.j, w.gc, m, top, i.imm, ArithOf(i.op));
    PerformArith(w.r.ch, s, i, next, i.op, x, i.imm);
    ResultRuns(w, slots, m, s, off, d, i, next, m.(pc := m.pc + 3, regs := m.regs.(rax := v, rdx := i.imm)), v, 1);
  }

  // ---------------------------------------------------------------- remainder

  /** The seven instructions up to the first jump: the truncated remainder in RAX, compared with zero. */
  lemma DivideFlow(j: Jit, gc: nat -> bool, m: M, top: Reg, k: int)
    requires m.Go? && k != 0 && Inline(m.regs.Get(top))
    requires StandsAt(j, m.pc, [MovRR(RAX, top), MovAbs(RCX, k), Cqo, Idiv(RCX), MovRR(RAX, RDX), CmpRI(RAX, 0)])
    ensures var x := m.regs.Get(top);
      var r := TruncMod(x, k);
      Gets(j, gc, m, m.(pc := m.pc + 6, regs := m.regs.(rax := r, rcx := k, rdx := r), flags := (r, 0)), 0)
  {
    hide Flow, StandsAt, Gets, TruncDiv, TruncMod, Effect;
    var a, b := [MovRR(RAX, top), MovAbs(RCX, k), Cqo], [Idiv(RCX), MovRR(RAX, RDX), CmpRI(RAX, 0)];
    assert [MovRR(RAX, top), MovAbs(RCX, k), Cqo, Idiv(RCX), MovRR(RAX, RDX), CmpRI(RAX, 0)] == a + b;
    StandsCat(j, m.pc, a, b);
    var x := m.regs.Get(top);
    var u := m.(pc := m.pc + 3, regs := m.regs.(rax := x, rcx := k, rdx := if x < 0 then -1 else 0));
    LoadOperands(m, top, k);
    FlowRuns(j, gc, m, a);
    Divided(u, x, k);
    FlowRuns(j, gc, u, b);
    GetsOn(j, gc, m, u, Flow(b, u), 3, 3);
    GetsOn(j, gc, m, Flow(b, u), Flow(b, u), 3, 0) by { GetsNow(j, gc, Flow(b, u)); }
  }

  lemma LoadOperands(m: M, top: Reg, k: int)
    requires m.Go? && Inline(m.regs.Get(top))
    ensures var x := m.regs.Get(top);
      Flow([MovRR(RAX, top), MovAbs(RCX, k), Cqo], m) ==
        m.(pc := m.pc + 3, regs := m.regs.(rax := x, rcx := k, rdx := if x < 0 then -1 else 0))
  {
    hide Flow;
    var a, x, g := [MovRR(RAX, top), MovAbs(RCX, k), Cqo], m.regs.Get(top), m.regs;
    FlowThree(a, m);
    assert Effect(a[0], m) == m.(pc := m.pc + 1, regs := g.(rax := x));
    assert Effect(a[1], Effect(a[0], m)) == m.(pc := m.pc + 2, regs := g.(rax := x, rcx := k));
  }

  lemma Divided(u: M, x: int, k: int)
    requires u.Go? && k != 0 && Inline(x) && u.regs.rax == x && u.regs.rcx == k && u.regs.rdx == if x < 0 then -1 else 0
    ensures var r := TruncMod(x, k);
      Flow([Idiv(RCX), MovRR(RAX, RDX), CmpRI(RAX, 0)], u) ==
        u.(pc := u.pc + 3, regs := u.regs.(rax := r, rdx := r), flags := (r, 0))
  {
    hide Flow, TruncDiv, TruncMod;
    var b := [Idiv(RCX), MovRR(RAX, RDX), CmpRI(RAX, 0)];
    FlowThree(b, u);
    var q, r := TruncDiv(x, k), TruncMod(x, k);
    assert Effect(b[0], u) == u.(pc := u.pc + 1, regs := u.regs.(rax := q, rdx := r));
    assert Effect(b[1], Effect(b[0], u)) == u.(pc := u.pc + 2, regs := u.regs.(rax := r, rdx := r));
  }

  lemma SignFlow(j: Jit, gc: nat -> bool, u: M, r: int, k: int)
    requires u.Go? && u.regs.rax == r && u.regs.rcx == k
    requires StandsAt(j, u.pc, [MovRR(RDX, RAX), Calc(XorRR, RDX, RCX), CmpRI(RDX, 0)])
    ensures var x := Wrap(BitXor(Unsigned(r), Unsigned(k)));
      Gets(j, gc, u, u.(pc := u.pc + 3, regs := u.regs.(rdx := x), flags := (x, 0)), 0)
  {
    hide Flow, StandsAt, Wrap, BitXor, Unsigned;
    var b := [MovRR(RDX, RAX), Calc(XorRR, RDX, RCX), CmpRI(RDX, 0)];
    FlowThree(b, u);
    FlowRuns(j, gc, u, b);
  }

  lemma AddFlow(j: Jit, gc: nat -> bool, u: M, r: int, k: int)
    requires u.Go? && u.regs.rax == r && u.regs.rcx == k && StandsAt(j, u.pc, [Calc(AddRR, RAX, RCX)])
    ensures Gets(j, gc, u, u.(pc := u.pc + 1, regs := u.regs.(rax := Wrap(r + k))), 0)
  {
    hide Flow, StandsAt, Wrap;
    FlowOne(Calc(AddRR, RAX, RCX), u);
    FlowRuns(j, gc, u, [Calc(AddRR, RAX, RCX)]);
  }

  /** The remainder's correction: the divisor is added when the signs differ. */
  lemma CorrectFlow(j: Jit, gc: nat -> bool, m: M, top: Reg, r: int, k: int)
    requires m.Go? && m.regs.rax == r && m.regs.rcx == k && m.flags == (r, 0)
    requires StandsAt(j, m.pc,
        [Jcc(E, Over(5)), MovRR(RDX, RAX), Calc(XorRR, RDX, RCX), CmpRI(RDX, 0), Jcc(GE, Over(1)),
                                Calc(AddRR, RAX, RCX), MovRR(top, RAX)])
    ensures var v := if r != 0 && Wrap(BitXor(Unsigned(r), Unsigned(k))) < 0 then Wrap(r + k) else r;
      exists t :: Gets(j, gc, m, t, 0) && t.Go? && t == m.(pc := m.pc + 6, regs := t.regs, flags := t.flags)
        && t.regs.pool == m.regs.pool && t.regs.rax == v && StandsAt(j, t.pc, [MovRR(top, RAX)])
  {
    hide Flow, StandsAt, Gets, Wrap, BitXor, Unsigned;
    var j1, b, j2, add, mov := [Jcc(E, Over(5))], [MovRR(RDX, RAX), Calc(XorRR, RDX, RCX), CmpRI(RDX, 0)],
        [Jcc(GE, Over(1))],
      [Calc(AddRR, RAX, RCX)], [MovRR(top, RAX)];
    assert [Jcc(E, Over(5)), MovRR(RDX, RAX), Calc(XorRR, RDX, RCX), CmpRI(RDX, 0), Jcc(GE, Over(1)),
            Calc(AddRR, RAX, RCX), MovRR(top, RAX)] == j1 + (b + (j2 + (add + mov)));
    StandsCat(j, m.pc, j1, b + (j2 + (add + mov)));
    StandsCat(j, m.pc + 1, b, j2 + (add + mov));
    StandsCat(j, m.pc + 4, j2, add + mov);
    StandsCat(j, m.pc + 5, add, mov);
    JumpOver(j, gc, m, E, 5);
    if r == 0 {
      var t := m.(pc := m.pc + 6);
      assert Gets(j, gc, m, t, 0) && StandsAt(j, t.pc, mov);
    } else {
      var u := m.(pc := m.pc + 1);
      var x := Wrap(BitXor(Unsigned(r), Unsigned(k)));
      var u2 := u.(pc := m.pc + 4, regs := m.regs.(rdx := x), flags := (x, 0));
      SignFlow(j, gc, u, r, k);
      GetsOn(j, gc, m, u, u2, 0, 0);
      JumpOver(j, gc, u2, GE, 1);
      if x >= 0 {
        var t := u2.(pc := m.pc + 6);
        GetsOn(j, gc, m, u2, t, 0, 0);
        assert Gets(j, gc, m, t, 0) && StandsAt(j, t.pc, mov);
      } else {
        var u3 := u2.(pc := m.pc + 5);
        GetsOn(j, gc, m, u2, u3, 0, 0);
        var t := u3.(pc := m.pc + 6, regs := u3.regs.(rax := Wrap(r + k)));
        AddFlow(j, gc, u3, r, k);
        GetsOn(j, gc, m, u3, t, 0, 0);
        assert Gets(j, gc, m, t, 0) && StandsAt(j, t.pc, mov);
      }
    }
  }

  lemma ModRuns(w: World, slots: nat, m: M, s: VM, off: nat, d: nat, i: Instr, next: nat)
    requires Facts(w, slots, m, s, off, d, i, next) && i.BINARY_I? && i.op == Mod && FitsImmediate(i.imm)
    ensures Moves(w, m, s, off)
  {
    hide Rest, Same, Step, Perform, StandsAt, Gets, Boundary, Exits, Wrap, BitXor, Unsigned, TruncMod, EmitOne, IntOp;
    SameShape(w, m, s, d);
    TopTwo(w, m, s, d);
    var n, k := |w.L|, i.imm;
    var top := Pool(n + d - 1);
    var x := m.regs.pool[n + d - 1];
    var a := [MovRR(RAX, top), MovAbs(RCX, k), Cqo, Idiv(RCX), MovRR(RAX, RDX), CmpRI(RAX, 0)];
    var b := [Jcc(E, Over(5)), MovRR(RDX, RAX), Calc(XorRR, RDX, RCX), CmpRI(RDX, 0), Jcc(GE, Over(1)),
              Calc(AddRR, RAX, RCX), MovRR(top, RAX)];
    ModCode(w, i, off, next, d);
    StandsCat(w.j, m.pc, a, b);
    DivideFlow(w.j, w.gc, m, top, k);
    var r := TruncMod(x, k);
    var u := m.(pc := m.pc + 6, regs := m.regs.(rax := r, rcx := k, rdx := r), flags := (r, 0));
    CorrectFlow(w.j, w.gc, u, top, r, k);
    ModEnds(w, slots, m, u, s, off, d, i, next);
  }

  /** From the corrected remainder to the next instruction. */
  lemma ModEnds(w: World, slots: nat, m: M, u: M, s: VM, off: nat, d: nat, i: Instr, next: nat)
    requires Facts(w, slots, m, s, off, d, i, next) && i.BINARY_I? && i.op == Mod && FitsImmediate(i.imm)
    requires Gets(w.j, w.gc, m, u, 0) && u.Go? && d >= 1 && |m.regs.pool| == POOL_N && |w.L| + d <= POOL_N
    requires u == m.(pc := m.pc + 6, regs := u.regs, flags := u.flags) && u.regs.pool == m.regs.pool
    requires var k, x, top := i.imm, m.regs.pool[|w.L| + d - 1], Pool(|w.L| + d - 1);
      var r := TruncMod(x, k);
      var v := if r != 0 && Wrap(BitXor(Unsigned(r), Unsigned(k))) < 0 then Wrap(r + k) else r;
      && exists t :: Gets(w.j, w.gc, u, t, 0) && t.Go? && t == u.(pc := u.pc + 6, regs := t.regs, flags := t.flags)
           && t.regs.pool == u.regs.pool && t.regs.rax == v && StandsAt(w.j, t.pc, [MovRR(top, RAX)])
    ensures Moves(w, m, s, off)
  {
    hide Rest, Same, Step, Perform, StandsAt, Gets, Boundary, Exits, Wrap, BitXor, Unsigned, TruncMod, EmitOne, IntOp,
        Fetch, Scan, Accepted, Regular, JitRegion.Compiled, Moves;
    SameShape(w, m, s, d);
    TopTwo(w, m, s, d);
    ModCode(w, i, off, next, d);
    var k, x, top := i.imm, m.regs.pool[|w.L| + d - 1], Pool(|w.L| + d - 1);
    var r := TruncMod(x, k);
    var v := if r != 0 && Wrap(BitXor(Unsigned(r), Unsigned(k))) < 0 then Wrap(r + k) else r;
    var t :| Gets(w.j, w.gc, u, t, 0) && t.Go? && t == u.(pc := u.pc + 6, regs := t.regs, flags := t.flags)
      && t.regs.pool == u.regs.pool && t.regs.rax == v && StandsAt(w.j, t.pc, [MovRR(top, RAX)]);
    GetsOn(w.j, w.gc, m, u, t, 0, 0);
    FlooredRemainder(x, k);
    PerformMod(w.r.ch, s, i, next, x, v);
    PutRuns(w, slots, m, s, off, d, i, next, t, v, 1);
  }

  lemma ModCode(w: World, i: Instr, off: nat, next: nat, d: nat)
    requires i.BINARY_I? && i.op == Mod && d >= 1
    ensures var top := Pool(|w.L| + d - 1);
      EmitOne(w.r, w.L, i, off, next, d) ==
        [MovRR(RAX, top), MovAbs(RCX, i.imm), Cqo, Idiv(RCX), MovRR(RAX, RDX), CmpRI(RAX, 0)] +
        [Jcc(E, Over(5)), MovRR(RDX, RAX), Calc(XorRR, RDX, RCX), CmpRI(RDX, 0), Jcc(GE, Over(1)),
         Calc(AddRR, RAX, RCX), MovRR(top, RAX)]
  {
  }

  lemma PerformMod(ch: Chunk, s: VM, i: Instr, next: nat, x: int, v: int)
    requires s.Running? && i.BINARY_I? && |s.stack| >= 1 && s.stack[|s.stack| - 1] == Int(x)
    requires IntOp(i.op, x, i.imm) == Val(Int(v)) && !IsCompare(i.op)
    ensures Perform(ch, s, i, next) == s.(pc := next, stack := s.stack[..|s.stack| - 1] + [Int(v)])
  {
    hide IntOp;
  }

  // ---------------------------------------------------------------- branches

  /** The comparison's operands dropped. */
  lemma DropTwo(w: World, m: M, t: M, s: VM, s2: VM, d: nat)
    requires Same(w.L, w.heap, w.e, m, s, d) && d >= 2
    requires t.Go? && t == m.(pc := t.pc, flags := t.flags, polls := t.polls, regs := t.regs)
        && t.regs.pool == m.regs.pool
    requires s2.Running? && s2 == s.(pc := s2.pc, stack := s.stack[..|s.stack| - 2])
    ensures Same(w.L, w.heap, w.e, t, s2, d - 2)
  {
    var s3 := s.(stack := s.stack[..|s.stack| - 1]);
    PopSame(w, m, m, s, s3, d);
    assert s3.stack[..|s3.stack| - 1] == s.stack[..|s.stack| - 2];
    PopSame(w, m, t, s3, s2, d - 1);
  }

  lemma PerformCompare(ch: Chunk, s: VM, i: Instr, next: nat, x: int, y: int)
    requires s.Running? && i.COMPARE_JF? && IsCompare(i.op) && |s.stack| >= 2
    requires s.stack[|s.stack| - 2] == Int(x) && s.stack[|s.stack| - 1] == Int(y)
    ensures Perform(ch, s, i, next) ==
      s.(pc := if Holds(CondOf(i.op), (x, y)) then next else next + i.d, stack := s.stack[..|s.stack| - 2])
  {
  }

  /** Where control is after a branch of the interpreter. */
  lemma TookBranch(w: World, slots: nat, m: M, u: M, s: VM, off: nat, target: nat, d: nat, k: nat)
    requires w.Valid(slots) && Gets(w.j, w.gc, m, u, k) && Step(w.r.ch, s).Running? && Step(w.r.ch, s).pc == target
    requires Same(w.L, w.heap, w.e, u, Step(w.r.ch, s), d) && StandsAt(w.j, u.pc, BranchTo(w.r, target, d, |w.L|))
    requires w.r.start <= target < w.r.end ==> Visits(w.r, target, d)
    ensures Moves(w, m, s, off)
  {
    hide Same, StandsAt, Gets, Step, BranchTo, Boundary, Exits;
    SameShape(w, u, Step(w.r.ch, s), d);
    var s2 := Step(w.r.ch, s);
    BranchRuns(w, slots, u, s2, off, target, d);
    if Quits(w, u, s2) {
      GetsOn(w.j, w.gc, m, u, u, k, 0) by { GetsNow(w.j, w.gc, u); }
      QuitsAfter(w, m, u, s2);
    } else {
      var t :| Gets(w.j, w.gc, u, t, 1) && Boundary(w, t, s2, target, d);
      GetsOn(w.j, w.gc, m, u, t, k, 1);
      GetsOn(w.j, w.gc, m, t, t, 1, 0) by { GetsNow(w.j, w.gc, t); }
      assert Arrives(w, m, s2, off, t, target, d);
    }
  }

  lemma CompareRuns(w: World, slots: nat, m: M, s: VM, off: nat, d: nat, i: Instr, next: nat)
    requires Facts(w, slots, m, s, off, d, i, next) && i.COMPARE_JF? && IsCompare(i.op)
    ensures Moves(w, m, s, off)
  {
    hide Rest, Same, Step, Perform, StandsAt, Gets, Boundary, Exits, BranchTo, EmitOne, JitRegion.Compiled,
        Accepted, Regular;
    SameShape(w, m, s, d);
    TopTwo(w, m, s, d);
    var n, target := |w.L|, next + i.d;
    var x, y := m.regs.pool[n + d - 2], m.regs.pool[n + d - 1];
    var branch := BranchTo(w.r, target, d - 2, n);
    var cmp, jump := CmpRR(Pool(n + d - 2), Pool(n + d - 1)), Jcc(CondOf(i.op), Over(|branch|));
    CompareCode(w, i, off, next, d);
    StandsCat(w.j, m.pc, [cmp], [jump] + branch);
    StandsCat(w.j, m.pc + 1, [jump], branch);
    var u := m.(pc := m.pc + 1, flags := (x, y));
    OneCompare(w.j, w.gc, m, Pool(n + d - 2), Pool(n + d - 1));
    JumpOver(w.j, w.gc, u, CondOf(i.op), |branch|);
    PerformCompare(w.r.ch, s, i, next, x, y);
    var t := if Holds(CondOf(i.op), (x, y)) then u.(pc := u.pc + 1 + |branch|) else u.(pc := u.pc + 1);
    GetsOn(w.j, w.gc, m, u, t, 0, 0);
    DropTwo(w, m, t, s, Perform(w.r.ch, s, i, next), d);
    if Holds(CondOf(i.op), (x, y)) {
      Onward(w, slots, m, s, off, d, i, next, t);
    } else {
      TookBranch(w, slots, m, t, s, off, target, d - 2, 0);
    }
  }

  lemma CompareCode(w: World, i: Instr, off: nat, next: nat, d: nat)
    requires i.COMPARE_JF? && d >= 2
    ensures var n := |w.L|;
      var branch := BranchTo(w.r, next + i.d, d - 2, n);
      EmitOne(w.r, w.L, i, off, next,
          d) == [CmpRR(Pool(n + d - 2), Pool(n + d - 1))] + ([Jcc(CondOf(i.op), Over(|branch|))] + branch)
  {
    hide BranchTo;
  }

  lemma OneCompare(j: Jit, gc: nat -> bool, m: M, a: Reg, b: Reg)
    requires m.Go? && StandsAt(j, m.pc, [CmpRR(a, b)])
    ensures Gets(j, gc, m, m.(pc := m.pc + 1, flags := (m.regs.Get(a), m.regs.Get(b))), 0)
  {
    OneAsm(j, gc, m, CmpRR(a, b));
  }

  lemma PerformJump(ch: Chunk, s: VM, i: Instr, next: nat)
    requires s.Running? && (i.JUMP? || (i.LOOP? && i.d <= next))
    ensures Perform(ch, s, i, next) == s.(pc := TargetOf(i, next).value)
  {
  }

  lemma JumpRuns(w: World, slots: nat, m: M, s: VM, off: nat, d: nat, i: Instr, next: nat)
    requires Facts(w, slots, m, s, off, d, i, next) && i.JUMP?
    ensures Moves(w, m, s, off)
  {
    hide Rest, Same, Step, Perform, StandsAt, Gets, Boundary, Exits, BranchTo;
    SameShape(w, m, s, d);
    GetsNow(w.j, w.gc, m);
    PerformJump(w.r.ch, s, i, next);
    SameElsewhere(w.L, w.heap, w.e, m, m, s, d, next + i.d);
    TookBranch(w, slots, m, m, s, off, next + i.d, d, 0);
  }

  /** A back edge: if the collector waits, the interpreter goes on at the target. */
  lemma LoopRuns(w: World, slots: nat, m: M, s: VM, off: nat, d: nat, i: Instr, next: nat)
    requires Facts(w, slots, m, s, off, d, i, next) && i.LOOP?
    ensures Moves(w, m, s, off)
  {
    hide Rest, Same, Step, Perform, StandsAt, Gets, Boundary, Exits, BranchTo, BailTo, TailStands, EmitOne,
        JitRegion.Compiled, Accepted, Regular;
    SameShape(w, m, s, d);
    var n, target := |w.L|, next - i.d;
    var bail := BailTo(target, d, n);
    LoopCode(w, m.pc, i, off, next, d);
    var flag := if w.gc(m.polls) then 1 else 0;
    var u := m.(pc := m.pc + 2, regs := m.regs.(rax := flag, rcx := 0), polls := m.polls + 1, flags := (flag, 0));
    FlagRuns(w.j, w.gc, m);
    JumpOver(w.j, w.gc, u, E, |bail|);
    PerformJump(w.r.ch, s, i, next);
    var t := if flag == 0 then u.(pc := u.pc + 1 + |bail|) else u.(pc := u.pc + 1);
    GetsOn(w.j, w.gc, m, u, t, 0, 0);
    PollSame(w, m, t, s, d, target);
    if flag == 0 {
      TookBranch(w, slots, m, t, s, off, target, d, 0);
    } else {
      TailPlaced(w);
      BailRuns(w.j, w.gc, w.L, w.heap, w.e, t, s.(pc := target), d, target);
      QuitsAfter(w, m, t, s.(pc := target));
    }
  }

  lemma LoopCode(w: World, pc: nat, i: Instr, off: nat, next: nat, d: nat)
    requires i.LOOP? && i.d <= next && StandsAt(w.j, pc, EmitOne(w.r, w.L, i, off, next, d))
    ensures var target := next - i.d;
      var bail := BailTo(target, d, |w.L|);
      && StandsAt(w.j, pc, [ReadFlag]) && StandsAt(w.j, pc + 1, [CmpRI(RAX, 0)])
      && StandsAt(w.j, pc + 2, [Jcc(E, Over(|bail|))]) && StandsAt(w.j, pc + 3, bail)
      && StandsAt(w.j, pc + 3 + |bail|, BranchTo(w.r, target, d, |w.L|))
  {
    hide StandsAt, BranchTo, BailTo, EmitOne;
    var target := next - i.d;
    var bail, branch := BailTo(target, d, |w.L|), BranchTo(w.r, target, d, |w.L|);
    var jump := Jcc(E, Over(|bail|));
    LoopEmitted(w, i, off, next, d);
    StandsCat(w.j, pc, [ReadFlag], [CmpRI(RAX, 0)] + ([jump] + (bail + branch)));
    StandsCat(w.j, pc + 1, [CmpRI(RAX, 0)], [jump] + (bail + branch));
    StandsCat(w.j, pc + 2, [jump], bail + branch);
    StandsCat(w.j, pc + 3, bail, branch);
  }

  lemma LoopEmitted(w: World, i: Instr, off: nat, next: nat, d: nat)
    requires i.LOOP? && i.d <= next
    ensures var target := next - i.d;
      var bail := BailTo(target, d, |w.L|);
      EmitOne(w.r, w.L, i, off, next, d) ==
        [ReadFlag] + ([CmpRI(RAX, 0)] + ([Jcc(E, Over(|bail|))] + (bail + BranchTo(w.r, target, d, |w.L|))))
  {
    hide BranchTo, BailTo;
    var bail := BailTo(next - i.d, d, |w.L|);
    var a, b := [ReadFlag, CmpRI(RAX, 0), Jcc(E, Over(|bail|))], BranchTo(w.r, next - i.d, d, |w.L|);
    assert EmitOne(w.r, w.L, i, off, next, d) == a + bail + b;
  }

  lemma PollSame(w: World, m: M, t: M, s: VM, d: nat, target: nat)
    requires Same(w.L, w.heap, w.e, m, s, d)
    requires t.Go? && t == m.(pc := t.pc, flags := t.flags, polls := t.polls, regs := t.regs)
        && t.regs.pool == m.regs.pool
    ensures Same(w.L, w.heap, w.e, t, s.(pc := target), d)
  {
    SameElsewhere(w.L, w.heap, w.e, m, t.(polls := m.polls), s, d, target);
    var t1 := t.(polls := m.polls);
    forall k: nat | k < d ensures OperandIs(w.L, w.e, t, s.(pc := target),
        k) { assert OperandIs(w.L, w.e, t1, s.(pc := target), k); }
    forall i | 0 <= i < |s.locals| ensures s.locals[i] == SlotValue(w.L, w.heap, t, i) {
      assert SlotValue(w.L, w.heap, t1, i) == SlotValue(w.L, w.heap, t, i);
    }
  }

  lemma FlagRuns(j: Jit, gc: nat -> bool, m: M)
    requires m.Go? && StandsAt(j, m.pc, [ReadFlag]) && StandsAt(j, m.pc + 1, [CmpRI(RAX, 0)])
    ensures var flag := if gc(m.polls) then 1 else 0;
      Gets(j, gc, m,
           m.(pc := m.pc + 2, regs := m.regs.(rax := flag, rcx := 0), polls := m.polls + 1, flags := (flag, 0)), 0)
  {
    OneAsm(j, gc, m, ReadFlag);
    var u := JStep(j, gc, m);
    OneAsm(j, gc, u, CmpRI(RAX, 0));
    GetsOn(j, gc, m, u, JStep(j, gc, u), 1, 1);
    GetsOn(j, gc, m, JStep(j, gc, u), JStep(j, gc, u), 1, 0) by { GetsNow(j, gc, JStep(j, gc, u)); }
  }

  // ---------------------------------------------------------------- a whole region

  lemma SmallCell(code: seq<nat>, p: nat)
    requires forall c :: c in code ==> c < 256
    ensures Cell(code, p) < 256
  {
    if p < |code| { assert code[p] in code; }
  }

  lemma FetchedOperators(code: seq<nat>, pc: nat)
    requires (forall c :: c in code ==> c < 256) && Fetch(code, pc).Fetched?
    ensures var i := Fetch(code, pc).i;
      && (i.BINARY_I? ==> HasImmediate(i.op) && FitsImmediate(i.imm))
      && (i.COMPARE_JF? ==> IsCompare(i.op))
  {
    SmallCell(code, pc + 1);
    SmallCell(code, pc + 2);
  }

  /** One instruction of the interpreter, done by compiled code. */
  lemma InstrRuns(w: World, slots: nat, m: M, s: VM, off: nat, d: nat)
    requires w.Valid(slots) && Boundary(w, m, s, off, d) && off < w.r.end && m.Go? && |m.slots| == slots
    ensures Moves(w, m, s, off)
  {
    hide Boundary, Same, Moves, Perform, Step, EmitOne, JitRegion.Compiled;
    FactsHold(w, slots, m, s, off, d);
    FetchedOperators(w.r.ch.code, off);
    var f := Fetch(w.r.ch.code, off);
    match f.i {
      case GET_LOCAL(_) => LoadRuns(w, slots, m, s, off, d, f.i, f.next);
      case CONST(_) => LoadRuns(w, slots, m, s, off, d, f.i, f.next);
      case DUP => LoadRuns(w, slots, m, s, off, d, f.i, f.next);
      case SET_LOCAL(_) => SetRuns(w, slots, m, s, off, d, f.i, f.next);
      case POP => PopRuns(w, slots, m, s, off, d, f.i, f.next);
      case BINARY(op) => BinaryRuns(w, slots, m, s, off, d, f.i, f.next, op);
      case ADD_INPLACE => BinaryRuns(w, slots, m, s, off, d, f.i, f.next, Add);
      case BINARY_I(op, _) =>
        if op == Mod { ModRuns(w, slots, m, s, off, d, f.i, f.next); } else { ImmediateRuns(w, slots, m, s, off, d,
            f.i, f.next); }
      case COMPARE_JF(_, _) => CompareRuns(w, slots, m, s, off, d, f.i, f.next);
      case JUMP(_) => JumpRuns(w, slots, m, s, off, d, f.i, f.next);
      case LOOP(_) => LoopRuns(w, slots, m, s, off, d, f.i, f.next);
    }
  }

  /** The end of the region: the operand stack is empty there. */
  lemma EndRuns(w: World, slots: nat, m: M, s: VM, d: nat)
    requires w.Valid(slots) && Boundary(w, m, s, w.r.end, d)
    ensures Quits(w, m, s)
  {
    TailPlaced(w);
    assert Rest(w.r, w.L, w.r.end, d) == BailTo(w.r.end, 0, |w.L|);
    assert d == 0;
    BailRuns(w.j, w.gc, w.L, w.heap, w.e, m, s, 0, w.r.end);
    assert s.(pc := w.r.end) == s;
  }

  /** How a run can be seen after `n` machine instructions, the interpreter having started in `s`. */
  ghost predicate Agrees(w: World, m: M, s: VM, n: nat) {
    var r := JRun(w.j, w.gc, m, n);
    r.Go? || (r.Left? && exists k: nat :: Exits(w.heap, w.e, r, Run(w.r.ch, s, k)))
  }

  /** A run that gets to a stop is before it, or has stopped there. */
  lemma BeforeStop(j: Jit, gc: nat -> bool, m: M, t: M, n: nat)
    requires t.Left? && Gets(j, gc, m, t, 0)
    ensures JRun(j, gc, m, n).Go? || JRun(j, gc, m, n) == t
  {
    var k: nat :| JRun(j, gc, m, k) == t;
    var r := JRun(j, gc, m, n);
    if !r.Go? {
      if n <= k {
        JRunAdd(j, gc, m, n, k - n);
        JStopped(j, gc, r, k - n);
      } else {
        JRunAdd(j, gc, m, k, n - k);
        JStopped(j, gc, t, n - k);
      }
    }
  }

  lemma QuitsAgrees(w: World, m: M, s: VM, k: nat, n: nat)
    requires Quits(w, m, Run(w.r.ch, s, k))
    ensures Agrees(w, m, s, n)
  {
    var t :| Gets(w.j, w.gc, m, t, 1) && Exits(w.heap, w.e, t, Run(w.r.ch, s, k));
    BeforeStop(w.j, w.gc, m, t, n);
  }

  /** Memory keeps its size. */
  lemma KeepsSize(w: World, m: M, s: VM, t: M, s2: VM, off: nat, d: nat, off2: nat, d2: nat)
    requires Boundary(w, m, s, off, d) && Boundary(w, t, s2, off2, d2) && s2 == Step(w.r.ch, s)
    ensures |m.slots| == |t.slots|
  {
    hide Fetch, Same, Scan, StandsAt, Step, Rest;
    SameShape(w, m, s, d);
    SameShape(w, t, s2, d2);
    StepKeepsSlots(w.r.ch, s);
  }

  lemma StepKeepsSlots(ch: Chunk, s: VM)
    ensures s.Running? && Step(ch, s).Running? ==> |Step(ch, s).locals| == |s.locals|
  {
    hide Fetch, Apply, ApplyPrefix;
  }

  /** From any instruction of the region, all that compiled code does agrees with the interpreter. */
  lemma {:induction false} RunsAlong(w: World, slots: nat, m: M, s: VM, off: nat, d: nat, n: nat)
    requires w.Valid(slots) && Boundary(w, m, s, off, d) && m.Go? && |m.slots| == slots
    ensures Agrees(w, m, s, n)
    decreases n, w.r.end - off
  {
    hide Boundary, Exits, Step, Quits, JRun, Agrees;
    Within(w, m, s, off, d);
    var ch := w.r.ch;
    assert Run(ch, s, 0) == s && Run(ch, s, 1) == Step(ch, s) by { assert Run(ch, s, 1) == Run(ch, Step(ch, s), 0); }
    if off == w.r.end {
      EndRuns(w, slots, m, s, d);
      QuitsAgrees(w, m, s, 0, n);
    } else {
      InstrRuns(w, slots, m, s, off, d);
      if Quits(w, m, s) {
        QuitsAgrees(w, m, s, 0, n);
      } else if Quits(w, m, Step(ch, s)) {
        QuitsAgrees(w, m, s, 1, n);
      } else {
        var t, off2: nat, d2: nat :| Arrives(w, m, Step(ch, s), off, t, off2, d2);
        var k: nat :| (k >= if off2 > off then 0 else 1) && JRun(w.j, w.gc, m, k) == t;
        Within(w, t, Step(ch, s), off2, d2);
        KeepsSize(w, m, s, t, Step(ch, s), off, d, off2, d2);
        if n < k {
          BeforeGo(w.j, w.gc, m, n, k);
          GoAgrees(w, m, s, n);
        } else {
          JRunAdd(w.j, w.gc, m, k, n - k);
          RunsAlong(w, slots, t, Step(ch, s), off2, d2, n - k);
          OneMoreStep(w, m, t, s, k, n);
        }
      }
    }
  }

  lemma BeforeGo(j: Jit, gc: nat -> bool, m: M, n: nat, k: nat)
    requires n <= k && JRun(j, gc, m, k).Go?
    ensures JRun(j, gc, m, n).Go?
  {
    JRunAdd(j, gc, m, n, k - n);
    if !JRun(j, gc, m, n).Go? { JStopped(j, gc, JRun(j, gc, m, n), k - n); }
  }

  lemma GoAgrees(w: World, m: M, s: VM, n: nat)
    requires JRun(w.j, w.gc, m, n).Go?
    ensures Agrees(w, m, s, n)
  {
  }

  lemma SameAgrees(w: World, m: M, t: M, s: VM, n: nat, x: nat)
    requires JRun(w.j, w.gc, m, n) == JRun(w.j, w.gc, t, x) && Agrees(w, t, s, x)
    ensures Agrees(w, m, s, n)
  {
  }

  lemma OneMoreStep(w: World, m: M, t: M, s: VM, k: nat, n: nat)
    requires k <= n && JRun(w.j, w.gc, m, n) == JRun(w.j, w.gc, t, n - k) && Agrees(w, t, Step(w.r.ch, s), n - k)
    ensures Agrees(w, m, s, n)
  {
    hide Exits, Step;
    var r := JRun(w.j, w.gc, m, n);
    if r.Left? {
      var x: nat :| Exits(w.heap, w.e, r, Run(w.r.ch, Step(w.r.ch, s), x));
      assert Run(w.r.ch, s, x + 1) == Run(w.r.ch, Step(w.r.ch, s), x);
    }
  }

  lemma Within(w: World, m: M, s: VM, off: nat, d: nat)
    requires Boundary(w, m, s, off, d)
    ensures off <= w.r.end && m.Go? && s.Running?
  {
  }

  /** Compiled code that does not leave lets the interpreter's run go on: it does not hang where the
      interpreter would stop. */
  lemma {:induction false} KeepsUp(w: World, slots: nat, m: M, s: VM, off: nat, d: nat, n: nat)
    requires w.Valid(slots) && Boundary(w, m, s, off, d) && m.Go? && |m.slots| == slots
    ensures GetsOut(w, m) || Run(w.r.ch, s, n).Running?
    decreases n
  {
    hide Boundary, Exits, Step, Quits, JRun, Gets, GetsOut;
    Within(w, m, s, off, d);
    var ch := w.r.ch;
    if n == 0 {
      assert Run(ch, s, 0).Running?;
    } else {
      if off == w.r.end {
        EndRuns(w, slots, m, s, d);
        QuitsLeft(w, m, s);
      } else {
        InstrRuns(w, slots, m, s, off, d);
        if Quits(w, m, s) {
          QuitsLeft(w, m, s);
        } else if Quits(w, m, Step(ch, s)) {
          QuitsLeft(w, m, Step(ch, s));
        } else {
          var t, off2: nat, d2: nat :| Arrives(w, m, Step(ch, s), off, t, off2, d2);
          Within(w, t, Step(ch, s), off2, d2);
          KeepsSize(w, m, s, t, Step(ch, s), off, d, off2, d2);
          KeepsUp(w, slots, t, Step(ch, s), off2, d2, n - 1);
          GetsOn(w.j, w.gc, m, t, t, if off2 > off then 0 else 1, 0) by { GetsNow(w.j, w.gc, t); }
          assert Run(ch, s, n) == Run(ch, Step(ch, s), n - 1);
          if !Run(ch, s, n).Running? { LeavesLater(w, m, t); }
        }
      }
    }
  }

  /** The emitted code returns to the interpreter. */
  ghost predicate GetsOut(w: World, m: M) { exists k: nat :: JRun(w.j, w.gc, m, k).Left? }

  lemma LeavesLater(w: World, m: M, t: M)
    requires Gets(w.j, w.gc, m, t, 0) && GetsOut(w, t)
    ensures GetsOut(w, m)
  {
    var k: nat :| JRun(w.j, w.gc, t, k).Left?;
    var x: nat :| JRun(w.j, w.gc, m, x) == t;
    JRunAdd(w.j, w.gc, m, x, k);
    assert JRun(w.j, w.gc, m, x + k).Left?;
  }

  lemma QuitsLeft(w: World, m: M, s: VM)
    requires Quits(w, m, s)
    ensures GetsOut(w, m)
  {
    var t :| Gets(w.j, w.gc, m, t, 1) && Exits(w.heap, w.e, t, s);
    var k: nat :| JRun(w.j, w.gc, m, k) == t;
  }

  // ---------------------------------------------------------------- entering

  /** The frame at a region's start: any words, any registers. */
  ghost predicate Enters(w: World, m: M, s: VM) {
    && m.Go? && m.pc == 0 && m.sp == 0 && |m.area| == POOL_N == |m.regs.pool|
    && s.Running? && s.pc == w.r.start && s.stack == w.e.base && s.handlers == w.e.handlers && s.out == w.e.out
    && |s.locals| == |m.slots| && forall i | 0 <= i < |s.locals| :: s.locals[i] == ValueOf(w.heap, m.slots[i])
  }

  /** The first `i` registers hold their slots' integers. */
  predicate Loaded(L: seq<nat>, m: M, i: nat)
    requires m.Go?
  {
    i <= |L| <= |m.regs.pool| &&
    forall k | 0 <= k < i :: L[k] < |m.slots| && TaggedInt(m.slots[L[k]]) && m.regs.pool[k] == Narrow(m.slots[L[k]])
  }

  /** At `pc`, with other registers and flags. */
  ghost predicate ComesTo(j: Jit, gc: nat -> bool, m: M, t: M, pc: nat) {
    m.Go? && t.Go? && Gets(j, gc, m, t, 0) && t == m.(pc := pc, regs := t.regs, flags := t.flags)
  }

  lemma ComesOn(j: Jit, gc: nat -> bool, m: M, t: M, u: M, p: nat, q: nat)
    requires ComesTo(j, gc, m, t, p) && ComesTo(j, gc, t, u, q)
    ensures ComesTo(j, gc, m, u, q)
  {
    GetsOn(j, gc, m, t, u, 0, 0);
  }

  lemma TagShift(word: int)
    ensures TaggedInt(word) <==> ShiftRightLogical(word, 47) == TOP17_INT
  {
    Powers();
  }

  /** Loading a slot, up to the test of its tag. */
  lemma LoadTests(j: Jit, gc: nat -> bool, m: M, i: nat, slot: nat)
    requires m.Go? && i < |m.regs.pool| && slot < |m.slots| && StandsAt(j, m.pc, LoadLocal(i, slot))
    ensures var word := m.slots[slot];
      var top := ShiftRightLogical(word, 47);
      var regs := m.regs.(pool := m.regs.pool[i := word], rcx := top);
      && Gets(j, gc, m, m.(pc := m.pc + (if TaggedInt(word) then 6 else 5), regs := regs, flags := (top, TOP17_INT)), 0)
      && StandsAt(j, m.pc + 5, [Jmp(PrologueBail)])
      && StandsAt(j, m.pc + 6, [ShlRI(Pool(i), 17), SarRI(Pool(i), 17)])
  {
    hide Flow, StandsAt, Gets, ShiftRightLogical, TaggedInt;
    var word := m.slots[slot];
    var r := Pool(i);
    var a := [LoadSlot(r, slot), MovRR(RCX, r), ShrRI(RCX, 47), CmpRI(RCX, TOP17_INT)];
    var j1, j2, b := [Jcc(E, Over(1))], [Jmp(PrologueBail)], [ShlRI(r, 17), SarRI(r, 17)];
    assert LoadLocal(i, slot) == a + (j1 + (j2 + b));
    StandsCat(j, m.pc, a, j1 + (j2 + b));
    StandsCat(j, m.pc + 4, j1, j2 + b);
    StandsCat(j, m.pc + 5, j2, b);
    FlowFour(a, m);
    var top := ShiftRightLogical(word, 47);
    assert TaggedInt(word) <==> top == TOP17_INT by { TagShift(word); }
    var u := m.(pc := m.pc + 4, regs := m.regs.(pool := m.regs.pool[i := word], rcx := top), flags := (top, TOP17_INT));
    assert Flow(a, m) == u;
    FlowRuns(j, gc, m, a);
    JumpOver(j, gc, u, E, 1);
    GetsOn(j, gc, m, u, u.(pc := m.pc + (if TaggedInt(word) then 6 else 5)), 4, 0);
    GetsLess(j, gc, m, u.(pc := m.pc + (if TaggedInt(word) then 6 else 5)), 4);
  }

  lemma GetsLess(j: Jit, gc: nat -> bool, m: M, t: M, k: nat)
    requires Gets(j, gc, m, t, k)
    ensures Gets(j, gc, m, t, 0)
  {
    GetsNow(j, gc, t);
    GetsOn(j, gc, m, t, t, k, 0);
  }

  lemma LoadFlow(j: Jit, gc: nat -> bool, m: M, i: nat, slot: nat)
    requires m.Go? && i < |m.regs.pool| && slot < |m.slots| && StandsAt(j, m.pc, LoadLocal(i, slot))
        && IsWord(m.slots[slot])
    ensures var word := m.slots[slot];
      if TaggedInt(word) then exists t ::
            ComesTo(j, gc, m, t, m.pc + 8) && t.regs.pool == m.regs.pool[i := Narrow(word)]
      else exists t :: ComesTo(j, gc, m, t, j.prologueBail)
  {
    hide Flow, StandsAt, Gets, ShiftLeft, ShiftRight, ShiftRightLogical, TaggedInt, Narrow, LoadLocal;
    var word, top := m.slots[slot], ShiftRightLogical(m.slots[slot], 47);
    var b := [ShlRI(Pool(i), 17), SarRI(Pool(i), 17)];
    LoadTests(j, gc, m, i, slot);
    var regs := m.regs.(pool := m.regs.pool[i := word], rcx := top);
    if TaggedInt(word) {
      var v := m.(pc := m.pc + 6, regs := regs, flags := (top, TOP17_INT));
      FlowTwo(b, v);
      ShiftsNarrow(word);
      var t := v.(pc := m.pc + 8, regs := v.regs.(pool := m.regs.pool[i := Narrow(word)]));
      assert Flow(b, v) == t;
      FlowRuns(j, gc, v, b);
      GetsOn(j, gc, m, v, t, 0, 2);
      GetsLess(j, gc, m, t, 2);
      assert ComesTo(j, gc, m, t, m.pc + 8);
    } else {
      var v := m.(pc := m.pc + 5, regs := regs, flags := (top, TOP17_INT));
      OneAsm(j, gc, v, Jmp(PrologueBail));
      var t := v.(pc := j.prologueBail);
      GetsOn(j, gc, m, v, t, 0, 1);
      GetsLess(j, gc, m, t, 1);
      assert ComesTo(j, gc, m, t, j.prologueBail);
    }
  }

  lemma LoadedFew(L: seq<nat>, m: M, i: nat)
    requires m.Go? && Loaded(L, m, i)
    ensures i <= |L| <= |m.regs.pool|
  {
  }

  lemma LoadedMore(L: seq<nat>, m: M, t: M, i: nat)
    requires m.Go? && t.Go? && Loaded(L, m, i) && i < |L| <= |m.regs.pool| && t.slots == m.slots
    requires L[i] < |m.slots| && TaggedInt(m.slots[L[i]]) && t.regs.pool == m.regs.pool[i := Narrow(m.slots[L[i]])]
    ensures Loaded(L, t, i + 1)
  {
  }

  /** The slots from the `i`-th on hold small integers. */
  predicate IntsFrom(L: seq<nat>, slots: seq<int>, i: nat) {
    forall k | i <= k < |L| :: L[k] < |slots| && TaggedInt(slots[L[k]])
  }

  /** The prologue loads the frame, or leaves if some slot of the region holds something else than a small
      integer. */
  lemma {:induction false} PrologueRuns(w: World, slots: nat, m: M, i: nat)
    requires w.Built(slots) && m.Go? && |m.slots| == slots && |m.regs.pool| == POOL_N && Loaded(w.L, m, i)
    requires StandsAt(w.j, m.pc, Prologue(w.L, i)) && forall k | 0 <= k < |m.slots| :: IsWord(m.slots[k])
    ensures
      if IntsFrom(w.L, m.slots, i) then
        exists t :: ComesTo(w.j, w.gc, m, t, m.pc + |Prologue(w.L, i)|) && |t.regs.pool| == POOL_N
            && Loaded(w.L, t, |w.L|)
      else exists t :: ComesTo(w.j, w.gc, m, t, w.j.prologueBail)
    decreases |w.L| - i
  {
    hide StandsAt, Gets, JitRegion.Compiled, LoadLocal, Accepted, Loaded;
    PoolFits(w, slots);
    assert i <= |w.L| by { LoadedFew(w.L, m, i); }
    if i == |w.L| {
      GetsNow(w.j, w.gc, m);
      assert ComesTo(w.j, w.gc, m, m, m.pc + |Prologue(w.L, i)|);
    } else {
      StandsCat(w.j, m.pc, LoadLocal(i, w.L[i]), Prologue(w.L, i + 1));
      assert w.L[i] in w.L;
      assert IsWord(m.slots[w.L[i]]);
      LoadFlow(w.j, w.gc, m, i, w.L[i]);
      EightLong(i, w.L[i]);
      if TaggedInt(m.slots[w.L[i]]) {
        var t :| ComesTo(w.j, w.gc, m, t, m.pc + 8) && t.regs.pool == m.regs.pool[i := Narrow(m.slots[w.L[i]])];
        LoadedMore(w.L, m, t, i);
        PrologueRuns(w, slots, t, i + 1);
        if IntsFrom(w.L, m.slots, i) {
          var u :| ComesTo(w.j, w.gc, t, u, t.pc + |Prologue(w.L, i + 1)|) && |u.regs.pool| == POOL_N
            && Loaded(w.L, u, |w.L|);
          ComesOn(w.j, w.gc, m, t, u, m.pc + 8, t.pc + |Prologue(w.L, i + 1)|);
        } else {
          var u :| ComesTo(w.j, w.gc, t, u, w.j.prologueBail);
          ComesOn(w.j, w.gc, m, t, u, m.pc + 8, w.j.prologueBail);
        }
      }
    }
  }

  lemma EightLong(i: nat, slot: nat)
    ensures |LoadLocal(i, slot)| == 8
  {
  }

  lemma PoolFits(w: World, slots: nat)
    requires w.Built(slots)
    ensures |w.L| <= POOL_N && Distinct(w.L)
  {
    PrepassGrows(w.r, w.r.start, 0, Uses([], 0));
  }

  /** The prologue has loaded the frame: code and interpreter are at the first instruction. */
  lemma LoadedIsSame(w: World, slots: nat, m: M, t: M, s: VM)
    requires w.Built(slots) && Enters(w, m, s) && |m.slots| == slots
    requires t.Go? && t == m.(pc := t.pc, regs := t.regs, flags := t.flags) && |t.regs.pool| == POOL_N
        && Loaded(w.L, t, |w.L|)
    ensures Same(w.L, w.heap, w.e, t, s, 0)
  {
    PoolFits(w, slots);
    forall i | 0 <= i < |s.locals| ensures s.locals[i] == SlotValue(w.L, w.heap, t, i) {
      if i in w.L { assert w.L[IndexOf(w.L, i)] == i; }
    }
  }

  /** The early exit: memory is as it was. */
  lemma TurnedAway(w: World, m: M, t: M, s: VM)
    requires Enters(w, m, s) && ComesTo(w.j, w.gc, m, t, w.j.prologueBail)
    requires StandsAt(w.j, w.j.prologueBail, [MovAbs(RAX, w.r.start), Leave])
    ensures Quits(w, m, s)
  {
    hide StandsAt, Gets;
    var a, b := MovAbs(RAX, w.r.start), [Leave];
    assert [MovAbs(RAX, w.r.start), Leave] == [a] + b;
    StandsCat(w.j, t.pc, [a], b);
    OneConst(w, t, RAX, w.r.start);
    var u := t.(pc := t.pc + 1, regs := t.regs.Put(RAX, w.r.start));
    GetsOn(w.j, w.gc, m, t, u, 0, 0);
    OneAsm(w.j, w.gc, u, Leave);
    var q := Left(w.r.start, m.slots, []);
    assert JStep(w.j, w.gc, u) == q;
    GetsOn(w.j, w.gc, m, u, q, 0, 1);
    assert Exits(w.heap, w.e, q, s);
  }

  /** Entering: at the first instruction, or out again with nothing changed. */
  lemma EntryRuns(w: World, slots: nat, m: M, s: VM)
    requires w.Valid(slots) && Enters(w, m, s) && |m.slots| == slots
        && forall k | 0 <= k < |m.slots| :: IsWord(m.slots[k])
    ensures Quits(w, m, s) ||
      (exists t :: Gets(w.j, w.gc, m, t, 0) && t.Go? && |t.slots| == slots && Boundary(w, t, s, w.r.start, 0))
  {
    hide JitRegion.Compiled, Same, StandsAt, Gets, Rest, Prologue, Accepted, Exits;
    TailPlaced(w);
    PoolFits(w, slots);
    PrologueRuns(w, slots, m, 0);
    if t :| ComesTo(w.j, w.gc, m, t, w.j.prologueBail) {
      TurnedAway(w, m, t, s);
    } else {
      var p := |Prologue(w.L, 0)|;
      var t :| ComesTo(w.j, w.gc, m, t, m.pc + p) && |t.regs.pool| == POOL_N && Loaded(w.L, t, |w.L|);
      LoadedIsSame(w, slots, m, t, s);
      assert Boundary(w, t, s, w.r.start, 0);
    }
  }

  /** The main result.  Whatever the frame holds, whatever the registers hold, whatever the collector's
      flag says at each back edge: compiled code never gets stuck, and when it returns, the interpreter,
      started at the same place, arrives at the returned address with exactly the frame and operand
      stack that the code has left in memory. */
  lemma RegionRuns(w: World, slots: nat, m: M, s: VM, n: nat)
    requires w.Valid(slots) && Enters(w, m, s) && |m.slots| == slots
        && forall k | 0 <= k < |m.slots| :: IsWord(m.slots[k])
    ensures Agrees(w, m, s, n)
  {
    hide Boundary, Exits, Enters, Quits, JRun, Agrees, Accepted, Regular, JitRegion.Compiled;
    assert Run(w.r.ch, s, 0) == s;
    EntryRuns(w, slots, m, s);
    if Quits(w, m, s) {
      QuitsAgrees(w, m, s, 0, n);
    } else {
      var t :| Gets(w.j, w.gc, m, t, 0) && t.Go? && |t.slots| == slots && Boundary(w, t, s, w.r.start, 0);
      var k: nat :| JRun(w.j, w.gc, m, k) == t;
      if n < k {
        BeforeGo(w.j, w.gc, m, n, k);
        GoAgrees(w, m, s, n);
      } else {
        JRunAdd(w.j, w.gc, m, k, n - k);
        RunsAlong(w, slots, t, s, w.r.start, 0, n - k);
        SameAgrees(w, m, t, s, n, n - k);
      }
    }
  }

  /** And it returns, unless the interpreter would still be running after any number of steps. */
  lemma RegionStops(w: World, slots: nat, m: M, s: VM, n: nat)
    requires w.Valid(slots) && Enters(w, m, s) && |m.slots| == slots
        && forall k | 0 <= k < |m.slots| :: IsWord(m.slots[k])
    ensures GetsOut(w, m) || Run(w.r.ch, s, n).Running?
  {
    hide Boundary, Exits, Enters, GetsOut, Run;
    EntryRuns(w, slots, m, s);
    if Quits(w, m, s) {
      QuitsLeft(w, m, s);
    } else {
      var t :| Gets(w.j, w.gc, m, t, 0) && t.Go? && |t.slots| == slots && Boundary(w, t, s, w.r.start, 0);
      KeepsUp(w, slots, t, s, w.r.start, 0, n);
      if !Run(w.r.ch, s, n).Running? { LeavesLater(w, m, t); }
    }
  }
}
