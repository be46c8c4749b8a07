/** Leaving compiled code rebuilds the interpreter's frame and operand stack. */
module JitExits {
  import opened Bytecode
  import opened JitWords
  import opened JitMachine
  import opened JitRegion

  /** The value of a word in memory; `heap` gives what words other than small integers stand for. */
  function ValueOf(heap: int -> Value, w: int): Value { if TaggedInt(w) then Int(Narrow(w)) else heap(w) }

  /** What of the interpreter's state a region does not touch. */
  datatype Env = Env(base: seq<Value>, handlers: seq<Handler>, out: seq<Value>)

  predicate Distinct(L: seq<nat>) { forall a, b :: 0 <= a < b < |L| ==> L[a] != L[b] }

  /** Inside compiled code: registers hold what the interpreter has in its slots and on its stack, all
      of it small integers; the other slots are in memory. */
  ghost predicate Same(L: seq<nat>, heap: int -> Value, e: Env, m: M, s: VM, d: nat) {
    && m.Go? && s.Running? && m.sp == 0 && |m.area| == POOL_N == |m.regs.pool| && |L| + d <= POOL_N
    && s.handlers == e.handlers && s.out == e.out
    && |s.stack| == |e.base| + d && s.stack[..|e.base|] == e.base
    && (forall k: nat :: k < d ==> OperandIs(L, e, m, s, k))
    && |s.locals| == |m.slots|
    && (forall i | 0 <= i < |s.locals| :: s.locals[i] == SlotValue(L, heap, m, i))
    && (forall k | 0 <= k < |L| + d :: Inline(m.regs.pool[k]))
    && Distinct(L) && (forall k | 0 <= k < |L| :: L[k] < |m.slots|)
  }

  /** Operand `k` is in its register. */
  predicate OperandIs(L: seq<nat>, e: Env, m: M, s: VM, k: nat)
    requires m.Go? && s.Running?
  {
    && |e.base| + k < |s.stack| && |L| + k < |m.regs.pool|
    && s.stack[|e.base| + k] == Int(m.regs.pool[|L| + k])
  }

  function SlotValue(L: seq<nat>, heap: int -> Value, m: M, i: nat): Value
    requires m.Go? && |m.regs.pool| >= |L| && i < |m.slots|
  {
    if i in L then Int(m.regs.pool[IndexOf(L, i)]) else ValueOf(heap, m.slots[i])
  }

  /** After compiled code: the interpreter goes on at `m.off` with what memory holds. */
  ghost predicate Exits(heap: int -> Value, e: Env, m: M, s: VM) {
    && m.Left? && s.Running? && s.pc == m.off && s.handlers == e.handlers && s.out == e.out
    && |s.stack| == |e.base| + |m.stack| && s.stack[..|e.base|] == e.base
    && (forall k | 0 <= k < |m.stack| :: StackValue(e, s, k) == ValueOf(heap, m.stack[k]))
    && |s.locals| == |m.frame|
    && (forall i | 0 <= i < |s.locals| :: s.locals[i] == ValueOf(heap, m.frame[i]))
  }

  /** The interpreter's operand `k`, above what the region found on the stack. */
  function StackValue(e: Env, s: VM, k: nat): Value
    requires s.Running? && |e.base| + k < |s.stack|
  {
    s.stack[|e.base| + k]
  }

  // ---------------------------------------------------------------- boxing in registers

  lemma BoxFlow(k: nat, m: M)
    requires m.Go? && k < |m.regs.pool|
    ensures AllStraight(BoxTo(RDX, Pool(k)))
    ensures Flow(BoxTo(RDX, Pool(k)), m) ==
      m.(pc := m.pc + 5, regs := m.regs.(rdx := Boxed(m.regs.pool[k]), rcx := Wrap(TAG_INT)))
  {
    hide Flow, Effect, Compute;
    var b, r, x := BoxTo(RDX, Pool(k)), m.regs, m.regs.pool[k];
    FlowFive(b, m);
    CopyEffect(RDX, Pool(k), m);
    var m1 := m.(pc := m.pc + 1, regs := r.(rdx := x));
    MovAbsEffect(RCX, PAYLOAD, m1);
    var m2 := m.(pc := m.pc + 2, regs := r.(rdx := x, rcx := PAYLOAD));
    CalcEffect(AndRR, m2);
    var y := Compute(AndRR, x, PAYLOAD);
    var m3 := m.(pc := m.pc + 3, regs := r.(rdx := y, rcx := PAYLOAD));
    MovAbsEffect(RCX, Wrap(TAG_INT), m3);
    var m4 := m.(pc := m.pc + 4, regs := r.(rdx := y, rcx := Wrap(TAG_INT)));
    CalcEffect(OrRR, m4);
    BoxedIsMasked(x);
  }

  lemma CopyEffect(d: Reg, s: Reg, m: M)
    requires m.Go?
    ensures Effect(MovRR(d, s), m) == m.(pc := m.pc + 1, regs := m.regs.Put(d, m.regs.Get(s)))
  {
  }

  lemma CalcEffect(f: Arith, m: M)
    requires m.Go?
    ensures Effect(Calc(f, RDX, RCX), m) == m.(pc := m.pc + 1,
        regs := m.regs.(rdx := Compute(f, m.regs.rdx, m.regs.rcx)))
  {
    hide Compute;
  }

  lemma BoxedIsMasked(x: int)
    ensures Boxed(x) == Compute(OrRR, Compute(AndRR, x, PAYLOAD), Wrap(TAG_INT))
  {
    hide BitAnd, BitOr;
  }

  lemma FlowFive(b: seq<Asm>, m: M)
    requires |b| == 5
    ensures Flow(b, m) == Effect(b[4], Effect(b[3], Effect(b[2], Effect(b[1], Effect(b[0], m)))))
  {
    hide Effect;
    assert b == [b[0]] + ([b[1]] + ([b[2]] + ([b[3]] + [b[4]])));
    FlowOne(b[0], m); FlowOne(b[1], Effect(b[0], m));
    FlowCat([b[0]], [b[1]] + ([b[2]] + ([b[3]] + [b[4]])), m);
    var m1 := Effect(b[0], m);
    FlowCat([b[1]], [b[2]] + ([b[3]] + [b[4]]), m1);
    var m2 := Effect(b[1], m1);
    FlowOne(b[2], m2);
    FlowCat([b[2]], [b[3]] + [b[4]], m2);
    var m3 := Effect(b[2], m2);
    FlowOne(b[3], m3);
    FlowCat([b[3]], [b[4]], m3);
    FlowOne(b[4], Effect(b[3], m3));
  }

  lemma FlowOne(i: Asm, m: M)
    ensures Flow([i], m) == Effect(i, m)
  {
    assert [i][1..] == [];
  }

  lemma StraightCat(a: seq<Asm>, b: seq<Asm>)
    requires AllStraight(a) && AllStraight(b)
    ensures AllStraight(a + b)
  {
  }

  // ---------------------------------------------------------------- operands

  /** The same but for the scratch registers, the operand area and the pc. */
  predicate Scratched(m: M, t: M) {
    && m.Go? && t.Go? && t.regs.pool == m.regs.pool && t.slots == m.slots && t.sp == m.sp && t.polls == m.polls
    && |t.area| == |m.area|
  }

  lemma FlowNone(m: M)
    ensures Flow([], m) == m
  {
  }

  lemma StoreSpEffect(k: nat, s: Reg, m: M)
    requires m.Go? && m.sp + k < |m.area|
    ensures Effect(StoreSp(k, s), m) == m.(pc := m.pc + 1, area := m.area[m.sp + k := m.regs.Get(s)])
  {
  }

  lemma {:induction false} PublishFlow(i: nat, d: nat, n: nat, m: M)
    requires m.Go? && m.sp == 0 && |m.area| == POOL_N == |m.regs.pool| && n + d <= POOL_N
    ensures var t := Flow(Publish(i, d, n), m);
      && AllStraight(Publish(i, d, n)) && Scratched(m, t)
      && (forall k | 0 <= k < i && k < POOL_N :: t.area[k] == m.area[k])
      && (forall k | i <= k < d :: t.area[k] == Boxed(m.regs.pool[n + k]))
    decreases if d > i then d - i else 0
  {
    hide Boxed, BoxTo, Flow, Effect;
    if i >= d {
      FlowNone(m);
    } else {
      var b, st, rest := BoxTo(RDX, Pool(n + i)), StoreSp(i, RDX), Publish(i + 1, d, n);
      BoxFlow(n + i, m);
      var m1 := Flow(b, m);
      var m2 := Effect(st, m1);
      FlowCat(b + [st], rest, m);
      FlowCat(b, [st], m);
      FlowOne(st, m1);
      StoreSpEffect(i, RDX, m1);
      PublishFlow(i + 1, d, n, m2);
      StraightCat(b, [st]);
      StraightCat(b + [st], rest);
    }
  }

  // ---------------------------------------------------------------- locals

  lemma IndexOfDistinct(L: seq<nat>, k: nat)
    requires Distinct(L) && k < |L|
    ensures IndexOf(L, L[k]) == k
  {
    var i := IndexOf(L, L[k]);
    assert L[k] in L;
  }

  lemma {:induction false} StoreFlow(L: seq<nat>, i: nat, m: M)
    requires m.Go? && |m.regs.pool| == POOL_N >= |L| && Distinct(L) && forall k | 0 <= k < |L| :: L[k] < |m.slots|
    ensures var t := Flow(StoreLocals(L, i), m);
      && AllStraight(StoreLocals(L, i))
      && t.Go? && t.regs.pool == m.regs.pool && t.regs.rax == m.regs.rax && t.area == m.area && t.sp == m.sp
      && |t.slots| == |m.slots|
      && forall x | 0 <= x < |m.slots| ::
           t.slots[x] == if x in L && IndexOf(L, x) >= i then Boxed(m.regs.pool[IndexOf(L, x)]) else m.slots[x]
    decreases |L| - i
  {
    hide Boxed, BoxTo;
    if i < |L| {
      var b, st, rest := BoxTo(RDX, Pool(i)), StoreSlot(L[i], RDX), StoreLocals(L, i + 1);
      BoxFlow(i, m);
      var m1 := Flow(b, m);
      var m2 := Effect(st, m1);
      FlowCat(b + [st], rest, m);
      FlowCat(b, [st], m);
      FlowOne(st, m1);
      StoreFlow(L, i + 1, m2);
      StraightCat(b, [st]);
      StraightCat(b + [st], rest);
      IndexOfDistinct(L, i);
      forall x | 0 <= x < |m.slots| && x in L
        ensures IndexOf(L, x) == i <==> x == L[i]
      {
        if IndexOf(L, x) == i { assert L[IndexOf(L, x)] == x; }
      }
    }
  }

  // ---------------------------------------------------------------- leaving

  /** Where the shared tail stands. */
  predicate TailStands(j: Jit, L: seq<nat>) { StandsAt(j, j.tail, StoreLocals(L, 0) + [Leave]) }

  /** Registers and memory as compiled code has them at `d` operands. */
  predicate Roomy(L: seq<nat>, m: M, d: nat) {
    && m.Go? && m.sp == 0 && |m.area| == POOL_N == |m.regs.pool| && |L| + d <= POOL_N
    && Distinct(L) && forall k | 0 <= k < |L| :: L[k] < |m.slots|
  }

  /** Left for `off` with `d` operands: they and the locals are in memory, boxed. */
  predicate LeftAs(L: seq<nat>, m: M, t: M, off: int, d: nat)
    requires m.Go? && |L| + d <= |m.regs.pool|
  {
    && t.Left? && t.off == off && |t.stack| == d && |t.frame| == |m.slots|
    && (forall k | 0 <= k < d :: t.stack[k] == Boxed(m.regs.pool[|L| + k]))
    && (forall x | 0 <= x < |m.slots| ::
          t.frame[x] == if x in L then Boxed(m.regs.pool[IndexOf(L, x)]) else m.slots[x])
  }

  /** The tail, with the operands already in memory. */
  lemma TailLeaves(j: Jit, gc: nat -> bool, L: seq<nat>, m: M, d: nat)
    requires TailStands(j, L) && m.Go? && m.pc == j.tail && m.sp == d && Roomy(L, m.(sp := 0), d)
    requires forall k | 0 <= k < d :: m.area[k] == Boxed(m.regs.pool[|L| + k])
    ensures exists t :: Gets(j, gc, m, t, 1) && LeftAs(L, m, t, m.regs.rax, d)
  {
    hide Boxed, Effect;
    var st := StoreLocals(L, 0);
    StandsCat(j, m.pc, st, [Leave]);
    StoreFlow(L, 0, m);
    FlowRuns(j, gc, m, st);
    FlowKeeps(st, m);
    var u := Flow(st, m);
    OneAsm(j, gc, u, Leave);
    var t := JStep(j, gc, u);
    GetsOn(j, gc, m, u, t, |st|, 1);
    assert LeftAs(L, m, t, m.regs.rax, d);
  }

  /** The straight part of a bail. */
  function Leaving(off: nat, d: nat, n: nat): seq<Asm> {
    Publish(0, d, n) + (if d > 0 then [AddSp(d)] else []) + [MovAbs(RAX, off)]
  }

  lemma AddSpEffect(d: nat, m: M)
    requires m.Go? && m.sp + d <= |m.area|
    ensures Effect(AddSp(d), m) == m.(pc := m.pc + 1, sp := m.sp + d)
  {
  }

  lemma MovAbsEffect(d: Reg, v: int, m: M)
    requires m.Go?
    ensures Effect(MovAbs(d, v), m) == m.(pc := m.pc + 1, regs := m.regs.Put(d, v))
  {
  }

  lemma LeavingFlow(off: nat, d: nat, n: nat, m: M)
    requires m.Go? && m.sp == 0 && |m.area| == POOL_N == |m.regs.pool| && n + d <= POOL_N
    ensures BailTo(off, d, n) == Leaving(off, d, n) + [Jmp(Tail)] && AllStraight(Leaving(off, d, n))
    ensures var t := Flow(Leaving(off, d, n), m);
      && t.Go? && Scratched(m, t.(sp := 0)) && t.sp == d && t.regs.rax == off && t.pc == m.pc + |Leaving(off, d, n)|
      && (forall k | 0 <= k < d :: t.area[k] == Boxed(m.regs.pool[n + k]))
  {
    hide Boxed, Publish, Effect;
    var p, add, mov := Publish(0, d, n), if d > 0 then [AddSp(d)] else [], [MovAbs(RAX, off)];
    PublishFlow(0, d, n, m);
    StraightCat(p, add);
    StraightCat(p + add, mov);
    var m1 := Flow(p, m);
    FlowCat(p, add, m);
    if d > 0 {
      FlowOne(AddSp(d), m1);
      AddSpEffect(d, m1);
    }
    FlowCat(p + add, mov, m);
    FlowOne(MovAbs(RAX, off), Flow(p + add, m));
    MovAbsEffect(RAX, off, Flow(p + add, m));
    FlowKeeps(Leaving(off, d, n), m);
  }

  /** A bail: operands, then locals, then out. */
  lemma BailLeaves(j: Jit, gc: nat -> bool, L: seq<nat>, m: M, d: nat, off: nat)
    requires Roomy(L, m, d) && TailStands(j, L) && StandsAt(j, m.pc, BailTo(off, d, |L|))
    ensures exists t :: Gets(j, gc, m, t, 1) && LeftAs(L, m, t, off, d)
  {
    hide Boxed, Flow, Leaving, BailTo, TailStands, Gets;
    var b := Leaving(off, d, |L|);
    LeavingFlow(off, d, |L|, m);
    StandsCat(j, m.pc, b, [Jmp(Tail)]);
    FlowRuns(j, gc, m, b);
    var m3 := Flow(b, m);
    OneAsm(j, gc, m3, Jmp(Tail));
    var m4 := m3.(pc := j.tail);
    GetsOn(j, gc, m, m3, m4, |b|, 1);
    TailLeaves(j, gc, L, m4, d);
    var t :| Gets(j, gc, m4, t, 1) && LeftAs(L, m4, t, off, d);
    GetsOn(j, gc, m, m4, t, 1, 1);
    assert LeftAs(L, m, t, off, d);
  }

  /** What has been left in memory is what the interpreter has. */
  lemma LeftExits(L: seq<nat>, heap: int -> Value, e: Env, m: M, s: VM, t: M, d: nat, off: nat)
    requires Same(L, heap, e, m, s, d) && LeftAs(L, m, t, off, d)
    ensures Exits(heap, e, t, s.(pc := off))
  {
    hide Boxed;
    forall k: nat | k < d ensures StackValue(e, s, k) == ValueOf(heap, t.stack[k]) {
      assert OperandIs(L, e, m, s, k);
      BoxUnbox(m.regs.pool[|L| + k]);
    }
    forall i | 0 <= i < |s.locals| ensures s.locals[i] == ValueOf(heap, t.frame[i]) {
      assert s.locals[i] == SlotValue(L, heap, m, i);
      if i in L { BoxUnbox(m.regs.pool[IndexOf(L, i)]); }
    }
  }

  /** A bail next to the interpreter, which goes on at `off`. */
  lemma BailRuns(j: Jit, gc: nat -> bool, L: seq<nat>, heap: int -> Value, e: Env, m: M, s: VM, d: nat, off: nat)
    requires Same(L, heap, e, m, s, d) && TailStands(j, L) && StandsAt(j, m.pc, BailTo(off, d, |L|))
    ensures exists t :: Gets(j, gc, m, t, 1) && Exits(heap, e, t, s.(pc := off))
  {
    hide LeftAs, BailTo, Exits, TailStands, Gets;
    BailLeaves(j, gc, L, m, d, off);
    var t :| Gets(j, gc, m, t, 1) && LeftAs(L, m, t, off, d);
    LeftExits(L, heap, e, m, s, t, d, off);
  }

  /** Scratch registers and addresses do not matter. */
  lemma SameElsewhere(L: seq<nat>, heap: int -> Value, e: Env, m: M, t: M, s: VM, d: nat, off: nat)
    requires Same(L, heap, e, m, s, d) && Scratched(m, t)
    ensures Same(L, heap, e, t, s.(pc := off), d)
  {
    forall k: nat | k < d ensures OperandIs(L, e, t, s.(pc := off), k) { assert OperandIs(L, e, m, s, k); }
    forall i | 0 <= i < |s.locals| ensures s.locals[i] == SlotValue(L, heap, t, i) {
      assert SlotValue(L, heap, m, i) == SlotValue(L, heap, t, i);
    }
  }
}
