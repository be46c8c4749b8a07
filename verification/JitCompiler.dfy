/** The region compiler as it runs: two passes over the bytecode, the second appending to the code. */
module JitCompiler {
  import opened Bytecode
  import opened JitWords
  import opened JitMachine
  import opened JitRegion
  import opened Options

  lemma {:induction false} LabelsFrom(r: Region, L: seq<nat>, at: nat, d: nat, p: nat)
    ensures forall x :: x in Labels(r, L, at, d, p) ==> x >= at
    decreases r.end - at
  {
    hide EmitOne;
    if at < r.end && Fetch(r.ch.code, at).Fetched? {
      var f := Fetch(r.ch.code, at);
      LabelsFrom(r, L, f.next, After(d, f.i), p + |EmitOne(r, L, f.i, at, f.next, d)|);
    }
  }

  lemma IndexOfLast(L: seq<nat>, slot: nat)
    ensures forall x :: x in L ==> IndexOf(L + [slot], x) == IndexOf(L, x)
    ensures slot !in L ==> IndexOf(L + [slot], slot) == |L|
  {
    if L != [] {
      IndexOfLast(L[1..], slot);
      assert (L + [slot])[1..] == L[1..] + [slot];
    }
  }

  class RegionCompiler {
    const region: Region
    var asm: seq<Asm>
    var labels: map<nat, nat>
    var localSlots: seq<nat>
    var slotToPool: map<nat, nat>
    var numLocals: nat
    var maxDepth: nat
    var tail: nat
    var prologueBail: nat

    constructor (r: Region)
      ensures region == r && asm == [] && labels == map[] && localSlots == [] && slotToPool == map[] && maxDepth == 0
    {
      region := r;
      asm, labels, localSlots, slotToPool, numLocals, maxDepth := [], map[], [], map[], 0, 0;
      tail, prologueBail := 0, 0;
    }

    ghost predicate SlotsKnown()
      reads this`localSlots, this`slotToPool
    {
      forall x :: (x in slotToPool <==> x in localSlots)
        && (x in slotToPool ==> slotToPool[x] == IndexOf(localSlots, x))
    }

    // -------------------------------------------------------------- emitting

    method Emit(i: Asm)
      modifies this`asm
      ensures asm == old(asm) + [i]
    {
      asm := asm + [i];
    }

    /** A jump forward to a label that is bound later. */
    method JumpAhead(c: Cond) returns (at: nat)
      modifies this`asm
      ensures asm == old(asm) + [Jcc(c, Over(0))] && at == |old(asm)|
    {
      at := |asm|;
      asm := asm + [Jcc(c, Over(0))];
    }

    /** Binds the label of the jump at `at` here. */
    method Bind(at: nat)
      requires at < |asm| && asm[at].Jcc?
      modifies this`asm
      ensures asm == old(asm)[at := Jcc(old(asm)[at].c, Over(|old(asm)| - at - 1))]
    {
      asm := asm[at := Jcc(asm[at].c, Over(|asm| - at - 1))];
    }

    method EmitBox(d: Reg, s: Reg)
      modifies this`asm
      ensures asm == old(asm) + BoxTo(d, s)
    {
      Emit(MovRR(d, s));
      Emit(MovAbs(RCX, PAYLOAD));
      Emit(Calc(AndRR, d, RCX));
      Emit(MovAbs(RCX, Wrap(TAG_INT)));
      Emit(Calc(OrRR, d, RCX));
    }

    /** Leaves the code at this point, the operands in memory. */
    method EmitBail(off: nat, depth: nat)
      modifies this`asm
      ensures asm == old(asm) + BailTo(off, depth, numLocals)
    {
      hide BoxTo;
      var i := 0;
      while i < depth
        invariant i <= depth && old(asm) + Publish(0, depth, numLocals) == asm + Publish(i, depth, numLocals)
      {
        EmitBox(RDX, Pool(numLocals + i));
        Emit(StoreSp(i, RDX));
        i := i + 1;
      }
      assert asm == old(asm) + Publish(0, depth, numLocals);
      if depth > 0 { Emit(AddSp(depth)); }
      Emit(MovAbs(RAX, off));
      Emit(Jmp(Tail));
    }

    method EmitRangeCheck(off: nat, depth: nat)
      modifies this`asm
      ensures asm == old(asm) + RangeCheck(off, depth, numLocals)
    {
      hide BailTo;
      Emit(MovRR(RCX, RAX));
      Emit(ShlRI(RCX, 17));
      Emit(SarRI(RCX, 17));
      Emit(CmpRR(RCX, RAX));
      var ok := JumpAhead(E);
      EmitBail(off, depth);
      Bind(ok);
    }

    method EmitBranch(target: nat, depth: nat)
      modifies this`asm
      ensures asm == old(asm) + BranchTo(region, target, depth, numLocals)
    {
      if region.start <= target < region.end { Emit(Jmp(At(target))); } else { EmitBail(target, depth); }
    }

    method EmitArith(f: Arith, off: nat, depth: nat)
      modifies this`asm
      ensures asm == old(asm) + EmitBinary(f, off, depth, numLocals)
    {
      hide RangeCheck;
      var lhs, rhs := PoolAt(numLocals, depth, 2), PoolAt(numLocals, depth, 1);
      Emit(MovRR(RAX, lhs));
      Emit(Calc(f, RAX, rhs));
      EmitRangeCheck(off, depth);
      Emit(MovRR(lhs, RAX));
    }

    method EmitArithImmediate(f: Arith, k: int, off: nat, depth: nat)
      modifies this`asm
      ensures asm == old(asm) + EmitImmediate(f, k, off, depth, numLocals)
    {
      hide RangeCheck;
      var top := PoolAt(numLocals, depth, 1);
      Emit(MovRR(RAX, top));
      Emit(MovAbs(RDX, k));
      Emit(Calc(f, RAX, RDX));
      EmitRangeCheck(off, depth);
      Emit(MovRR(top, RAX));
    }

    /** The floored remainder, from the division's truncated one. */
    method EmitRemainder(k: int, depth: nat)
      modifies this`asm
      ensures asm == old(asm) + EmitMod(k, depth, numLocals)
    {
      var top := PoolAt(numLocals, depth, 1);
      EmitDivision(top, k);
      EmitCorrection();
      Emit(MovRR(top, RAX));
    }

    method EmitDivision(top: Reg, k: int)
      modifies this`asm
      ensures asm == old(asm) + [MovRR(RAX, top), MovAbs(RCX, k), Cqo, Idiv(RCX), MovRR(RAX, RDX), CmpRI(RAX, 0)]
    {
      Emit(MovRR(RAX, top));
      Emit(MovAbs(RCX, k));
      Emit(Cqo);
      Emit(Idiv(RCX));
      Emit(MovRR(RAX, RDX));
      Emit(CmpRI(RAX, 0));
    }

    /** Adds the divisor when the remainder is not zero and of the other sign. */
    method EmitCorrection()
      modifies this`asm
      ensures asm == old(asm) + [Jcc(E, Over(5)), MovRR(RDX, RAX), Calc(XorRR, RDX, RCX), CmpRI(RDX, 0),
          Jcc(GE, Over(1)), Calc(AddRR, RAX, RCX)]
    {
      var zero := JumpAhead(E);
      Emit(MovRR(RDX, RAX));
      Emit(Calc(XorRR, RDX, RCX));
      Emit(CmpRI(RDX, 0));
      var same := JumpAhead(GE);
      Emit(Calc(AddRR, RAX, RCX));
      Bind(zero);
      Bind(same);
    }

    method EmitComparison(op: BinOp, target: nat, depth: nat)
      modifies this`asm
      ensures asm == old(asm) + EmitCompare(region, op, target, depth, numLocals)
    {
      hide BranchTo;
      Emit(CmpRR(PoolAt(numLocals, depth, 2), PoolAt(numLocals, depth, 1)));
      var fall := JumpAhead(CondOf(op));
      EmitBranch(target, Gap(depth, 2));
      Bind(fall);
    }

    method EmitBackEdge(target: nat, depth: nat)
      modifies this`asm
      ensures asm == old(asm) + EmitLoop(region, target, depth, numLocals)
    {
      hide BranchTo, BailTo;
      Emit(ReadFlag);
      Emit(CmpRI(RAX, 0));
      var noGc := JumpAhead(E);
      EmitBail(target, depth);
      Bind(noGc);
      EmitBranch(target, depth);
    }

    // -------------------------------------------------------------- the passes

    /** The first pass: is everything supported, which slots are used, how deep does the stack get. */
    method Classify() returns (ok: bool)
      requires localSlots == [] && slotToPool == map[] && maxDepth == 0
      modifies this`localSlots, this`slotToPool, this`maxDepth
      ensures ok <==> UsesOf(region).Some?
      ensures ok ==> Uses(localSlots, maxDepth) == UsesOf(region).value && SlotsKnown()
    {
      hide Prepass, Fetch, SlotsKnown, Supported;
      NoneKnown();
      var off := region.start;
      var depth: nat := 0;
      while off < region.end
        invariant UsesOf(region) == Prepass(region, off, depth, Uses(localSlots, maxDepth)) && SlotsKnown()
        decreases region.end - off
      {
        var f := Fetch(region.ch.code, off);
        PrepassIs(region, off, depth, Uses(localSlots, maxDepth));
        if f.NoInstr? || !Supported(f.i) || f.next > region.end || !GoodConst(region.ch, f.i) { return false; }
        if f.i.GET_LOCAL? || f.i.SET_LOCAL? { NoteLocal(f.i.slot); }
        if depth + Delta(f.i) < 0 { return false; }
        depth := depth + Delta(f.i);
        if depth > maxDepth { maxDepth := depth; }
        off := f.next;
      }
      PrepassEnd(region, off, depth, Uses(localSlots, maxDepth));
      ok := true;
    }

    lemma NoneKnown()
      ensures localSlots == [] && slotToPool == map[] ==> SlotsKnown()
    {
    }

    /** A slot gets the next register when it is first seen. */
    method NoteLocal(slot: nat)
      requires SlotsKnown()
      modifies this`localSlots, this`slotToPool
      ensures SlotsKnown()
      ensures localSlots == if slot in old(localSlots) then old(localSlots) else old(localSlots) + [slot]
    {
      if slot !in slotToPool {
        IndexOfLast(localSlots, slot);
        slotToPool := slotToPool[slot := |localSlots|];
        localSlots := localSlots + [slot];
      }
    }

    /** The code of one instruction. */
    method EmitInstr(i: Instr, off: nat, next: nat, depth: nat)
      requires SlotsKnown() && numLocals == |localSlots| && Supported(i) && GoodConst(region.ch, i)
      requires i.GET_LOCAL? || i.SET_LOCAL? ==> i.slot in localSlots
      modifies this`asm
      ensures asm == old(asm) + EmitOne(region, localSlots, i, off, next, depth)
    {
      hide EmitBinary, EmitImmediate, EmitMod, EmitCompare, EmitLoop, BranchTo;
      match i {
        case GET_LOCAL(s) => Emit(MovRR(Pool(numLocals + depth), Pool(slotToPool[s])));
        case SET_LOCAL(s) => Emit(MovRR(Pool(slotToPool[s]), PoolAt(numLocals, depth, 1)));
        case CONST(k) => Emit(MovAbs(Pool(numLocals + depth), region.ch.consts[k].n));
        case POP => assert asm + [] == asm;
        case DUP => Emit(MovRR(Pool(numLocals + depth), PoolAt(numLocals, depth, 1)));
        case BINARY(op) => EmitArith(ArithOf(op), off, depth);
        case ADD_INPLACE => EmitArith(AddRR, off, depth);
        case BINARY_I(op, k) =>
          if op == Mod { EmitRemainder(k, depth); } else { EmitArithImmediate(ArithOf(op), k, off, depth); }
        case COMPARE_JF(op, d) => EmitComparison(op, next + d, depth);
        case JUMP(d) => EmitBranch(next + d, depth);
        case LOOP(d) => EmitBackEdge(Gap(next, d), depth);
      }
    }

    method EmitPrologue()
      requires numLocals == |localSlots|
      modifies this`asm
      ensures asm == old(asm) + Prologue(localSlots, 0)
    {
      hide LoadLocal;
      var i := 0;
      while i < numLocals
        invariant i <= numLocals && old(asm) + Prologue(localSlots, 0) == asm + Prologue(localSlots, i)
      {
        EmitLoad(i, localSlots[i]);
        i := i + 1;
      }
    }

    /** Loads a local, unless it is not a small integer. */
    method EmitLoad(i: nat, slot: nat)
      modifies this`asm
      ensures asm == old(asm) + LoadLocal(i, slot)
    {
      var r := Pool(i);
      Emit(LoadSlot(r, slot));
      Emit(MovRR(RCX, r));
      Emit(ShrRI(RCX, 47));
      Emit(CmpRI(RCX, TOP17_INT));
      var ok := JumpAhead(E);
      Emit(Jmp(PrologueBail));
      Bind(ok);
      Emit(ShlRI(r, 17));
      Emit(SarRI(r, 17));
    }

    method EmitTail()
      requires numLocals == |localSlots|
      modifies this`asm
      ensures asm == old(asm) + StoreLocals(localSlots, 0) + [Leave]
    {
      hide BoxTo;
      var i := 0;
      while i < numLocals
        invariant i <= numLocals && old(asm) + StoreLocals(localSlots, 0) == asm + StoreLocals(localSlots, i)
      {
        EmitBox(RDX, Pool(i));
        Emit(StoreSlot(localSlots[i], RDX));
        i := i + 1;
      }
      Emit(Leave);
    }

    /** The second pass. */
    method EmitBody() returns (ok: bool)
      requires UsesOf(region).Some? && Uses(localSlots, maxDepth) == UsesOf(region).value && SlotsKnown()
      requires numLocals == |localSlots| && labels == map[]
      modifies this`asm, this`labels
      ensures ok <==> NoZeroMod(region, region.start)
      ensures ok ==> asm == old(asm) + Body(region, localSlots, region.start, 0)
      ensures ok ==> labels == Labels(region, localSlots, region.start, 0, |old(asm)|)
    {
      hide EmitOne, Body, Labels, NoZeroMod, Prepass, AddSlot;
      ghost var r, L, p := region, localSlots, |asm|;
      ghost var u := Uses([], 0);
      var off := region.start;
      var depth: nat := 0;
      while off < region.end
        invariant NoZeroMod(r, r.start) <==> NoZeroMod(r, off)
        invariant UsesOf(r) == Prepass(r, off, depth, u)
        invariant old(asm) + Body(r, L, r.start, 0) == asm + Body(r, L, off, depth)
        invariant Labels(r, L, r.start, 0, p) == labels + Labels(r, L, off, depth, |asm|)
        decreases region.end - off
      {
        var f := Fetch(region.ch.code, off);
        PrepassKeeps(r, off, depth, u);
        BodyStep(r, L, off, depth, |asm|);
        if f.i == BINARY_I(Mod, 0) { return false; }
        labels := labels[off := |asm|];
        EmitInstr(f.i, off, f.next, depth);
        u := Uses(AddSlot(u.slots, f.i), if After(depth, f.i) > u.depth then After(depth, f.i) else u.depth);
        depth := depth + Delta(f.i);
        off := f.next;
      }
      BodyEnd(r, L, off, depth, |asm|);
      ok := true;
    }

    /** What compiling a region gives. */
    function Code(): Jit
      reads this
    {
      Jit(asm, labels, tail, prologueBail)
    }

    method Compile() returns (ok: bool)
      requires asm == [] && labels == map[] && localSlots == [] && slotToPool == map[] && maxDepth == 0
      modifies this
      ensures ok <==> Accepted(region)
      ensures ok ==> Code() == Compiled(region, UsesOf(region).value.slots)
    {
      hide Body, Labels, Prologue, StoreLocals, NoZeroMod, Prepass, SlotsKnown, JitRegion.Compiled;
      CompiledIs(region, UsesOf(region));
      ok := Classify();
      if !ok { return; }
      numLocals := |localSlots|;
      if numLocals + maxDepth > POOL_N { return false; }
      EmitPrologue();
      ok := EmitBody();
      if !ok { return; }
      Emit(MovAbs(RAX, region.end));
      Emit(Jmp(Tail));
      tail := |asm|;
      EmitTail();
      prologueBail := |asm|;
      Emit(MovAbs(RAX, region.start));
      Emit(Leave);
    }
  }

  lemma CompiledIs(r: Region, u: Option<Uses>)
    ensures u.Some? ==>
      var L := u.value.slots;
      var pro, body := Prologue(L, 0), Body(r, L, r.start, 0);
      var n := |pro| + |body| + 2;
      var tail := StoreLocals(L, 0) + [Leave];
      JitRegion.Compiled(r, L) ==
        Jit(pro + body + [MovAbs(RAX, r.end)] + [Jmp(Tail)] + tail + [MovAbs(RAX, r.start)] + [Leave],
            Labels(r, L, r.start, 0, |pro|), n, n + |tail|)
  {
    hide Body, Labels, Prologue, StoreLocals;
  }

  /** The first instruction's code and label, and those of the rest. */
  lemma BodyStep(r: Region, L: seq<nat>, at: nat, d: nat, p: nat)
    requires at < r.end && Fetch(r.ch.code, at).Fetched?
    ensures var f := Fetch(r.ch.code, at);
      var one := EmitOne(r, L, f.i, at, f.next, d);
      var rest := Labels(r, L, f.next, After(d, f.i), p + |one|);
      && Body(r, L, at, d) == one + Body(r, L, f.next, After(d, f.i))
      && Labels(r, L, at, d, p) == rest[at := p] && at !in rest
      && (NoZeroMod(r, at) <==> f.i != BINARY_I(Mod, 0) && NoZeroMod(r, f.next))
  {
    hide EmitOne;
    var f := Fetch(r.ch.code, at);
    LabelsFrom(r, L, f.next, After(d, f.i), p + |EmitOne(r, L, f.i, at, f.next, d)|);
  }

  lemma BodyEnd(r: Region, L: seq<nat>, at: nat, d: nat, p: nat)
    requires at >= r.end
    ensures Body(r, L, at, d) == [] && Labels(r, L, at, d, p) == map[] && NoZeroMod(r, at)
  {
  }

  lemma PrepassIs(r: Region, at: nat, d: nat, u: Uses)
    requires at < r.end
    ensures var f := Fetch(r.ch.code, at);
      Prepass(r, at, d, u) ==
        if f.NoInstr? || !Supported(f.i) || f.next > r.end || !GoodConst(r.ch, f.i) || d + Delta(f.i) < 0 then None
        else Prepass(r, f.next, After(d, f.i),
                     Uses(AddSlot(u.slots, f.i), if After(d, f.i) > u.depth then After(d, f.i) else u.depth))
    ensures Fetch(r.ch.code, at).Fetched? ==> Fetch(r.ch.code, at).next > at
  {
  }

  lemma PrepassEnd(r: Region, at: nat, d: nat, u: Uses)
    requires at >= r.end
    ensures Prepass(r, at, d, u) == Some(u)
  {
  }

  /** What the first pass has checked of its next instruction. */
  lemma PrepassKeeps(r: Region, at: nat, d: nat, u: Uses)
    requires Prepass(r, at, d, u).Some? && at < r.end
    ensures var f := Fetch(r.ch.code, at);
      && f.Fetched? && Supported(f.i) && f.next <= r.end && GoodConst(r.ch, f.i) && d + Delta(f.i) >= 0
      && (f.i.GET_LOCAL? || f.i.SET_LOCAL? ==> f.i.slot in Prepass(r, at, d, u).value.slots)
      && Prepass(r, at, d, u) == Prepass(r, f.next, After(d, f.i),
           Uses(AddSlot(u.slots, f.i), if After(d, f.i) > u.depth then After(d, f.i) else u.depth))
  {
    var f := Fetch(r.ch.code, at);
    SlotsStay(r, f.next, After(d, f.i),
        Uses(AddSlot(u.slots, f.i), if After(d, f.i) > u.depth then After(d, f.i) else u.depth));
  }

  lemma {:induction false} SlotsStay(r: Region, at: nat, d: nat, u: Uses)
    requires Prepass(r, at, d, u).Some?
    ensures forall x :: x in u.slots ==> x in Prepass(r, at, d, u).value.slots
    decreases r.end - at
  {
    if at < r.end {
      var f := Fetch(r.ch.code, at);
      SlotsStay(r, f.next, After(d, f.i),
          Uses(AddSlot(u.slots, f.i), if After(d, f.i) > u.depth then After(d, f.i) else u.depth));
    }
  }
}
