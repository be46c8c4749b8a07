/** The code of an expression leaves the expression's value on the stack. */
module CodegenExprs {
  import opened Bytecode
  import opened Tree
  import opened Codegen
  import opened CodegenLayout

  /** State `s` after code of `size` bytes that pushed `v`. */
  function Pushed(s: VM, size: nat, v: Value): VM
    requires s.Running?
  {
    s.(pc := s.pc + size, stack := s.stack + [v])
  }

  /** What code of `size` bytes that computes `r` does from `s`. */
  ghost predicate Computes(ch: Chunk, s: VM, size: nat, r: EvalResult)
    requires s.Running?
  {
    match r
    case Val(v) => Goes(ch, s, Pushed(s, size, v), 1)
    case Raise => Goes(ch, s, Fail(s, ErrorText), 1)
    case Outside => true
  }

  lemma PushedAbove(s: VM, size: nat, v: Value)
    requires HandlersFit(s)
    ensures Above(Pushed(s, size, v), s) && HandlersFit(Pushed(s, size, v))
    ensures Fail(Pushed(s, size, v), ErrorText) == Fail(s, ErrorText)
  {
    FailAbove(Pushed(s, size, v), s, ErrorText);
  }

  /** An instruction that pushes, or applies an operator on what is above `s`. */
  lemma PushStep(x: Site, s: VM, t: VM, i: Instr, k: nat, r: EvalResult, size: nat)
    requires HandlersFit(s) && t.Running? && Goes(x.ch, s, t, 0) && Legal(i) && Stands(x, t.pc, One(i), k)
    requires size == t.pc + Size(i) - s.pc && t.locals == s.locals && t.handlers == s.handlers && t.out == s.out
    requires Perform(x.ch, t, i, t.pc + Size(i)) == Push(t, t.pc + Size(i), s.stack, r)
    ensures Computes(x.ch, s, size, r)
  {
    hide Stands, Goes, Perform, Legal;
    OneStep(x, t, i, k);
    Trans(x.ch, s, t, Perform(x.ch, t, i, t.pc + Size(i)), 0, 1);
  }

  /** An operator on the topmost value. */
  lemma UnaryStep(x: Site, s: VM, t: VM, i: Instr, v: Value, k: nat, r: EvalResult, size: nat)
    requires Legal(i)
    requires (i.PREFIX? && r == ApplyPrefix(i.pop, v)) || (i.BINARY_I? && r == Apply(i.op, v, Int(i.imm)))
    requires HandlersFit(s) && Topped(t, s, v) && Goes(x.ch, s, t, 0)
    requires Stands(x, t.pc, One(i), k) && size == t.pc + Size(i) - s.pc
    ensures Computes(x.ch, s, size, r)
  {
    hide Stands, Goes, Encode, Bytecode.Apply, ApplyPrefix;
    assert t.stack[..|s.stack|] == s.stack;
    PushStep(x, s, t, i, k, r, size);
  }

  /** An operator on the two topmost values. */
  lemma BinaryStep(x: Site, s: VM, t: VM, i: Instr, op: BinOp, a: Value, b: Value, k: nat, size: nat)
    requires i == BINARY(op) || (op == Add && i == ADD_INPLACE)
    requires HandlersFit(s) && t.Running? && t == s.(pc := t.pc, stack := s.stack + [a] + [b]) && Goes(x.ch, s, t, 0)
    requires Stands(x, t.pc, One(i), k) && size == t.pc + 1 - s.pc
    ensures Computes(x.ch, s, size, Apply(op, a, b))
  {
    hide Stands, Goes, Encode, Bytecode.Apply;
    OpSize(i);
    assert t.stack[..|s.stack|] == s.stack;
    PushStep(x, s, t, i, k, Apply(op, a, b), size);
  }

  /** An expression's code, run to its end: what it computes is what the expression means. */
  lemma ExprRuns(x: Site, s: VM, e: Expr, k: nat)
    requires HandlersFit(s) && SlotsIn(e, |s.locals|) && Stands(x, s.pc, GenExpr(e, k), k)
    ensures Computes(x.ch, s, Len(GenExpr(e, k).code), Eval(e, s.locals))
    decreases WE(e), 5
  {
    match e
    case Prefix(_, _) => PrefixRuns(x, s, e, k);
    case Infix(_, _, _) => InfixRuns(x, s, e, k);
    case AndE(_, _) => ShortRuns(x, s, e, k);
    case OrE(_, _) => ShortRuns(x, s, e, k);
    case CoalesceE(_, _) => ShortRuns(x, s, e, k);
    case Conditional(_, _, _) => ConditionalRuns(x, s, e, k);
    case _ => LeafRuns(x, s, e, k);
  }

  predicate IsLeaf(e: Expr) { e.IntLit? || e.BoolLit? || e.NullLit? || e.Name? }

  lemma LeafRuns(x: Site, s: VM, e: Expr, k: nat)
    requires IsLeaf(e) && HandlersFit(s) && SlotsIn(e, |s.locals|) && Stands(x, s.pc, GenExpr(e, k), k)
    ensures Computes(x.ch, s, Len(GenExpr(e, k).code), Eval(e, s.locals))
  {
    hide Bytes, Resolve, At, Goes;
    var i := GenExpr(e, k).code[0];
    Stay(x.ch, s);
    BytesOne(i);
    assert Stands(x, s.pc, One(i), k);
    var v := if e.IntLit? then Int(e.n) else if e.BoolLit? then Bool(e.b) else if e.NullLit? then Null
             else s.locals[e.slot];
    if e.IntLit? { assert x.ch.consts[k..k + 1][0] == v; }
    assert Eval(e, s.locals) == Val(v);
    assert Perform(x.ch, s, i, s.pc + Size(i)) == Push(s, s.pc + Size(i), s.stack, Val(v));
    PushStep(x, s, s, i, k, Val(v), Size(i));
  }

  lemma PrefixRuns(x: Site, s: VM, e: Expr, k: nat)
    requires e.Prefix? && HandlersFit(s) && SlotsIn(e, |s.locals|) && Stands(x, s.pc, GenExpr(e, k), k)
    ensures Computes(x.ch, s, Len(GenExpr(e, k).code), Eval(e, s.locals))
    decreases WE(e), 4
  {
    hide Stands, Goes, Encode, Bytes, Perform, ApplyPrefix;
    var f := GenExpr(e.e, k);
    StandsAdd(x, s.pc, f, PREFIX(e.pop), k);
    ExprRuns(x, s, e.e, k);
    var r := Eval(e.e, s.locals);
    if r.Val? {
      PushedAbove(s, Len(f.code), r.value);
      var t := Pushed(s, Len(f.code), r.value);
      Trans(x.ch, s, t, t, 1, 0) by { Stay(x.ch, t); }
      UnaryStep(x, s, t, PREFIX(e.pop), r.value, f.Next(k), ApplyPrefix(e.pop, r.value), Len(GenExpr(e, k).code));
    }
  }

  /** Two expressions, one after the other. */
  lemma PairRuns(x: Site, s: VM, l: Expr, r: Expr, k: nat)
    requires HandlersFit(s) && SlotsIn(l, |s.locals|) && SlotsIn(r, |s.locals|)
    requires var f := GenExpr(l, k); Stands(x, s.pc, f.Then(GenExpr(r, f.Next(k))), k)
    ensures var f := GenExpr(l, k);
      var g := GenExpr(r, f.Next(k));
      var a, b := Eval(l, s.locals), Eval(r, s.locals);
      && Len(f.Then(g).code) == Len(f.code) + Len(g.code)
      && (a.Raise? ==> Goes(x.ch, s, Fail(s, ErrorText), 1))
      && (a.Val? && b.Raise? ==> Goes(x.ch, s, Fail(s, ErrorText), 1))
      && (a.Val? && b.Val? ==> Goes(x.ch, s, Pushed(Pushed(s, Len(f.code), a.value), Len(g.code), b.value), 1))
    decreases WE(l) + WE(r), 6
  {
    hide Stands, Goes, Encode, Bytes, GenExpr;
    var f := GenExpr(l, k);
    var g := GenExpr(r, f.Next(k));
    StandsThen(x, s.pc, f, g, k);
    ExprRuns(x, s, l, k);
    var a := Eval(l, s.locals);
    if a.Val? {
      PushedAbove(s, Len(f.code), a.value);
      var t := Pushed(s, Len(f.code), a.value);
      ExprRuns(x, t, r, f.Next(k));
      var b := Eval(r, s.locals);
      if b.Val? {
        Trans(x.ch, s, t, Pushed(t, Len(g.code), b.value), 1, 1);
      } else if b.Raise? {
        Trans(x.ch, s, t, Fail(t, ErrorText), 1, 1);
      }
    }
  }

  lemma InfixRuns(x: Site, s: VM, e: Expr, k: nat)
    requires e.Infix? && HandlersFit(s) && SlotsIn(e, |s.locals|) && Stands(x, s.pc, GenExpr(e, k), k)
    ensures Computes(x.ch, s, Len(GenExpr(e, k).code), Eval(e, s.locals))
    decreases WE(e), 4
  {
    if IsSmall(e.r) && HasImmediate(e.op) {
      ImmediateRuns(x, s, e, k);
    } else if e.l.Name? && e.r.Name? {
      NamesRun(x, s, e, k);
    } else {
      OperandsRun(x, s, e, k);
    }
  }

  lemma ImmediateRuns(x: Site, s: VM, e: Expr, k: nat)
    requires e.Infix? && HandlersFit(s) && SlotsIn(e, |s.locals|) && Stands(x, s.pc, GenExpr(e, k), k)
    requires IsSmall(e.r) && HasImmediate(e.op)
    ensures Computes(x.ch, s, Len(GenExpr(e, k).code), Eval(e, s.locals))
    decreases WE(e), 3
  {
    hide Stands, Goes, Encode, Bytes;
    if e.l.Name? && e.op in {Add, Sub} {
      var i := LGET_I(e.op, e.l.slot, e.r.n);
      Stay(x.ch, s);
      BytesOne(i);
      var r := Apply(e.op, s.locals[e.l.slot], Int(e.r.n));
      assert Eval(e.l, s.locals) == Val(s.locals[e.l.slot]) && Eval(e.r, s.locals) == Val(Int(e.r.n));
      PushStep(x, s, s, i, k, r, Size(i));
    } else {
      var f := GenExpr(e.l, k);
      var i := BINARY_I(e.op, e.r.n);
      StandsAdd(x, s.pc, f, i, k);
      ExprRuns(x, s, e.l, k);
      var r := Eval(e.l, s.locals);
      if r.Val? {
        PushedAbove(s, Len(f.code), r.value);
        var t := Pushed(s, Len(f.code), r.value);
        Trans(x.ch, s, t, t, 1, 0) by { Stay(x.ch, t); }
        UnaryStep(x, s, t, i, r.value, f.Next(k), Apply(e.op, r.value, Int(e.r.n)), Len(GenExpr(e, k).code));
      }
    }
  }

  lemma NamesRun(x: Site, s: VM, e: Expr, k: nat)
    requires e.Infix? && HandlersFit(s) && SlotsIn(e, |s.locals|) && Stands(x, s.pc, GenExpr(e, k), k)
    requires !(IsSmall(e.r) && HasImmediate(e.op)) && e.l.Name? && e.r.Name?
    ensures Computes(x.ch, s, Len(GenExpr(e, k).code), Eval(e, s.locals))
  {
    hide Stands, Goes, Encode, Bytes;
    var i := LGET2(e.l.slot, e.r.slot);
    var a, b := s.locals[e.l.slot], s.locals[e.r.slot];
    StandsAdd(x, s.pc, One(i), BINARY(e.op), k);
    OneStep(x, s, i, k);
    var t := Perform(x.ch, s, i, s.pc + Size(i));
    assert t.stack == s.stack + [a] + [b];
    OpSize(BINARY(e.op));
    BytesOne(i);
    BinaryStep(x, s, t, BINARY(e.op), e.op, a, b, One(i).Next(k), Len(GenExpr(e, k).code));
  }

  lemma OperandsRun(x: Site, s: VM, e: Expr, k: nat)
    requires e.Infix? && HandlersFit(s) && SlotsIn(e, |s.locals|) && Stands(x, s.pc, GenExpr(e, k), k)
    requires !(IsSmall(e.r) && HasImmediate(e.op)) && !(e.l.Name? && e.r.Name?)
    ensures Computes(x.ch, s, Len(GenExpr(e, k).code), Eval(e, s.locals))
    decreases WE(e), 3
  {
    hide Stands, Goes, Encode, Bytes;
    var f := GenExpr(e.l, k);
    var g := GenExpr(e.r, f.Next(k));
    StandsAdd(x, s.pc, f.Then(g), BINARY(e.op), k);
    PairRuns(x, s, e.l, e.r, k);
    var a, b := Eval(e.l, s.locals), Eval(e.r, s.locals);
    if a.Val? && b.Val? {
      var t := Pushed(Pushed(s, Len(f.code), a.value), Len(g.code), b.value);
      Trans(x.ch, s, t, t, 1, 0) by { Stay(x.ch, t); }
      OpSize(BINARY(e.op));
      BinaryStep(x, s, t, BINARY(e.op), e.op, a.value, b.value, f.Then(g).Next(k), Len(GenExpr(e, k).code));
    }
  }

  // ---------------------------------------------------------------- short circuits

  /** The jump of a short circuit. */
  function ShortJump(e: Expr, d: nat): Instr
    requires e.AndE? || e.OrE? || e.CoalesceE?
  {
    match e case AndE(_, _) => AND_KEEP(d) case OrE(_, _) => OR_KEEP(d) case CoalesceE(_, _) => COALESCE(d)
  }

  predicate Decides(e: Expr, v: Value)
    requires e.AndE? || e.OrE? || e.CoalesceE?
  {
    match e case AndE(_, _) => !Truthy(v) case OrE(_, _) => Truthy(v) case CoalesceE(_, _) => v != Null
  }

  lemma ShortStep(x: Site, s: VM, t: VM, e: Expr, v: Value, d: nat, k: nat)
    requires e.AndE? || e.OrE? || e.CoalesceE?
    requires s.Running? && Topped(t, s, v) && Stands(x, t.pc, One(ShortJump(e, d)), k)
    ensures Goes(x.ch, t, if Decides(e, v) then t.(pc := t.pc + 3 + d) else s.(pc := t.pc + 3), 1)
    ensures Size(ShortJump(e, d)) == 3
  {
    hide Stands, Goes;
    OneStep(x, t, ShortJump(e, d), k);
    assert t.stack[..|s.stack|] == s.stack;
  }

  /** `and`, `or` and `??` keep the left value if it decides, and else evaluate the right one. */
  lemma ShortRuns(x: Site, s: VM, e: Expr, k: nat)
    requires e.AndE? || e.OrE? || e.CoalesceE?
    requires HandlersFit(s) && SlotsIn(e, |s.locals|) && Stands(x, s.pc, GenExpr(e, k), k)
    ensures Computes(x.ch, s, Len(GenExpr(e, k).code), Eval(e, s.locals))
    decreases WE(e), 4
  {
    hide Stands, Goes, Encode, Bytes;
    var f := GenExpr(e.l, k);
    var g := GenExpr(e.r, f.Next(k));
    var i := ShortJump(e, Len(g.code));
    assert GenExpr(e, k) == f.Add(i).Then(g);
    StandsThen(x, s.pc, f.Add(i), g, k);
    StandsAdd(x, s.pc, f, i, k);
    ExprRuns(x, s, e.l, k);
    var a := Eval(e.l, s.locals);
    if a.Val? {
      PushedAbove(s, Len(f.code), a.value);
      var t := Pushed(s, Len(f.code), a.value);
      ShortStep(x, s, t, e, a.value, Len(g.code), f.Next(k));
      if Decides(e, a.value) {
        Trans(x.ch, s, t, t.(pc := t.pc + 3 + Len(g.code)), 1, 1);
      } else {
        var u := s.(pc := t.pc + 3);
        Trans(x.ch, s, t, u, 1, 1);
        RightRuns(x, s, u, e.r, f.Next(k), Len(GenExpr(e, k).code));
      }
    }
  }

  /** From a state that differs from `s` in its pc, an expression. */
  lemma RightRuns(x: Site, s: VM, u: VM, e: Expr, k: nat, size: nat)
    requires HandlersFit(s) && u.Running? && u == s.(pc := u.pc) && Goes(x.ch, s, u, 1)
    requires SlotsIn(e, |s.locals|) && Stands(x, u.pc, GenExpr(e, k), k)
    requires s.pc + size == u.pc + Len(GenExpr(e, k).code)
    ensures Computes(x.ch, s, size, Eval(e, s.locals))
    decreases WE(e), 6
  {
    hide Stands, Goes, Encode, Bytes, GenExpr;
    ExprRuns(x, u, e, k);
    var r := Eval(e, s.locals);
    if r.Val? {
      Trans(x.ch, s, u, Pushed(u, Len(GenExpr(e, k).code), r.value), 1, 1);
    } else if r.Raise? {
      Trans(x.ch, s, u, Fail(u, ErrorText), 1, 1);
    }
  }

  // ---------------------------------------------------------------- conditions

  /** What a condition of `size` bytes with a jump over `d` more does. */
  ghost predicate Branches(ch: Chunk, s: VM, size: nat, d: nat, r: EvalResult)
    requires s.Running?
  {
    match r
    case Val(v) => Goes(ch, s, s.(pc := s.pc + size + if Truthy(v) then 0 else d), 1)
    case Raise => Goes(ch, s, Fail(s, ErrorText), 1)
    case Outside => true
  }

  /** A comparing jump, its operands above `s`. */
  lemma DecideStep(x: Site, s: VM, t: VM, i: Instr, k: nat, r: EvalResult, size: nat, d: nat)
    requires HandlersFit(s) && t.Running? && Goes(x.ch, s, t, 0) && Legal(i) && Stands(x, t.pc, One(i), k)
    requires size == t.pc + Size(i) - s.pc && t.locals == s.locals && t.handlers == s.handlers && t.out == s.out
    requires Perform(x.ch, t, i, t.pc + Size(i)) == Decide(t, t.pc + Size(i), s.stack, r, d)
    ensures Branches(x.ch, s, size, d, r)
  {
    hide Stands, Goes, Perform, Legal;
    OneStep(x, t, i, k);
    Trans(x.ch, s, t, Perform(x.ch, t, i, t.pc + Size(i)), 0, 1);
  }

  lemma CompareStep(x: Site, s: VM, t: VM, op: BinOp, a: Value, b: Value, k: nat, size: nat, d: nat)
    requires IsCompare(op)
    requires HandlersFit(s) && t.Running? && t == s.(pc := t.pc, stack := s.stack + [a] + [b]) && Goes(x.ch, s, t, 0)
    requires Stands(x, t.pc, One(COMPARE_JF(op, d)), k) && size == t.pc + Size(COMPARE_JF(op, d)) - s.pc
    ensures Branches(x.ch, s, size, d, Apply(op, a, b))
  {
    hide Stands, Goes, Encode, Bytecode.Apply;
    assert t.stack[..|s.stack|] == s.stack;
    DecideStep(x, s, t, COMPARE_JF(op, d), k, Apply(op, a, b), size, d);
  }

  lemma CompareImmediateStep(x: Site, s: VM, t: VM, op: BinOp, a: Value, n: int, k: nat, size: nat, d: nat)
    requires IsCompare(op) && FitsImmediate(n)
    requires HandlersFit(s) && Topped(t, s, a) && Goes(x.ch, s, t, 0)
    requires Stands(x, t.pc, One(COMPARE_I_JF(op, n, d)), k) && size == t.pc + Size(COMPARE_I_JF(op, n, d)) - s.pc
    ensures Branches(x.ch, s, size, d, Apply(op, a, Int(n)))
  {
    hide Stands, Goes, Encode, Bytecode.Apply;
    assert t.stack[..|s.stack|] == s.stack;
    DecideStep(x, s, t, COMPARE_I_JF(op, n, d), k, Apply(op, a, Int(n)), size, d);
  }

  lemma CondRuns(x: Site, s: VM, c: Expr, invert: bool, k: nat, d: nat)
    requires HandlersFit(s) && SlotsIn(c, |s.locals|) && Stands(x, s.pc, GenCond(c, invert, k, d), k)
    ensures Branches(x.ch, s, Len(GenCond(c, invert, k, d).code), d, Test(c, invert, s.locals))
    decreases WE(c), 7
  {
    if c.Infix? && IsCompare(c.op) {
      CompareRuns(x, s, c, invert, k, d);
    } else {
      TruthRuns(x, s, c, invert, k, d);
    }
  }

  /** What a comparison tells its jump; inverted, by the inverse comparison. */
  function CompareOp(c: Expr, invert: bool): BinOp
    requires c.Infix?
  {
    if invert then Inverse(c.op) else c.op
  }

  /** Deciding by a comparison is testing it, also when inverted. */
  lemma CompareTests(x: Site, s: VM, c: Expr, invert: bool, a: Value, b: Value, size: nat, d: nat)
    requires c.Infix? && IsCompare(c.op) && s.Running? && SlotsIn(c, |s.locals|)
    requires Eval(c.l, s.locals) == Val(a) && Eval(c.r, s.locals) == Val(b)
    requires Branches(x.ch, s, size, d, Apply(CompareOp(c, invert), a, b))
    ensures Branches(x.ch, s, size, d, Test(c, invert, s.locals))
  {
    hide Goes, Bytecode.Apply, IsCompare;
    InverseNegates(c.op, a, b);
  }

  /** A comparison jumps by itself; inverted, by the inverse comparison. */
  lemma CompareRuns(x: Site, s: VM, c: Expr, invert: bool, k: nat, d: nat)
    requires HandlersFit(s) && SlotsIn(c, |s.locals|) && Stands(x, s.pc, GenCond(c, invert, k, d), k)
    requires c.Infix? && IsCompare(c.op)
    ensures Branches(x.ch, s, Len(GenCond(c, invert, k, d).code), d, Test(c, invert, s.locals))
    decreases WE(c), 6
  {
    if IsSmall(c.r) {
      CompareImmediateRuns(x, s, c, invert, k, d);
    } else {
      ComparePairRuns(x, s, c, invert, k, d);
    }
  }

  lemma CompareImmediateRuns(x: Site, s: VM, c: Expr, invert: bool, k: nat, d: nat)
    requires HandlersFit(s) && SlotsIn(c, |s.locals|) && Stands(x, s.pc, GenCond(c, invert, k, d), k)
    requires c.Infix? && IsCompare(c.op) && IsSmall(c.r)
    ensures Branches(x.ch, s, Len(GenCond(c, invert, k, d).code), d, Test(c, invert, s.locals))
    decreases WE(c), 5
  {
    hide Stands, Goes, Encode, Bytes, Bytecode.Apply, IsCompare, Perform;
    InverseCompares(c.op);
    var op := CompareOp(c, invert);
    var f := GenExpr(c.l, k);
    var a := Eval(c.l, s.locals);
    var size := Len(GenCond(c, invert, k, d).code);
    var i := COMPARE_I_JF(op, c.r.n, d);
    StandsAdd(x, s.pc, f, i, k);
    ExprRuns(x, s, c.l, k);
    if a.Val? {
      PushedAbove(s, Len(f.code), a.value);
      var t := Pushed(s, Len(f.code), a.value);
      Trans(x.ch, s, t, t, 1, 0) by { Stay(x.ch, t); }
      CompareImmediateStep(x, s, t, op, a.value, c.r.n, f.Next(k), size, d);
      CompareTests(x, s, c, invert, a.value, Int(c.r.n), size, d);
    }
  }

  lemma ComparePairRuns(x: Site, s: VM, c: Expr, invert: bool, k: nat, d: nat)
    requires HandlersFit(s) && SlotsIn(c, |s.locals|) && Stands(x, s.pc, GenCond(c, invert, k, d), k)
    requires c.Infix? && IsCompare(c.op) && !IsSmall(c.r)
    ensures Branches(x.ch, s, Len(GenCond(c, invert, k, d).code), d, Test(c, invert, s.locals))
    decreases WE(c), 5
  {
    hide Stands, Goes, Encode, Bytes, Bytecode.Apply, IsCompare, Perform;
    InverseCompares(c.op);
    var op := CompareOp(c, invert);
    var f := GenExpr(c.l, k);
    var a, b := Eval(c.l, s.locals), Eval(c.r, s.locals);
    var size := Len(GenCond(c, invert, k, d).code);
    var g := GenExpr(c.r, f.Next(k));
    var i := COMPARE_JF(op, d);
    StandsAdd(x, s.pc, f.Then(g), i, k);
    PairRuns(x, s, c.l, c.r, k);
    if a.Val? && b.Val? {
      var t := Pushed(Pushed(s, Len(f.code), a.value), Len(g.code), b.value);
      Trans(x.ch, s, t, t, 1, 0) by { Stay(x.ch, t); }
      CompareStep(x, s, t, op, a.value, b.value, f.Then(g).Next(k), size, d);
      CompareTests(x, s, c, invert, a.value, b.value, size, d);
    }
  }

  lemma InverseCompares(op: BinOp)
    requires IsCompare(op)
    ensures IsCompare(Inverse(op))
  {
  }

  lemma TruthRuns(x: Site, s: VM, c: Expr, invert: bool, k: nat, d: nat)
    requires HandlersFit(s) && SlotsIn(c, |s.locals|) && Stands(x, s.pc, GenCond(c, invert, k, d), k)
    requires !(c.Infix? && IsCompare(c.op))
    ensures Branches(x.ch, s, Len(GenCond(c, invert, k, d).code), d, Test(c, invert, s.locals))
    decreases WE(c), 6
  {
    hide Stands, Goes, Encode, Bytes, GenExpr;
    var f := GenExpr(c, k);
    var i := JUMP_IF_FALSE(d);
    var a := Eval(c, s.locals);
    JumpSize(i); OpSize(PREFIX(Not));
    if invert {
      StandsAdd(x, s.pc, f.Add(PREFIX(Not)), i, k);
      StandsAdd(x, s.pc, f, PREFIX(Not), k);
    } else {
      StandsAdd(x, s.pc, f, i, k);
    }
    ExprRuns(x, s, c, k);
    if a.Val? {
      var t := Pushed(s, Len(f.code), a.value);
      if invert {
        NotStep(x, s, t, a.value, f.Next(k));
        var u := Pushed(s, Len(f.code) + 1, Bool(!Truthy(a.value)));
        Trans(x.ch, s, t, u, 1, 1);
        JumpIfFalseStep(x, s, u, Bool(!Truthy(a.value)), d, f.Add(PREFIX(Not)).Next(k));
        Trans(x.ch, s, u, s.(pc := u.pc + 3 + if Truthy(a.value) then d else 0), 1, 1);
      } else {
        JumpIfFalseStep(x, s, t, a.value, d, f.Next(k));
        Trans(x.ch, s, t, s.(pc := t.pc + 3 + if Truthy(a.value) then 0 else d), 1, 1);
      }
    }
  }

  /** `c ? t : f`, by a condition, a jump over the second, and the second. */
  lemma ConditionalRuns(x: Site, s: VM, e: Expr, k: nat)
    requires e.Conditional? && HandlersFit(s) && SlotsIn(e, |s.locals|) && Stands(x, s.pc, GenExpr(e, k), k)
    ensures Computes(x.ch, s, Len(GenExpr(e, k).code), Eval(e, s.locals))
    decreases WE(e), 4
  {
    hide Stands, Goes, Encode, Bytes, GenCond;
    var kt := k + |CondConsts(e.c, k)|;
    var gt := GenExpr(e.t, kt);
    var gf := GenExpr(e.f, gt.Next(kt));
    var d := Len(gt.code) + 3;
    var c := GenCond(e.c, false, k, d);
    var j := JUMP(Len(gf.code));
    assert GenExpr(e, k) == c.Then(gt).Add(j).Then(gf);
    JumpSize(j);
    StandsThen(x, s.pc, c.Then(gt).Add(j), gf, k);
    StandsAdd(x, s.pc, c.Then(gt), j, k);
    StandsThen(x, s.pc, c, gt, k);
    CondRuns(x, s, e.c, false, k, d);
    var b := Eval(e.c, s.locals);
    if b.Val? {
      var u := s.(pc := s.pc + Len(c.code) + if Truthy(b.value) then 0 else d);
      if Truthy(b.value) {
        ThenRuns(x, s, u, e.t, kt, j, Len(GenExpr(e, k).code));
      } else {
        RightRuns(x, s, u, e.f, gt.Next(kt), Len(GenExpr(e, k).code));
      }
    }
  }

  /** From `u`, which differs from `s` in its pc, an expression and a jump over `j.d` bytes. */
  lemma ThenRuns(x: Site, s: VM, u: VM, e: Expr, k: nat, j: Instr, size: nat)
    requires HandlersFit(s) && u.Running? && u == s.(pc := u.pc) && Goes(x.ch, s, u, 1) && j.JUMP?
    requires SlotsIn(e, |s.locals|) && Stands(x, u.pc, GenExpr(e, k), k)
    requires Stands(x, u.pc + Len(GenExpr(e, k).code), One(j), GenExpr(e, k).Next(k))
    requires s.pc + size == u.pc + Len(GenExpr(e, k).code) + 3 + j.d
    ensures Computes(x.ch, s, size, Eval(e, s.locals))
    decreases WE(e), 6
  {
    hide Stands, Goes, Encode, Bytes, GenExpr;
    ExprRuns(x, u, e, k);
    var r := Eval(e, s.locals);
    if r.Val? {
      var t := Pushed(u, Len(GenExpr(e, k).code), r.value);
      Trans(x.ch, s, u, t, 1, 1);
      JumpStep(x, t, j.d, GenExpr(e, k).Next(k));
      Trans(x.ch, s, t, t.(pc := t.pc + 3 + j.d), 1, 1);
    } else if r.Raise? {
      Trans(x.ch, s, u, Fail(u, ErrorText), 1, 1);
    }
  }
}
