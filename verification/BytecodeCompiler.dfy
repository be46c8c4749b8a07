/** The compiler as it runs: it appends to its output, and goes back to patch the jumps.

 A method's result tells whether compilation goes on; `false` stands for the compile error raised when
 a distance, a constant's number or a count does not fit its operand. */
module BytecodeCompiler {
  import opened Bytecode
  import opened Tree
  import opened Codegen
  import opened CodegenLayout
  import opened CompilerEmission
  import opened CompilerLists
  import opened CodegenMain

  class Compiler {
    var code: seq<nat>
    var consts: seq<Value>
    var loops: seq<LoopCtx>
    var tryScopes: seq<Scope>

    /** The slots of the function's frame. */
    const locals: nat

    constructor (slots: nat)
      ensures Output() == Out([], [], []) && tryScopes == [] && locals == slots
    {
      code, consts, loops, tryScopes, locals := [], [], [], [], slots;
    }

    /** `finally` blocks are well-formed, loops start in the code there is. */
    ghost predicate Valid()
      reads this
    {
      && FinsFormed(tryScopes, locals)
      && (loops != [] ==> loops[|loops| - 1].continueTarget <= |code|)
    }

    ghost function Output(): Out
      reads this
    {
      Out(code, consts, loops)
    }

    // -------------------------------------------------------------- emitting

    /** An opcode and its operands. */
    method Emit(i: Instr)
      requires !i.BreakJ? && !i.ContJ?
      modifies this`code
      ensures Output() == After(old(Output()), One(i))
      ensures FitsOne(i) <==> Fit(old(Output()), One(i))
    {
      ghost var o := Output();
      code := code + Encode(i);
      AfterOne(o, i);
    }

    /** A constant gets the next number. */
    method EmitConst(v: Value) returns (ok: bool)
      modifies this`code, this`consts
      ensures var f := Frag([CONST(|old(consts)|)], [v]);
        && (ok <==> Fit(old(Output()), f)) && (ok ==> Output() == After(old(Output()), f))
    {
      ghost var o := Output();
      var k := |consts|;
      consts := consts + [v];
      code := code + Encode(CONST(k));
      ok := k <= 0xFFFF;
      AfterConst(o, CONST(k), v);
    }

    method EmitRuntimeError(v: Value) returns (ok: bool)
      modifies this`code, this`consts
      ensures var f := Frag([RUNTIME_ERROR(|old(consts)|)], [v]);
        && (ok <==> Fit(old(Output()), f)) && (ok ==> Output() == After(old(Output()), f))
    {
      ghost var o := Output();
      var k := |consts|;
      consts := consts + [v];
      code := code + Encode(RUNTIME_ERROR(k));
      ok := k <= 0xFFFF;
      AfterConst(o, RUNTIME_ERROR(k), v);
    }

    /** A forward jump with its distance left open; gives the address of the operand. */
    method EmitJump(j: Instr) returns (operandAt: nat)
      requires IsJump(j)
      modifies this`code
      ensures Output() == After(old(Output()), One(WithD(j, 0xFFFF))) && Fit(old(Output()), One(WithD(j, 0xFFFF)))
      ensures operandAt == |old(code)| + Size(j) - 2 == |code| - 2
    {
      JumpEncoded(j, 0xFFFF);
      Emit(WithD(j, 0xFFFF));
      AfterLen(old(Output()), One(WithD(j, 0xFFFF)));
      BytesOne(WithD(j, 0xFFFF));
      operandAt := |code| - 2;
    }

    /** Lets the jump with the given operand lead to the end of the code. */
    method PatchJump(operandAt: nat) returns (ok: bool)
      requires operandAt + 2 <= |code|
      modifies this`code
      ensures ok <==> |old(code)| - (operandAt + 2) <= 0xFFFF
      ensures ok ==> code == Put(old(code), operandAt, |old(code)| - (operandAt + 2))
    {
      var distance := |code| - (operandAt + 2);
      if distance > 0xFFFF { return false; }
      ghost var was := code;
      code := code[operandAt := distance / 256][operandAt + 1 := distance % 256];
      assert code == Put(was, operandAt, distance);
      return true;
    }

    /** A jump back to `target`. */
    method EmitLoop(target: nat) returns (ok: bool)
      requires target <= |code|
      modifies this`code
      ensures var f := One(LOOP(|old(code)| + 3 - target));
        && (ok <==> Fit(old(Output()), f)) && (ok ==> Output() == After(old(Output()), f))
    {
      var distance := |code| + 3 - target;
      Emit(LOOP(distance));
      ok := distance <= 0xFFFF;
    }

    // -------------------------------------------------------------- expressions

    method CompileExpression(e: Expr) returns (ok: bool)
      modifies this`code, this`consts
      ensures var f := GenExpr(e, |old(consts)|);
        && (ok <==> Fit(old(Output()), f)) && (ok ==> Output() == After(old(Output()), f))
      decreases WE(e), 5
    {
      hide After, Fit, Encode, Bytes;
      ghost var o := Output();
      match e {
        case IntLit(n) => ok := EmitConst(Int(n));
        case BoolLit(b) => Emit(if b then TRUE_ else FALSE_); ok := true;
        case NullLit => Emit(NIL); ok := true;
        case Name(slot) => Emit(GET_LOCAL(slot)); ok := true;
        case Prefix(op, a) =>
          ok := CompileExpression(a);
          ghost var f := GenExpr(a, |o.consts|);
          AfterAdd(o, f, PREFIX(op));
          if ok { Emit(PREFIX(op)); }
        case Infix(_, _, _) => ok := CompileInfix(e);
        case AndE(l, r) => ok := CompileShort(e, l, r, AND_KEEP(0));
        case OrE(l, r) => ok := CompileShort(e, l, r, OR_KEEP(0));
        case CoalesceE(l, r) => ok := CompileShort(e, l, r, COALESCE(0));
        case Conditional(_, _, _) => ok := CompileConditional(e);
      }
    }

    /** Both operands, left to right. */
    method CompilePair(l: Expr, r: Expr) returns (ok: bool)
      modifies this`code, this`consts
      ensures var f := GenExpr(l, |old(consts)|);
        var g := f.Then(GenExpr(r, f.Next(|old(consts)|)));
        && (ok <==> Fit(old(Output()), g)) && (ok ==> Output() == After(old(Output()), g))
      decreases WE(l) + WE(r), 6
    {
      hide After, Fit, GenExpr;
      ghost var o := Output();
      ok := CompileExpression(l);
      ghost var f := GenExpr(l, |o.consts|);
      AfterThen(o, f, GenExpr(r, f.Next(|o.consts|)));
      AfterLen(o, f);
      if ok { ok := CompileExpression(r); }
    }

    /** An operator: with a small literal or two slots as operands in one instruction less. */
    method CompileInfix(e: Expr) returns (ok: bool)
      requires e.Infix?
      modifies this`code, this`consts
      ensures var f := GenExpr(e, |old(consts)|);
        && (ok <==> Fit(old(Output()), f)) && (ok ==> Output() == After(old(Output()), f))
      decreases WE(e), 4
    {
      hide After, Fit;
      ghost var o := Output();
      if e.r.IntLit? && -32768 <= e.r.n <= 32767 && HasImmediate(e.op) {
        if e.l.Name? && (e.op == Add || e.op == Sub) {
          Emit(LGET_I(e.op, e.l.slot, e.r.n));
          return true;
        }
        ok := CompileExpression(e.l);
        ghost var f := GenExpr(e.l, |o.consts|);
        AfterAdd(o, f, BINARY_I(e.op, e.r.n));
        if ok { Emit(BINARY_I(e.op, e.r.n)); }
        return;
      }
      if e.l.Name? && e.r.Name? {
        Emit(LGET2(e.l.slot, e.r.slot));
        AfterAdd(o, One(LGET2(e.l.slot, e.r.slot)), BINARY(e.op));
        ok := true;
      } else {
        ok := CompilePair(e.l, e.r);
        ghost var f := GenExpr(e.l, |o.consts|);
        AfterAdd(o, f.Then(GenExpr(e.r, f.Next(|o.consts|))), BINARY(e.op));
      }
      if ok { Emit(BINARY(e.op)); }
    }

    /** Left operand, a jump over the right one, right operand. */
    method CompileShort(ghost e: Expr, l: Expr, r: Expr, j: Instr) returns (ok: bool)
      requires IsJump(j) && !j.COMPARE_JF? && !j.COMPARE_I_JF? && WE(e) > WE(l) + WE(r)
      modifies this`code, this`consts
      ensures var f := GenExpr(l, |old(consts)|);
        var g := GenExpr(r, f.Next(|old(consts)|));
        var h := f.Add(WithD(j, Len(g.code))).Then(g);
        && (ok <==> Fit(old(Output()), h)) && (ok ==> Output() == After(old(Output()), h))
      decreases WE(e), 4
    {
      hide After, Fit, GenExpr, Encode, FitsOne, Bytes;
      ghost var o := Output();
      ghost var f := GenExpr(l, |o.consts|);
      ghost var g := GenExpr(r, f.Next(|o.consts|));
      ghost var f1 := f.Add(WithD(j, 0xFFFF));
      Patched(o, f, j, g, Len(g.code));
      AfterThen(o, f1, g);
      AfterAdd(o, f, WithD(j, 0xFFFF));
      AfterLen(o, f);
      AfterLen(o, f1);
      ok := CompileExpression(l);
      if !ok { return; }
      var operandAt := EmitJump(j);
      ok := CompileExpression(r);
      if !ok { return; }
      ok := PatchJump(operandAt);
    }

    /** A condition and the jump that is taken when it fails; gives the address of the jump's operand. */
    method EmitCondJump(c: Expr, invert: bool) returns (ok: bool, operandAt: nat)
      modifies this`code, this`consts
      ensures var f := GenCond(c, invert, |old(consts)|, 0xFFFF);
        && (ok <==> Fit(old(Output()), f))
        && (ok ==> Output() == After(old(Output()), f) && operandAt == |code| - 2 && |code| >= 3)
      decreases WE(c), 7
    {
      hide After, Fit, Encode, GenExpr, Bytes;
      ghost var o := Output();
      ghost var k := |consts|;
      CondParts(c, invert, k, 0xFFFF);
      AfterLen(o, GenCond(c, invert, k, 0xFFFF));
      ghost var h := CondHead(c, invert, k);
      AfterAdd(o, h, WithD(CondJump(c, invert), 0xFFFF));
      operandAt := 0;
      if c.Infix? && IsCompare(c.op) {
        var op := if invert then Inverse(c.op) else c.op;
        if c.r.IntLit? && -32768 <= c.r.n <= 32767 {
          ok := CompileExpression(c.l);
          if !ok { return; }
          operandAt := EmitJump(COMPARE_I_JF(op, c.r.n, 0));
          return;
        }
        ok := CompilePair(c.l, c.r);
        if !ok { return; }
        operandAt := EmitJump(COMPARE_JF(op, 0));
        return;
      }
      ok := CompileExpression(c);
      AfterAdd(o, GenExpr(c, k), PREFIX(Not));
      if !ok { return; }
      if invert { Emit(PREFIX(Not)); }
      operandAt := EmitJump(JUMP_IF_FALSE(0));
    }

    /** Between the two branches: an open jump over the second one, where the first jump leads. */
    method BranchOver(elseJump: nat) returns (ok: bool, endJump: nat)
      requires elseJump + 2 <= |code|
      modifies this`code
      ensures var c := After(old(Output()), One(JUMP(0xFFFF)));
        && |c.code| == |old(code)| + 3 && endJump == |old(code)| + 1
        && (ok <==> |c.code| - (elseJump + 2) <= 0xFFFF)
        && (ok ==> Output() == c.(code := Put(c.code, elseJump, |c.code| - (elseJump + 2))) && |code| == |c.code|)
    {
      hide After, Fit, Bytes, Encode, Put;
      JumpSize(JUMP(0)); LenNone();
      AfterLen(Output(), One(JUMP(0xFFFF)));
      BytesOne(JUMP(0xFFFF)); JumpSize(JUMP(0xFFFF));
      endJump := EmitJump(JUMP(0));
      PutSize(code, elseJump, |code| - (elseJump + 2));
      ok := PatchJump(elseJump);
    }

    method CompileConditional(e: Expr) returns (ok: bool)
      requires e.Conditional?
      modifies this`code, this`consts
      ensures var f := GenExpr(e, |old(consts)|);
        && (ok <==> Fit(old(Output()), f)) && (ok ==> Output() == After(old(Output()), f))
      decreases WE(e), 4
    {
      hide After, Fit, Encode, GenCond, Bytes, GenExpr, CondConsts, Put, WE;
      ConditionalCode(e, |consts|);
      ghost var o := Output();
      ghost var k := |consts|;
      ghost var kt := k + |CondConsts(e.c, k)|;
      ghost var gt := GenExpr(e.t, kt);
      ghost var gf := GenExpr(e.f, gt.Next(kt));
      ghost var f0 := GenCond(e.c, false, k, 0xFFFF);
      TwoWays(o, e.c, k, gt, gf);
      AfterLen(o, f0);
      var elseJump, endJump;
      ok, elseJump := EmitCondJump(e.c, false);
      if !ok { return; }
      ok := CompileExpression(e.t);
      if !ok { return; }
      ok, endJump := BranchOver(elseJump);
      if !ok { return; }
      AfterLen(Output(), gf);
      ok := CompileExpression(e.f);
      if !ok { return; }
      PutSize(code, endJump, |code| - (endJump + 2));
      ok := PatchJump(endJump);
    }

    // -------------------------------------------------------------- statements

    /** Compilation of `f` after output `o`, inside scopes `S`. */
    ghost predicate Made(o: Out, S: seq<Scope>, ok: bool, f: Frag)
      reads this
    {
      && (ok <==> Fit(o, f))
      && (ok ==> Output() == After(o, f) && tryScopes == S && Valid())
    }

    method CompileBlock(b: seq<Stmt>) returns (ok: bool)
      requires Valid() && BlockFormed(b, locals)
      modifies this`code, this`consts, this`loops, this`tryScopes
      ensures Made(old(Output()), old(tryScopes), ok, GenBlock(b, |old(consts)|, old(tryScopes), old(Output().D())))
      decreases WB(b) + WS(tryScopes), 4, |b|
    {
      hide After, Fit, Bytes, GenStmt, FinsFormed;
      ghost var o, S, k := Output(), tryScopes, |consts|;
      ghost var D := o.D();
      ghost var f := NO_CODE;
      AfterNone(o);
      assert b[0..] == b;
      ghost var whole := GenBlock(b, k, S, D);
      assert f.Then(whole) == whole by { assert [] + whole.code == whole.code && [] + whole.consts == whole.consts; }
      var i := 0;
      while i < |b|
        invariant 0 <= i <= |b| && Valid() && tryScopes == S && BlockFormed(b[i..], locals) && WB(b[i..]) <= WB(b)
        invariant Output() == After(o, f) && Fit(o, f)
        invariant whole == f.Then(GenBlock(b[i..], f.Next(k), S, D))
      {
        AfterLen(o, f);
        assert b[i..][0] == b[i] && b[i..][1..] == b[i + 1..];
        ghost var h := GenStmt(b[i], f.Next(k), S, D);
        ghost var rest := GenBlock(b[i + 1..], h.Next(f.Next(k)), S, D);
        ThenAssoc(f, h, rest);
        AfterThen(o, f, h);
        AfterThen(o, f.Then(h), rest);
        ok := CompileStatement(b[i]);
        if !ok { return; }
        f := f.Then(h);
        i := i + 1;
      }
      assert b[|b|..] == [];
      assert f.Then(NO_CODE) == f by { assert f.code + [] == f.code && f.consts + [] == f.consts; }
      ok := true;
    }

    /** Leaves the scopes above `downTo`, innermost first: drop the handler, run the `finally` block.
        While a `finally` block is compiled, its own scope and those inside it are hidden. */
    method EmitFinallyUnwind(downTo: nat) returns (ok: bool)
      requires Valid()
      modifies this`code, this`consts, this`loops, this`tryScopes
      ensures Made(old(Output()), old(tryScopes), ok, Unwind(old(tryScopes), downTo, |old(consts)|, old(Output().D())))
      decreases WS(tryScopes), 0, 0
    {
      hide After, Fit, Bytes, GenBlock, Exit, Unwind, FinsFormed, Encode, WS, WB, BlockFormed;
      ghost var o, S, k := Output(), tryScopes, |consts|;
      ghost var D := o.D();
      ghost var f := NO_CODE;
      AfterNone(o);
      ghost var whole := Unwind(S, downTo, k, D);
      assert f.Then(whole) == whole by { assert [] + whole.code == whole.code && [] + whole.consts == whole.consts; }
      var saved := if downTo <= |tryScopes| then tryScopes[downTo..] else [];
      assert S[..|S|] == S;
      var i := |saved|;
      while i > 0
        invariant 0 <= i <= |saved| && Valid() && (saved != [] ==> tryScopes == S[..downTo + i])
            && (saved == [] ==> tryScopes == S)
        invariant saved != [] ==> WS(tryScopes) <= WS(S)
        invariant Output() == After(o, f) && Fit(o, f)
        invariant whole == f.Then(Unwind(tryScopes, downTo, f.Next(k), D))
        invariant i == 0 && saved != [] ==> tryScopes == S[..downTo]
      {
        AfterLen(o, f);
        var ts := saved[i - 1];
        ghost var all := tryScopes;
        assert all[|all| - 1] == ts;
        FinsLess(all, locals);
        tryScopes := tryScopes[..downTo + i - 1];
        assert tryScopes == all[..|all| - 1] == S[..downTo + i - 1];
        ghost var h := Exit(ts, f.Next(k), tryScopes, D);
        ghost var rest := Unwind(tryScopes, downTo, h.Next(f.Next(k)), D);
        UnwindFirst(all, downTo, f.Next(k), D);
        ThenAssoc(f, h, rest);
        AfterThen(o, f, h);
        AfterThen(o, f.Then(h), rest);
        ok := LeaveScope(ts);
        if !ok { return; }
        f := f.Then(h);
        i := i - 1;
      }
      tryScopes := tryScopes + saved;
      assert tryScopes == S;
      UnwindNone(S, downTo, f.Next(k), D);
      assert f.Then(NO_CODE) == f by { assert f.code + [] == f.code && f.consts + [] == f.consts; }
      ok := true;
    }

    /** The way out of one scope, the others still being open. */
    method LeaveScope(ts: Scope) returns (ok: bool)
      requires Valid() && BlockFormed(ts.fin, locals)
      modifies this`code, this`consts, this`loops, this`tryScopes
      ensures Made(old(Output()), old(tryScopes), ok, Exit(ts, |old(consts)|, old(tryScopes), old(Output().D())))
      decreases WB(ts.fin) + WS(tryScopes), 5, 0
    {
      hide After, Fit, Bytes, GenBlock, FinsFormed;
      ghost var o, k := Output(), |consts|;
      ghost var pop := if ts.live then One(TRY_POP) else NO_CODE;
      AfterNone(o);
      AfterThen(o, pop, GenBlock(ts.fin, k, tryScopes, o.D()));
      AfterLen(o, pop);
      if ts.live { Emit(TRY_POP); }
      ok := CompileBlock(ts.fin);
    }

    method CompileStatement(s: Stmt) returns (ok: bool)
      requires Valid() && Formed(s, locals)
      modifies this`code, this`consts, this`loops, this`tryScopes
      ensures Made(old(Output()), old(tryScopes), ok, GenStmt(s, |old(consts)|, old(tryScopes), old(Output().D())))
      decreases W(s) + WS(tryScopes), 3, 0
    {
      hide After, Fit, Bytes, GenBlock, GenExpr, GenCond, FinsFormed, GenWhile, GenCases, GenTryFinally,
          GenTryCatch, Unwind;
      match s {
        case Pass => AfterNone(Output()); ok := true;
        case ExprStmt(_) => ok := CompileStraight(s);
        case Assign(_, _, _) => ok := CompileStraight(s);
        case AssignOp(_, _, _) => ok := CompileStraight(s);
        case AssignCoalesce(_, _) => ok := CompileStraight(s);
        case Say(_) => ok := CompileStraight(s);
        case ThrowS(_) => ok := CompileStraight(s);
        case BreakS => ok := CompileJump(s);
        case ContinueS => ok := CompileJump(s);
        case ReturnS(_) => ok := CompileReturn(s);
        case If(_, _) => ok := CompileIf(s);
        case IfElse(_, _, _) => ok := CompileIfElse(s);
        case While(_, _, _) => ok := CompileWhile(s);
        case Match(_, _) => ok := CompileMatch(s);
        case TryFinally(_, _) => ok := CompileTryFinally(s);
        case TryCatch(_, _, _, _) => ok := CompileTryCatch(s);
        case BlockS(b) => ok := CompileBlock(b);
      }
    }

    /** `break` leaves its jump open; `continue` jumps back at once. */
    method CompileJump(s: Stmt) returns (ok: bool)
      requires Valid() && (s.BreakS? || s.ContinueS?)
      modifies this`code, this`consts, this`loops, this`tryScopes
      ensures Made(old(Output()), old(tryScopes), ok, GenStmt(s, |old(consts)|, old(tryScopes), old(Output().D())))
      decreases W(s) + WS(tryScopes), 2, 0
    {
      hide After, Fit, Bytes, Unwind, Encode, FinsFormed;
      ghost var o, S, k := Output(), tryScopes, |consts|;
      ghost var D := o.D();
      if loops == [] {
        ok := EmitRuntimeError(ErrorText);
        AfterLen(o, Frag([RUNTIME_ERROR(k)], [ErrorText]));
        return;
      }
      var l := loops[|loops| - 1];
      ghost var f := Unwind(S, l.tryDepth, k, D);
      AfterAdd(o, f, if s.BreakS? then BreakJ else ContJ);
      AfterLen(o, f);
      ok := EmitFinallyUnwind(l.tryDepth);
      if !ok { return; }
      if s.BreakS? { EmitBreak(); } else { ok := EmitContinue(); }
    }

    /** A jump to the end of the innermost loop, to be patched there. */
    method EmitBreak()
      requires Valid() && loops != []
      modifies this`code, this`loops
      ensures Output() == After(old(Output()), One(BreakJ)) && Fit(old(Output()), One(BreakJ)) && Valid()
    {
      hide After, Fit, Bytes, Encode, FinsFormed;
      ghost var o := Output();
      AfterLen(o, One(BreakJ));
      AfterBreak(o);
      JumpSize(JUMP(0));
      AfterOne(o, JUMP(0xFFFF));
      var operandAt := EmitJump(JUMP(0));
      var last := loops[|loops| - 1];
      loops := loops[..|loops| - 1] + [last.(breakJumps := last.breakJumps + [operandAt])];
    }

    method EmitContinue() returns (ok: bool)
      requires Valid() && loops != []
      modifies this`code
      ensures (ok <==> Fit(old(Output()), One(ContJ)))
          && (ok ==> Output() == After(old(Output()), One(ContJ)) && Valid())
    {
      hide After, Fit, Bytes, Encode, FinsFormed;
      ghost var o := Output();
      AfterLen(o, One(ContJ));
      AfterContinue(o);
      ok := EmitLoop(loops[|loops| - 1].continueTarget);
    }

    method CompileReturn(s: Stmt) returns (ok: bool)
      requires Valid() && s.ReturnS?
      modifies this`code, this`consts, this`loops, this`tryScopes
      ensures Made(old(Output()), old(tryScopes), ok, GenStmt(s, |old(consts)|, old(tryScopes), old(Output().D())))
      decreases W(s) + WS(tryScopes), 2, 0
    {
      hide After, Fit, Bytes, Unwind, GenExpr, FinsFormed;
      ghost var o, S, k := Output(), tryScopes, |consts|;
      ghost var f := GenExpr(s.e, k);
      ghost var u := Unwind(S, 0, f.Next(k), o.D());
      AfterThen(o, f, u);
      AfterAdd(o, f.Then(u), RETURN);
      AfterLen(o, f); AfterLen(o, f.Then(u)); AfterLen(o, f.Then(u).Add(RETURN));
      ok := CompileExpression(s.e);
      if !ok { return; }
      ok := EmitFinallyUnwind(0);
      if !ok { return; }
      Emit(RETURN);
    }

    method CompileIf(s: Stmt) returns (ok: bool)
      requires Valid() && s.If? && Formed(s, locals)
      modifies this`code, this`consts, this`loops, this`tryScopes
      ensures Made(old(Output()), old(tryScopes), ok, GenStmt(s, |old(consts)|, old(tryScopes), old(Output().D())))
      decreases W(s) + WS(tryScopes), 2, 0
    {
      hide After, Fit, Bytes, GenBlock, GenCond, FinsFormed, Put;
      ghost var o, S, k := Output(), tryScopes, |consts|;
      ghost var f0 := GenCond(s.c, false, k, 0xFFFF);
      ghost var g := GenBlock(s.body, k + |CondConsts(s.c, k)|, S, o.D());
      CondPatched(o, s.c, false, k, g, Len(g.code));
      AfterThen(o, f0, g);
      AfterLen(o, f0); AfterLen(o, f0.Then(g));
      var elseJump;
      ok, elseJump := EmitCondJump(s.c, false);
      if !ok { return; }
      ok := CompileBlock(s.body);
      if !ok { return; }
      PutSize(code, elseJump, Len(g.code));
      ok := PatchJump(elseJump);
    }

    method CompileIfElse(s: Stmt) returns (ok: bool)
      requires Valid() && s.IfElse? && Formed(s, locals)
      modifies this`code, this`consts, this`loops, this`tryScopes
      ensures Made(old(Output()), old(tryScopes), ok, GenStmt(s, |old(consts)|, old(tryScopes), old(Output().D())))
      decreases W(s) + WS(tryScopes), 2, 0
    {
      hide After, Fit, Bytes, GenBlock, GenCond, FinsFormed, Put, Encode, FitsOne, CondConsts, GenStmt;
      IfElseCode(s, |consts|, tryScopes, Output().D());
      ghost var o, S, k := Output(), tryScopes, |consts|;
      ghost var kb := k + |CondConsts(s.c, k)|;
      ghost var g := GenBlock(s.body, kb, S, o.D());
      ghost var h := GenStmt(s.alt, g.Next(kb), S, o.D());
      ghost var f0 := GenCond(s.c, false, k, 0xFFFF);
      TwoWays(o, s.c, k, g, h);
      AfterLen(o, f0); AfterLen(After(o, f0), g);
      var elseJump, endJump;
      ok, elseJump := EmitCondJump(s.c, false);
      if !ok { return; }
      ok := CompileBlock(s.body);
      if !ok { return; }
      ok, endJump := BranchOver(elseJump);
      if !ok { return; }
      ok := CompileElse(s.alt, endJump);
    }

    /** The second branch, and the end of the jump over it. */
    method CompileElse(alt: Stmt, endJump: nat) returns (ok: bool)
      requires Valid() && Formed(alt, locals) && endJump + 2 <= |code|
      modifies this`code, this`consts, this`loops, this`tryScopes
      ensures var h := GenStmt(alt, |old(consts)|, old(tryScopes), old(Output()).D());
        var e := After(old(Output()), h);
        && (ok <==> Fit(old(Output()), h) && |e.code| - (endJump + 2) <= 0xFFFF)
        && (ok ==> Output() == e.(code := Put(e.code, endJump,
            |e.code| - (endJump + 2))) && tryScopes == old(tryScopes) && Valid())
      decreases W(alt) + WS(tryScopes), 4, 0
    {
      hide After, Fit, Bytes, GenStmt, FinsFormed, Encode, Put;
      AfterLen(Output(), GenStmt(alt, |consts|, tryScopes, Output().D()));
      ok := CompileStatement(alt);
      if !ok { return; }
      PutSize(code, endJump, |code| - (endJump + 2));
      ok := PatchJump(endJump);
    }

    /** Statements without statements in them. */
    method CompileStraight(s: Stmt) returns (ok: bool)
      requires Straight(s) && !s.ReturnS? && Valid()
      modifies this`code, this`consts
      ensures Made(old(Output()), old(tryScopes), ok, GenStraight(s, |old(consts)|))
    {
      hide After, Fit, Bytes, GenExpr, GenExprs, Encode, FinsFormed;
      ghost var o, k := Output(), |consts|;
      AfterLen(o, GenStraight(s, k));
      match s {
        case Pass => AfterNone(o); ok := true;
        case ExprStmt(e) =>
          AfterAdd(o, GenExpr(e, k), POP);
          ok := CompileExpression(e);
          if ok { Emit(POP); }
        case Assign(slot, e, isSet) => ok := CompileAssign(slot, e, isSet);
        case AssignOp(slot, op, e) => ok := CompileCompound(slot, op, e);
        case AssignCoalesce(slot, e) => ok := CompileDefault(slot, e);
        case Say(vs) =>
          AfterAdd(o, GenExprs(vs, k), SAY(|vs|));
          ok := CompileAll(vs);
          if ok {
            Emit(SAY(|vs|));
            ok := |vs| <= 0xFF;
          }
        case ThrowS(e) =>
          AfterAdd(o, GenExpr(e, k), THROW_);
          ok := CompileExpression(e);
          if ok { Emit(THROW_); }
      }
    }

    /** `set x = e` and `x = e`; `x = x + e` adds in place. */
    method CompileAssign(slot: nat, e: Expr, isSet: bool) returns (ok: bool)
      modifies this`code, this`consts
      ensures var f := GenStraight(Assign(slot, e, isSet), |old(consts)|);
        && (ok <==> Fit(old(Output()), f)) && (ok ==> Output() == After(old(Output()), f))
    {
      hide After, Fit, Bytes, GenExpr, Encode;
      ghost var o, k := Output(), |consts|;
      if !isSet && e.Infix? && e.op == Add && e.l == Name(slot) {
        ok := CompileSlotOp(slot, e.r, ADD_INPLACE);
        AfterAdd(o, One(GET_LOCAL(slot)).Then(GenExpr(e.r, k)).Add(ADD_INPLACE), SET_LOCAL(slot));
      } else {
        ok := CompileExpression(e);
        AfterAdd(o, GenExpr(e, k), SET_LOCAL(slot));
      }
      if ok { Emit(SET_LOCAL(slot)); }
    }

    /** A slot, an expression, and an operator on both. */
    method CompileSlotOp(slot: nat, e: Expr, i: Instr) returns (ok: bool)
      requires i.ADD_INPLACE? || i.BINARY?
      modifies this`code, this`consts
      ensures var f := One(GET_LOCAL(slot)).Then(GenExpr(e, |old(consts)|)).Add(i);
        && (ok <==> Fit(old(Output()), f)) && (ok ==> Output() == After(old(Output()), f))
    {
      hide After, Fit, Bytes, GenExpr, Encode;
      ghost var o, k := Output(), |consts|;
      ghost var f := GenExpr(e, k);
      AfterThen(o, One(GET_LOCAL(slot)), f);
      AfterAdd(o, One(GET_LOCAL(slot)).Then(f), i);
      Emit(GET_LOCAL(slot));
      ok := CompileExpression(e);
      if ok { Emit(i); }
    }

    method CompileCompound(slot: nat, op: BinOp, e: Expr) returns (ok: bool)
      modifies this`code, this`consts
      ensures var f := GenStraight(AssignOp(slot, op, e), |old(consts)|);
        && (ok <==> Fit(old(Output()), f)) && (ok ==> Output() == After(old(Output()), f))
    {
      hide After, Fit, Bytes, GenExpr, Encode;
      ghost var o, k := Output(), |consts|;
      var i := if op == Add then ADD_INPLACE else BINARY(op);
      AfterAdd(o, One(GET_LOCAL(slot)).Then(GenExpr(e, k)).Add(i), SET_LOCAL(slot));
      ok := CompileSlotOp(slot, e, i);
      if ok { Emit(SET_LOCAL(slot)); }
    }

    /** `x ??= e`. */
    method CompileDefault(slot: nat, e: Expr) returns (ok: bool)
      modifies this`code, this`consts
      ensures var f := GenStraight(AssignCoalesce(slot, e), |old(consts)|);
        && (ok <==> Fit(old(Output()), f)) && (ok ==> Output() == After(old(Output()), f))
    {
      hide After, Fit, Bytes, GenExpr, Encode, FitsOne, Put;
      ghost var o, k := Output(), |consts|;
      ghost var g := GenExpr(e, k);
      ghost var get := One(GET_LOCAL(slot));
      ghost var j := COALESCE(0xFFFF);
      Patched(o, get, COALESCE(0), g, Len(g.code));
      AfterThen(o, get.Add(j), g);
      AfterAdd(o, get, j);
      AfterLen(o, get); AfterLen(o, get.Add(j)); AfterLen(o, get.Add(j).Then(g));
      AfterOne(o, GET_LOCAL(slot));
      assert FitsOne(GET_LOCAL(slot)) && FitsOne(SET_LOCAL(slot)) by { SlotFits(slot); }
      AfterAdd(o, get.Add(COALESCE(Len(g.code))).Then(g), SET_LOCAL(slot));
      Emit(GET_LOCAL(slot));
      var operandAt := EmitJump(COALESCE(0));
      ok := CompileExpression(e);
      if !ok { return; }
      ok := PatchJump(operandAt);
      if ok { Emit(SET_LOCAL(slot)); }
    }

    method CompileAll(es: seq<Expr>) returns (ok: bool)
      modifies this`code, this`consts
      ensures var f := GenExprs(es, |old(consts)|);
        && (ok <==> Fit(old(Output()), f)) && (ok ==> Output() == After(old(Output()), f))
    {
      hide After, Fit, Bytes, GenExpr;
      ghost var o, k := Output(), |consts|;
      ghost var f := NO_CODE;
      ghost var whole := GenExprs(es, k);
      AfterNone(o);
      assert es[0..] == es;
      assert f.Then(whole) == whole by { assert [] + whole.code == whole.code && [] + whole.consts == whole.consts; }
      var i := 0;
      while i < |es|
        invariant 0 <= i <= |es| && Output() == After(o, f) && Fit(o, f)
        invariant whole == f.Then(GenExprs(es[i..], f.Next(k)))
      {
        AfterLen(o, f);
        assert es[i..][0] == es[i] && es[i..][1..] == es[i + 1..];
        ghost var h := GenExpr(es[i], f.Next(k));
        ghost var rest := GenExprs(es[i + 1..], h.Next(f.Next(k)));
        ThenAssoc(f, h, rest);
        AfterThen(o, f, h);
        AfterThen(o, f.Then(h), rest);
        ok := CompileExpression(es[i]);
        if !ok { return; }
        f := f.Then(h);
        i := i + 1;
      }
      assert es[|es|..] == [];
      assert f.Then(NO_CODE) == f by { assert f.code + [] == f.code && f.consts + [] == f.consts; }
      ok := true;
    }

    /** Lets all jumps of a list lead to the end of the code. */
    method PatchJumps(jumps: seq<nat>) returns (ok: bool)
      requires Within(jumps, |code|)
      modifies this`code
      ensures ok <==> Near(jumps, |old(code)|)
      ensures ok ==> code == PutAll(old(code), jumps, |old(code)|)
    {
      hide Put;
      ghost var was := code;
      var i := 0;
      assert jumps[0..] == jumps;
      while i < |jumps|
        invariant 0 <= i <= |jumps| && |code| == |was| && Within(jumps[i..], |code|)
        invariant PutAll(was, jumps, |was|) == PutAll(code, jumps[i..], |was|)
        invariant Near(jumps, |was|) <==> Near(jumps[i..], |was|)
      {
        assert jumps[i..][0] == jumps[i] && jumps[i..][1..] == jumps[i + 1..];
        NearFirst(jumps[i..], |was|);
        PutSize(code, jumps[i], |code| - (jumps[i] + 2));
        PutAllFirst(code, jumps[i..], |was|);
        ok := PatchJump(jumps[i]);
        if !ok { return; }
        i := i + 1;
      }
      ok := true;
    }

    method CompileWhile(s: Stmt) returns (ok: bool)
      requires Valid() && s.While? && Formed(s, locals)
      modifies this`code, this`consts, this`loops, this`tryScopes
      ensures Made(old(Output()), old(tryScopes), ok, GenWhile(s, |old(consts)|, old(tryScopes), old(Output().D())))
      decreases W(s) + WS(tryScopes), 2, 0
    {
      hide After, Fit, Bytes, GenBlock, GenCond, FinsFormed, Put, PutAll, Near, GenWhile, CondConsts, Encode, Legal,
        BlockFormed, SlotsIn, WB, WS;
      ghost var o, S, k := Output(), tryScopes, |consts|;
      ghost var kb := k + |CondConsts(s.c, k)|;
      ghost var g := GenBlock(s.body, kb, S, InLoop(|S|));
      ghost var f0 := GenCond(s.c, s.until, k, 0xFFFF);
      ghost var i := Inside(o, |S|);
      ghost var l := LOOP(Len(f0.code) + Len(g.code) + 3);
      LoopCloses(o, s, S, o.D(), locals);
      CondLen(s.c, s.until, k, 0xFFFF, Len(g.code) + 3);
      CondPatched(i, s.c, s.until, k, g.Add(l), Len(g.code) + 3);
      ThenAdd(f0, g, l);
      JumpSize(l);
      AfterThen(i, f0, g.Add(l));
      AfterAdd(After(i, f0), g, l);
      AfterLen(i, f0); AfterLen(After(i, f0), g); AfterLen(i, f0.Then(g.Add(l)));
      AfterLen(o, GenWhile(s, k, S, o.D()));
      var loopStart := |code|;
      loops := loops + [LoopCtx(loopStart, [], |tryScopes|)];
      var exitJump;
      ok, exitJump := EmitCondJump(s.c, s.until);
      if !ok { return; }
      ok := CompileBlock(s.body);
      if !ok { return; }
      ok := EmitLoop(loopStart);
      if !ok { return; }
      PutSize(code, exitJump, |code| - (exitJump + 2));
      ok := PatchJump(exitJump);
      if !ok { return; }
      assert Output() == After(i, OpenLoop(s, k, S));
      ok := PatchJumps(loops[|loops| - 1].breakJumps);
      if !ok { return; }
      loops := loops[..|loops| - 1];
    }

    // -------------------------------------------------------------- match

    /** Compares the subject with the patterns of a branch; gives the operand of the jump taken when
        none is equal. */
    method CompilePatterns(ps: seq<Expr>) returns (ok: bool, nextPattern: nat)
      requires ps != []
      modifies this`code, this`consts
      ensures var f := GenPatterns(ps, |old(consts)|, 0xFFFF);
        && (ok <==> Fit(old(Output()), f))
        && (ok ==> Output() == After(old(Output()), f) && |code| >= 3 && nextPattern == |code| - 2)
    {
      hide After, Fit, Bytes, Comparison, OpenTest, GenPatterns, Put, PutAll, Near, Encode, OpenPatterns, BodyJumps,
        GenExpr, FitsOne;
      ghost var o, k := Output(), |consts|;
      ghost var f := NO_CODE;
      ghost var whole := OpenPatterns(ps, k, 0xFFFF);
      AfterNone(o);
      PatternsClose(o, ps, k, 0xFFFF);
      SkipPatched(o, ps, k, NO_CODE, 0xFFFF);
      AfterLen(o, GenPatterns(ps, k, 0xFFFF));
      assert ps[0..] == ps;
      assert f.Then(whole) == whole by { assert [] + whole.code == whole.code && [] + whole.consts == whole.consts; }
      nextPattern := 0;
      var bodyJumps: seq<nat> := [];
      var pi := 0;
      while pi < |ps|
        invariant 0 <= pi <= |ps| && Output() == After(o, f) && Fit(o, f)
        invariant whole == f.Then(OpenPatterns(ps[pi..], f.Next(k), 0xFFFF))
        invariant bodyJumps + BodyJumps(ps[pi..], f.Next(k), |code|) == BodyJumps(ps, k, |o.code|)
        invariant pi == |ps| ==> |code| >= 3 && nextPattern == |code| - 2
      {
        if pi + 1 < |ps| {
          PatternsOneMore(o, ps, pi, f, |code|);
          var b;
          ok, b := CompileOpenTest(ps[pi]);
          if !ok { return; }
          bodyJumps := bodyJumps + [b];
          f := f.Then(OpenTest(ps[pi], f.Next(k)));
        } else {
          PatternsLast(o, ps, pi, f, |code|);
          ok, nextPattern := CompileLastTest(ps[pi]);
          if !ok { return; }
          f := f.Then(Comparison(ps[pi], f.Next(k)).Add(JUMP_IF_FALSE(0xFFFF)));
          PatternsEnd(f.Next(k), 0xFFFF, |code|);
          assert f.Then(NO_CODE) == f by { assert f.code + [] == f.code && f.consts + [] == f.consts; }
        }
        pi := pi + 1;
      }
      assert ps[|ps|..] == [];
      PatternsEnd(f.Next(k), 0xFFFF, |code|);
      assert f.Then(NO_CODE) == f by { assert f.code + [] == f.code && f.consts + [] == f.consts; }
      assert bodyJumps + [] == bodyJumps;
      ok := PatchJumps(bodyJumps);
    }

    /** A comparison that skips the jump behind it when it fails; gives that jump's operand. */
    method CompileOpenTest(p: Expr) returns (ok: bool, b: nat)
      modifies this`code, this`consts
      ensures var h := OpenTest(p, |old(consts)|);
        && (ok <==> Fit(old(Output()), h)) && (ok ==> Output() == After(old(Output()), h))
      ensures ok ==> b == |old(code)| + Len(Comparison(p, |old(consts)|).code) + 4 && |code| == b + 2
    {
      hide After, Fit, Bytes, Comparison, Put, Encode;
      ghost var test := Comparison(p, |consts|);
      TestOpens(Output(), test);
      AfterLen(Output(), test); AfterLen(Output(), test.Add(JUMP_IF_FALSE(0xFFFF)));
      b := 0;
      ok := CompileTest(p);
      if !ok { return; }
      var j := EmitJump(JUMP_IF_FALSE(0));
      b := EmitJump(JUMP(0));
      PutSize(code, j, 3);
      ok := PatchJump(j);
    }

    /** A comparison that leads to the next branch when it fails; gives its jump's operand. */
    method CompileLastTest(p: Expr) returns (ok: bool, nextPattern: nat)
      modifies this`code, this`consts
      ensures var h := Comparison(p, |old(consts)|).Add(JUMP_IF_FALSE(0xFFFF));
        && (ok <==> Fit(old(Output()), h))
        && (ok ==> Output() == After(old(Output()), h) && |code| >= 3 && nextPattern == |code| - 2)
    {
      hide After, Fit, Bytes, Comparison, Put, Encode;
      ghost var test := Comparison(p, |consts|);
      TestOpens(Output(), test);
      AfterLen(Output(), test); AfterLen(Output(), test.Add(JUMP_IF_FALSE(0xFFFF)));
      nextPattern := 0;
      ok := CompileTest(p);
      if !ok { return; }
      nextPattern := EmitJump(JUMP_IF_FALSE(0));
    }

    /** One comparison, on a copy of the subject. */
    method CompileTest(p: Expr) returns (ok: bool)
      modifies this`code, this`consts
      ensures var f := Comparison(p, |old(consts)|);
        && (ok <==> Fit(old(Output()), f)) && (ok ==> Output() == After(old(Output()), f))
    {
      hide After, Fit, Bytes, GenExpr, Encode;
      ghost var o, k := Output(), |consts|;
      AfterThen(o, One(DUP), GenExpr(p, k));
      AfterAdd(o, One(DUP).Then(GenExpr(p, k)), BINARY(Eq));
      Emit(DUP);
      ok := CompileExpression(p);
      if ok { Emit(BINARY(Eq)); }
    }

    /** A branch; gives the operand of the jump to the end of the `match`. */
    method CompileCase(c: Case) returns (ok: bool, endJump: nat)
      requires Valid() && BlockFormed(c.body, locals) && (c.Branch? ==> c.patterns != [])
      modifies this`code, this`consts, this`loops, this`tryScopes
      ensures Made(old(Output()), old(tryScopes), ok, OpenCase(c, |old(consts)|, old(tryScopes), old(Output().D())))
      ensures ok ==> |code| >= 2 && endJump == |code| - 2
      decreases WB(c.body) + WS(tryScopes), 6, 0
    {
      hide After, Fit, Bytes, GenBlock, GenPatterns, PatternConsts, Put, FinsFormed, Encode, OpenBody;
      ghost var o, S, k := Output(), tryScopes, |consts|;
      ghost var kb := BodyFrom(c, k);
      ghost var body := OpenBody(c, kb, S, o.D());
      endJump := 0;
      if c.Default? {
        ok, endJump := CompileBody(c, kb);
        return;
      }
      ghost var f0 := GenPatterns(c.patterns, k, 0xFFFF);
      SkipPatched(o, c.patterns, k, body, Len(body.code));
      AfterThen(o, f0, body);
      AfterLen(o, f0); AfterLen(o, f0.Then(body));
      var nextPattern;
      ok, nextPattern := CompilePatterns(c.patterns);
      if !ok { return; }
      ok, endJump := CompileBody(c, kb);
      if !ok { return; }
      PutSize(code, nextPattern, |code| - (nextPattern + 2));
      ok := PatchJump(nextPattern);
    }

    method CompileBody(c: Case, ghost k: nat) returns (ok: bool, endJump: nat)
      requires Valid() && BlockFormed(c.body, locals) && k == |consts|
      modifies this`code, this`consts, this`loops, this`tryScopes
      ensures Made(old(Output()), old(tryScopes), ok, OpenBody(c, k, old(tryScopes), old(Output().D())))
      ensures ok ==> |code| >= 2 && endJump == |code| - 2
      decreases WB(c.body) + WS(tryScopes), 5, 0
    {
      hide After, Fit, Bytes, GenBlock, FinsFormed, Encode;
      ghost var o, S := Output(), tryScopes;
      ghost var g := GenBlock(c.body, k, S, o.D());
      AfterThen(o, One(POP), g);
      AfterAdd(o, One(POP).Then(g), JUMP(0xFFFF));
      AfterLen(o, One(POP)); AfterLen(o, One(POP).Then(g)); AfterLen(o, OpenBody(c, k, S, o.D()));
      AfterOne(o, POP);
      endJump := 0;
      Emit(POP);
      ok := CompileBlock(c.body);
      if !ok { return; }
      endJump := EmitJump(JUMP(0));
    }

    method CompileMatch(s: Stmt) returns (ok: bool)
      requires Valid() && s.Match? && Formed(s, locals)
      modifies this`code, this`consts, this`loops, this`tryScopes
      ensures Made(old(Output()), old(tryScopes), ok, GenStmt(s, |old(consts)|, old(tryScopes), old(Output().D())))
      decreases W(s) + WS(tryScopes), 2, 0
    {
      hide After, Fit, Bytes, GenExpr, GenCases, FinsFormed;
      ghost var o, S, k := Output(), tryScopes, |consts|;
      ghost var f := GenExpr(s.subject, k);
      AfterThen(o, f, GenCases(s.cases, f.Next(k), S, o.D()));
      AfterLen(o, f);
      ok := CompileExpression(s.subject);
      if !ok { return; }
      ok := CompileCases(s.cases);
    }

    method CompileCases(cs: seq<Case>) returns (ok: bool)
      requires Valid() && CasesFormed(cs, locals)
      modifies this`code, this`consts, this`loops, this`tryScopes
      ensures Made(old(Output()), old(tryScopes), ok, GenCases(cs, |old(consts)|, old(tryScopes), old(Output().D())))
      decreases WC(cs) + WS(tryScopes), 6, 0
    {
      hide After, Fit, Bytes, GenCases, OpenCase, Put, PutAll, Near, FinsFormed, Encode, OpenCases, EndJumps, WC,
          CasesFormed, BlockFormed;
      ghost var o, S, k := Output(), tryScopes, |consts|;
      ghost var D := o.D();
      ghost var f := NO_CODE;
      ghost var whole := OpenCases(cs, k, S, D);
      AfterNone(o);
      CasesClose(o, cs, k, S, D);
      AfterLen(o, GenCases(cs, k, S, D));
      assert cs[0..] == cs;
      assert f.Then(whole) == whole by { assert [] + whole.code == whole.code && [] + whole.consts == whole.consts; }
      var endJumps: seq<nat> := [];
      var i := 0;
      while i < |cs|
        invariant 0 <= i <= |cs| && Valid() && tryScopes == S && CasesFormed(cs[i..], locals) && WC(cs[i..]) <= WC(cs)
        invariant Output() == After(o, f) && Fit(o, f)
        invariant whole == f.Then(OpenCases(cs[i..], f.Next(k), S, D))
        invariant endJumps + EndJumps(cs[i..], f.Next(k), S, D, |code|) == EndJumps(cs, k, S, D, |o.code|)
      {
        AfterLen(o, f);
        assert cs[i..][0] == cs[i] && cs[i..][1..] == cs[i + 1..];
        CasesStep(cs[i..], f.Next(k), S, D, |code|, locals);
        ghost var h := OpenCase(cs[i], f.Next(k), S, D);
        ghost var rest := OpenCases(cs[i + 1..], h.Next(f.Next(k)), S, D);
        AfterLen(Output(), h);
        ThenAssoc(f, h, rest);
        AfterThen(o, f, h);
        AfterThen(o, f.Then(h), rest);
        ghost var at := |code|;
        var endJump;
        ok, endJump := CompileCase(cs[i]);
        if !ok { return; }
        assert endJump == Gap(at + Len(h.code), 2);
        endJumps := endJumps + [endJump];
        f := f.Then(h);
        i := i + 1;
      }
      assert cs[|cs|..] == [];
      CasesEnd(f.Next(k), S, D, |code|);
      assert endJumps + [] == endJumps;
      AfterThen(o, f, One(POP));
      Emit(POP);
      assert Output() == After(o, whole);
      ok := PatchJumps(endJumps);
    }

    // -------------------------------------------------------------- try

    /** Handler, scope and body of a `try`. */
    method CompileGuarded(body: seq<Stmt>, fin: seq<Stmt>) returns (ok: bool, handlerJump: nat)
      requires Valid() && BlockFormed(body, locals) && BlockFormed(fin, locals)
      modifies this`code, this`consts, this`loops, this`tryScopes
      ensures handlerJump == |old(code)| + 1
      ensures var o := old(Output());
        var g := GenBlock(body, |o.consts|, old(tryScopes) + [Scope(fin, true)], o.D());
        Made(After(o, One(TRY_PUSH(0xFFFF))), old(tryScopes) + [Scope(fin, true)], ok, g)
      decreases WB(body) + WB(fin) + 1 + WS(tryScopes), 5, 0
    {
      hide After, Fit, Bytes, GenBlock, FinsFormed, Encode;
      ghost var o := Output();
      WSPush(tryScopes, Scope(fin, true));
      FinsPush(tryScopes, Scope(fin, true), locals);
      JumpSize(TRY_PUSH(0));
      AfterLen(o, One(TRY_PUSH(0xFFFF)));
      AfterOne(o, TRY_PUSH(0xFFFF));
      handlerJump := EmitJump(TRY_PUSH(0));
      tryScopes := tryScopes + [Scope(fin, true)];
      ok := CompileBlock(body);
    }

    /** `try` with `finally` only: the block stands on the normal path, and on the path of errors. */
    method CompileTryFinally(s: Stmt) returns (ok: bool)
      requires Valid() && s.TryFinally? && Formed(s, locals)
      modifies this`code, this`consts, this`loops, this`tryScopes
      ensures Made(old(Output()), old(tryScopes), ok,
          GenTryFinally(s, |old(consts)|, old(tryScopes), old(Output().D())))
      decreases W(s) + WS(tryScopes), 2, 0
    {
      hide After, Fit, Bytes, GenBlock, FinsFormed, Encode, Put, FitsOne, GenTryFinally, W, WB, WS, Formed, BlockFormed;
      ghost var o, S, k := Output(), tryScopes, |consts|;
      ghost var D := o.D();
      TryFinallyCode(s, k, S, D, locals);
      ghost var g := GenBlock(s.body, k, S + [Scope(s.fin, true)], D);
      ghost var f1 := GenBlock(s.fin, g.Next(k), S, D);
      ghost var f2 := GenBlock(s.fin, f1.Next(g.Next(k)), S, D);
      TryFinallyCloses(o, g, f1, f2);
      JumpSize(JUMP(0));
      AfterLen(After(o, One(TRY_PUSH(0xFFFF))), g);
      var handlerJump;
      ok, handlerJump := CompileGuarded(s.body, s.fin);
      if !ok { return; }
      tryScopes := tryScopes[..|tryScopes| - 1];
      assert tryScopes == S;
      FinsBack(S, Scope(s.fin, true), locals);
      ok := CompileNormalPath(s.fin, handlerJump);
      if !ok { return; }
      ok := CompileErrorPath(s.fin, |code| - 2);
    }

    /** The `finally` block for errors, which are raised again. */
    method CompileErrorPath(fin: seq<Stmt>, endJump: nat) returns (ok: bool)
      requires Valid() && BlockFormed(fin, locals) && endJump + 2 <= |code|
      modifies this`code, this`consts, this`loops, this`tryScopes
      ensures var f2 := GenBlock(fin, |old(consts)|, old(tryScopes), old(Output()).D());
        var h := After(After(old(Output()), f2), One(THROW_));
        && |h.code| >= endJump + 2
        && (ok <==> Fit(old(Output()), f2) && |h.code| - (endJump + 2) <= 0xFFFF)
        && (ok ==> Output() == h.(code := Put(h.code, endJump,
            |h.code| - (endJump + 2))) && tryScopes == old(tryScopes) && Valid())
      decreases WB(fin) + WS(tryScopes), 5, 0
    {
      hide After, Fit, Bytes, GenBlock, FinsFormed, Encode, Put, FitsOne;
      ghost var o := Output();
      ghost var f2 := GenBlock(fin, |consts|, tryScopes, o.D());
      RethrowTail(o, f2);
      AfterLen(o, f2);
      AfterLen(After(o, f2), One(THROW_));
      ok := CompileBlock(fin);
      if !ok { return; }
      Emit(THROW_);
      PutSize(code, endJump, |code| - (endJump + 2));
      ok := PatchJump(endJump);
    }

    /** The `finally` block after a body that ended normally, and the open jump to the end; errors are
        caught behind it. */
    method CompileNormalPath(fin: seq<Stmt>, handlerJump: nat) returns (ok: bool)
      requires Valid() && BlockFormed(fin, locals) && handlerJump + 2 <= |code|
      modifies this`code, this`consts, this`loops, this`tryScopes
      ensures var c := After(old(Output()), One(TRY_POP));
        var f1 := GenBlock(fin, |old(consts)|, old(tryScopes), old(Output()).D());
        var e0 := After(After(c, f1), One(JUMP(0xFFFF)));
        && |e0.code| >= handlerJump + 2
        && (ok <==> Fit(c, f1) && |e0.code| - (handlerJump + 2) <= 0xFFFF)
        && (ok ==> Output() == e0.(code := Put(e0.code, handlerJump, |e0.code| - (handlerJump + 2)))
                   && |code| == |e0.code| && tryScopes == old(tryScopes) && Valid())
      decreases WB(fin) + WS(tryScopes), 5, 0
    {
      hide After, Fit, Bytes, GenBlock, FinsFormed, Encode, Put, FitsOne;
      ghost var o, S := Output(), tryScopes;
      FinallyTail(o, GenBlock(fin, |consts|, S, o.D()));
      Emit(TRY_POP);
      ok := CompileBlock(fin);
      if !ok { return; }
      var endJump := EmitJump(JUMP(0));
      PutSize(code, handlerJump, |code| - (handlerJump + 2));
      ok := PatchJump(handlerJump);
    }

    /** `try` with `catch`: the handler's scope stays open, without its handler, for the catch block. */
    method CompileTryCatch(s: Stmt) returns (ok: bool)
      requires Valid() && s.TryCatch? && Formed(s, locals)
      modifies this`code, this`consts, this`loops, this`tryScopes
      ensures Made(old(Output()), old(tryScopes), ok, GenTryCatch(s, |old(consts)|, old(tryScopes), old(Output().D())))
      decreases W(s) + WS(tryScopes), 2, 0
    {
      hide After, Fit, Bytes, GenBlock, FinsFormed, Encode, Put, FitsOne, GenTryCatch, W, WB, WS, Formed, BlockFormed;
      ghost var o, S, k := Output(), tryScopes, |consts|;
      ghost var D := o.D();
      TryCatchCode(s, k, S, D, locals);
      ghost var dead := Scope(s.fin, false);
      ghost var g := GenBlock(s.body, k, S + [Scope(s.fin, true)], D);
      ghost var h := GenBlock(s.catchBody, g.Next(k), S + [dead], D);
      ghost var f := GenBlock(s.fin, h.Next(g.Next(k)), S, D);
      TryCatchCloses(o, g, s.slot, h, f);
      AfterLen(After(o, One(TRY_PUSH(0xFFFF))), g);
      var handlerJump, endJump;
      ok, handlerJump := CompileGuarded(s.body, s.fin);
      if !ok { return; }
      ok, endJump := EndBody(handlerJump, S, s.fin);
      if !ok { return; }
      ok := CompileHandler(s.slot, s.catchBody, S, dead);
      if !ok { return; }
      ok := CompileMerge(s.fin, endJump);
    }

    /** The `finally` block where body and catch block meet. */
    method CompileMerge(fin: seq<Stmt>, endJump: nat) returns (ok: bool)
      requires Valid() && BlockFormed(fin, locals) && endJump + 2 <= |code|
      modifies this`code, this`consts, this`loops, this`tryScopes
      ensures var d := |old(code)| - (endJump + 2);
        var e := old(Output()).(code := Put(old(code), endJump, d));
        var f := GenBlock(fin, |e.consts|, old(tryScopes), e.D());
        && (ok <==> d <= 0xFFFF && Fit(e, f))
        && (ok ==> Output() == After(e, f) && tryScopes == old(tryScopes) && Valid())
      decreases WB(fin) + WS(tryScopes), 5, 0
    {
      hide After, Fit, Bytes, GenBlock, FinsFormed, Encode, Put;
      PutSize(code, endJump, |code| - (endJump + 2));
      ok := PatchJump(endJump);
      if !ok { return; }
      AfterLen(Output(), GenBlock(fin, |consts|, tryScopes, Output().D()));
      ok := CompileBlock(fin);
    }

    /** The end of a guarded body: its scope is marked, the handler goes, an open jump leads on; errors
        arrive behind it. */
    method EndBody(handlerJump: nat, ghost S: seq<Scope>, ghost fin: seq<Stmt>) returns (ok: bool, endJump: nat)
      requires Valid() && handlerJump + 2 <= |code| && tryScopes == S + [Scope(fin, true)]
      modifies this`code, this`tryScopes
      ensures tryScopes == S + [Scope(fin, false)]
      ensures var c0 := After(After(old(Output()), One(TRY_POP)), One(JUMP(0xFFFF)));
        && |c0.code| == |old(code)| + 4 && endJump == |old(code)| + 2
        && (ok <==> |c0.code| - (handlerJump + 2) <= 0xFFFF)
        && (ok ==> Output() == c0.(code := Put(c0.code, handlerJump,
            |c0.code| - (handlerJump + 2))) && Valid() && |code| == |c0.code|)
    {
      hide After, Fit, Bytes, FinsFormed, Encode, Put;
      tryScopes := tryScopes[|tryScopes| - 1 := tryScopes[|tryScopes| - 1].(live := false)];
      assert tryScopes == S + [Scope(fin, false)];
      FinsBack(S, Scope(fin, true), locals);
      FinsPush(S, Scope(fin, false), locals);
      FinallyTail(Output(), NO_CODE);
      AfterNone(After(Output(), One(TRY_POP)));
      JumpSize(JUMP(0)); LenNone();
      Emit(TRY_POP);
      endJump := EmitJump(JUMP(0));
      PutSize(code, handlerJump, |code| - (handlerJump + 2));
      ok := PatchJump(handlerJump);
    }

    /** Binds the error, compiles the catch block and leaves the scope. */
    method CompileHandler(slot: nat, body: seq<Stmt>, ghost S: seq<Scope>, ghost c: Scope) returns (ok: bool)
      requires Valid() && BlockFormed(body, locals) && tryScopes == S + [c]
      modifies this`code, this`consts, this`loops, this`tryScopes
      ensures var d := After(old(Output()), One(SET_LOCAL(slot)));
        Made(d, S, ok, GenBlock(body, |old(consts)|, S + [c], old(Output()).D()))
      decreases WB(body) + WS(tryScopes), 5, 0
    {
      hide After, Fit, Bytes, GenBlock, FinsFormed, Encode;
      AfterLen(Output(), One(SET_LOCAL(slot)));
      AfterOne(Output(), SET_LOCAL(slot));
      Emit(SET_LOCAL(slot));
      ok := CompileBlock(body);
      if !ok { return; }
      FinsBack(S, c, locals);
      tryScopes := tryScopes[..|tryScopes| - 1];
      assert tryScopes == S;
    }

    // -------------------------------------------------------------- functions

    /** A function's body and the implicit `return null`; too many slots are refused at the end. */
    method CompileFunction(body: seq<Stmt>) returns (ok: bool)
      requires Output() == Out([], [], []) && tryScopes == [] && BlockFormed(body, locals)
      modifies this`code, this`consts, this`loops, this`tryScopes
      ensures ok <==> Fits(GenFunction(body).code) && locals <= 65536
      ensures ok ==> Chunk(code, consts) == Compiled(body) && forall c :: c in code ==> c < 256
    {
      hide After, Bytes, GenBlock, Encode, Fits, Proper, Laid;
      ghost var o := Output();
      ghost var f := GenBlock(body, 0, [], NoLoop);
      FunctionProper(body, locals);
      LaidProper(o, GenFunction(body), locals);
      AfterAdd(o, f, NIL);
      AfterAdd(o, f.Add(NIL), RETURN);
      AfterFirst(GenFunction(body));
      ok := CompileBlock(body);
      if !ok { return; }
      Emit(NIL);
      Emit(RETURN);
      ok := locals <= 65536;
      if ok { SmallCells(GenFunction(body).code, locals); }
    }
  }
}
