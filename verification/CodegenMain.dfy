/** Compiled functions and their meaning. */
module CodegenMain {
  import opened Bytecode
  import opened Tree
  import opened TreeFinally
  import opened Codegen
  import opened CodegenLayout
  import opened CodegenExprs
  import opened CodegenExits
  import opened CodegenStmts

  // ---------------------------------------------------------------- slots and open jumps

  predicate InFrame(i: Instr, n: nat) {
    match i
    case GET_LOCAL(s) => s < n
    case SET_LOCAL(s) => s < n
    case LGET2(a, b) => a < n && b < n
    case LGET_I(_, s, _) => s < n
    case _ => true
  }

  /** Instructions that exist, of a frame of `n` slots, without jumps out of a loop unless it is `open`. */
  predicate Proper(code: seq<Instr>, n: nat, open: bool) {
    forall i :: i in code ==> InFrame(i, n) && (if i.BreakJ? || i.ContJ? then open else Legal(i))
  }

  lemma {:induction false} ProperStays(code: seq<Instr>, n: nat, at: nat, cont: Target, brk: Target)
    requires Proper(code, n, false)
    ensures Resolve(code, at, cont, brk) == code
  {
    if code != [] {
      assert code[0] in code;
      assert Proper(code[1..], n, false);
      ProperStays(code[1..], n, at + Size(code[0]), cont, brk);
    }
  }

  lemma {:induction false} ResolvedIsProper(code: seq<Instr>, n: nat, at: nat, c: nat, b: nat)
    requires Proper(code, n, true)
    ensures Proper(Resolve(code, at, To(c), To(b)), n, false)
  {
    if code != [] {
      assert code[0] in code;
      assert Proper(code[1..], n, true);
      ResolvedIsProper(code[1..], n, at + Size(code[0]), c, b);
    }
  }

  lemma {:induction false} ExprProper(e: Expr, k: nat, n: nat)
    requires SlotsIn(e, n)
    ensures Proper(GenExpr(e, k).code, n, false)
    decreases WE(e), 2
  {
    match e
    case Prefix(_, a) => ExprProper(a, k, n);
    case Infix(_, l, r) => TwoProper(l, r, k, n); InfixProper(e, k, n);
    case AndE(l, r) => TwoProper(l, r, k, n); ShortProper(e, k, n);
    case OrE(l, r) => TwoProper(l, r, k, n); ShortProper(e, k, n);
    case CoalesceE(l, r) => TwoProper(l, r, k, n); ShortProper(e, k, n);
    case Conditional(_, _, _) => ConditionalProper(e, k, n);
    case _ =>
  }

  lemma {:induction false} TwoProper(l: Expr, r: Expr, k: nat, n: nat)
    requires SlotsIn(l, n) && SlotsIn(r, n)
    ensures Proper(GenExpr(l, k).code, n, false) && Proper(GenExpr(r, GenExpr(l, k).Next(k)).code, n, false)
    decreases WE(l) + WE(r), 3
  {
    ExprProper(l, k, n);
    ExprProper(r, GenExpr(l, k).Next(k), n);
  }

  lemma InfixProper(e: Expr, k: nat, n: nat)
    requires e.Infix? && SlotsIn(e, n) && Proper(GenExpr(e.l, k).code, n, false)
    requires Proper(GenExpr(e.r, GenExpr(e.l, k).Next(k)).code, n, false)
    ensures Proper(GenExpr(e, k).code, n, false)
  {
  }

  lemma ShortProper(e: Expr, k: nat, n: nat)
    requires e.AndE? || e.OrE? || e.CoalesceE?
    requires Proper(GenExpr(e.l, k).code, n, false) && Proper(GenExpr(e.r, GenExpr(e.l, k).Next(k)).code, n, false)
    ensures Proper(GenExpr(e, k).code, n, false)
  {
    hide Bytes;
  }

  lemma {:induction false} ConditionalProper(e: Expr, k: nat, n: nat)
    requires e.Conditional? && SlotsIn(e, n)
    ensures Proper(GenExpr(e, k).code, n, false)
    decreases WE(e), 1
  {
    hide Bytes, Encode, GenCond, CondConsts;
    var kt := k + |CondConsts(e.c, k)|;
    var gt := GenExpr(e.t, kt);
    CondProper(e.c, false, k, Len(gt.code) + 3, n);
    ExprProper(e.t, kt, n);
    ExprProper(e.f, gt.Next(kt), n);
  }

  lemma {:induction false} CondProper(c: Expr, invert: bool, k: nat, d: nat, n: nat)
    requires SlotsIn(c, n)
    ensures Proper(GenCond(c, invert, k, d).code, n, false)
    decreases WE(c), 3
  {
    hide Bytes, GenExpr;
    if c.Infix? {
      ExprProper(c.l, k, n);
      ExprProper(c.r, GenExpr(c.l, k).Next(k), n);
    }
    ExprProper(c, k, n);
  }

  lemma {:induction false} ExprsProper(es: seq<Expr>, k: nat, n: nat)
    requires forall e :: e in es ==> SlotsIn(e, n)
    ensures Proper(GenExprs(es, k).code, n, false)
  {
    if es != [] {
      ExprProper(es[0], k, n);
      ExprsProper(es[1..], GenExpr(es[0], k).Next(k), n);
    }
  }

  lemma {:induction false} PatternsProper(ps: seq<Expr>, k: nat, skip: nat, n: nat)
    requires forall p :: p in ps ==> SlotsIn(p, n)
    ensures Proper(GenPatterns(ps, k, skip).code, n, false)
  {
    hide Bytes;
    if ps != [] {
      ExprProper(ps[0], k, n);
      PatternsProper(ps[1..], GenExpr(ps[0], k).Next(k), skip, n);
    }
  }

  predicate FinsFormed(S: seq<Scope>, n: nat) { forall i :: 0 <= i < |S| ==> BlockFormed(S[i].fin, n) }

  lemma {:induction false} UnwindProper(S: seq<Scope>, downTo: nat, k: nat, D: Loop, n: nat)
    requires FinsFormed(S, n)
    ensures Proper(Unwind(S, downTo, k, D).code, n, D.InLoop?)
    decreases WS(S), 0, 0
  {
    hide GenBlock;
    if |S| > downTo {
      var c, rest := S[|S| - 1], S[..|S| - 1];
      BlockProper(c.fin, k, rest, D, n);
      UnwindProper(rest, downTo, GenBlock(c.fin, k, rest, D).Next(k), D, n);
    }
  }

  lemma {:induction false} BlockProper(b: seq<Stmt>, k: nat, S: seq<Scope>, D: Loop, n: nat)
    requires BlockFormed(b, n) && FinsFormed(S, n)
    ensures Proper(GenBlock(b, k, S, D).code, n, D.InLoop?)
    decreases WB(b) + WS(S), 4, |b|
  {
    hide GenStmt;
    if b != [] {
      StmtProper(b[0], k, S, D, n);
      BlockProper(b[1..], GenStmt(b[0], k, S, D).Next(k), S, D, n);
    }
  }

  lemma {:induction false} StmtProper(s: Stmt, k: nat, S: seq<Scope>, D: Loop, n: nat)
    requires Formed(s, n) && FinsFormed(S, n)
    ensures Proper(GenStmt(s, k, S, D).code, n, D.InLoop?)
    decreases W(s) + WS(S), 3, 0
  {
    hide GenBlock, GenCond, GenExpr, GenStraight, GenCases, GenWhile, GenTryFinally, GenTryCatch, Unwind, Bytes, Proper;
    match s
    case ReturnS(_) => PartsProper(s, k, S, D, n);
    case If(_, _) => PartsProper(s, k, S, D, n);
    case IfElse(_, _, _) => PartsProper(s, k, S, D, n);
    case While(_, _, _) => WhileProper(s, k, S, D, n);
    case Match(_, _) => PartsProper(s, k, S, D, n);
    case TryFinally(_, _) => TryFinallyProper(s, k, S, D, n);
    case TryCatch(_, _, _, _) => TryCatchProper(s, k, S, D, n);
    case BlockS(b) => BlockProper(b, k, S, D, n);
    case BreakS => JumpProper(s, k, S, D, n);
    case ContinueS => JumpProper(s, k, S, D, n);
    case Pass => StraightProper(s, k, n);
    case ExprStmt(_) => StraightProper(s, k, n);
    case Assign(_, _, _) => StraightProper(s, k, n);
    case AssignOp(_, _, _) => StraightProper(s, k, n);
    case AssignCoalesce(_, _) => StraightProper(s, k, n);
    case Say(_) => StraightProper(s, k, n);
    case ThrowS(_) => StraightProper(s, k, n);
  }

  lemma {:induction false} JumpProper(s: Stmt, k: nat, S: seq<Scope>, D: Loop, n: nat)
    requires (s.BreakS? || s.ContinueS?) && FinsFormed(S, n)
    ensures Proper(GenStmt(s, k, S, D).code, n, D.InLoop?)
    decreases W(s) + WS(S), 2, 0
  {
    hide Unwind;
    if D.InLoop? { UnwindProper(S, D.depth, k, D, n); }
  }

  lemma {:induction false} PartsProper(s: Stmt, k: nat, S: seq<Scope>, D: Loop, n: nat)
    requires (s.ReturnS? || s.If? || s.IfElse? || s.Match?) && Formed(s, n) && FinsFormed(S, n)
    ensures Proper(GenStmt(s, k, S, D).code, n, D.InLoop?)
    decreases W(s) + WS(S), 2, 0
  {
    hide GenBlock, GenCond, GenExpr, GenStraight, GenCases, GenWhile, GenTryFinally, GenTryCatch, Unwind, Bytes,
        CondConsts;
    match s
    case ReturnS(e) => ExprProper(e, k, n); UnwindProper(S, 0, GenExpr(e, k).Next(k), D, n);
    case If(c, b) =>
      var kb := k + |CondConsts(c, k)|;
      CondProper(c, false, k, Len(GenBlock(b, kb, S, D).code), n);
      BlockProper(b, kb, S, D, n);
    case IfElse(c, b, a) =>
      var kb := k + |CondConsts(c, k)|;
      var g := GenBlock(b, kb, S, D);
      CondProper(c, false, k, Len(g.code) + 3, n);
      BlockProper(b, kb, S, D, n);
      StmtProper(a, g.Next(kb), S, D, n);
    case Match(e, cs) => ExprProper(e, k, n); CasesProper(cs, GenExpr(e, k).Next(k), S, D, n);
  }

  lemma StraightProper(s: Stmt, k: nat, n: nat)
    requires Formed(s, n)
    ensures Proper(GenStraight(s, k).code, n, false) && Proper(GenStraight(s, k).code, n, true)
  {
    hide GenExpr, GenExprs, Bytes, Encode;
    match s
    case Assign(_, _, _) => AssignProper(s, k, n);
    case ExprStmt(e) => ExprProper(e, k, n);
    case AssignOp(_, _, _) => AssignProper(s, k, n);
    case AssignCoalesce(_, _) => AssignProper(s, k, n);
    case Say(vs) => ExprsProper(vs, k, n);
    case ThrowS(e) => ExprProper(e, k, n);
    case _ =>
  }

  lemma AssignProper(s: Stmt, k: nat, n: nat)
    requires (s.Assign? || s.AssignOp? || s.AssignCoalesce?) && Formed(s, n)
    ensures Proper(GenStraight(s, k).code, n, false) && Proper(GenStraight(s, k).code, n, true)
  {
    hide GenExpr, Bytes, Encode;
    ExprProper(s.e, k, n);
    if s.Assign? && s.e.Infix? { ExprProper(s.e.r, k, n); }
  }

  lemma {:induction false} WhileProper(s: Stmt, k: nat, S: seq<Scope>, D: Loop, n: nat)
    requires s.While? && Formed(s, n) && FinsFormed(S, n)
    ensures Proper(GenWhile(s, k, S, D).code, n, false) && Proper(GenWhile(s, k, S, D).code, n, true)
    decreases W(s) + WS(S), 2, 0
  {
    hide GenBlock, GenCond, Bytes, Resolve;
    var kb := k + |CondConsts(s.c, k)|;
    var g := GenBlock(s.body, kb, S, InLoop(|S|));
    var f := GenCond(s.c, s.until, k, Len(g.code) + 3);
    CondProper(s.c, s.until, k, Len(g.code) + 3, n);
    BlockProper(s.body, kb, S, InLoop(|S|), n);
    ResolvedIsProper(g.code, n, Len(f.code), 0, Len(f.code) + Len(g.code) + 3);
  }

  lemma {:induction false} CasesProper(cs: seq<Case>, k: nat, S: seq<Scope>, D: Loop, n: nat)
    requires CasesFormed(cs, n) && FinsFormed(S, n)
    ensures Proper(GenCases(cs, k, S, D).code, n, D.InLoop?)
    decreases WC(cs) + WS(S), 4, |cs|
  {
    hide GenBlock, GenPatterns, Bytes, FinsFormed, BlockFormed, WB, WS, Proper;
    var open := D.InLoop?;
    PlainProper(n, open, 0);
    if cs != [] {
      var c := cs[0];
      var kb := if c.Branch? then k + |PatternConsts(c.patterns, k)| else k;
      var g := GenBlock(c.body, kb, S, D);
      var rest := GenCases(cs[1..], g.Next(kb), S, D);
      BlockProper(c.body, kb, S, D, n);
      CasesProper(cs[1..], g.Next(kb), S, D, n);
      PlainProper(n, open, Len(rest.code));
      var body := One(POP).Then(g).Add(JUMP(Len(rest.code)));
      ProperCat([POP], g.code, n, open);
      ProperCat([POP] + g.code, [JUMP(Len(rest.code))], n, open);
      if c.Branch? {
        var ps := GenPatterns(c.patterns, k, Len(body.code));
        PatternsProper(c.patterns, k, Len(body.code), n);
        ProperOpens(ps.code, n, open);
        ProperCat(ps.code, body.code, n, open);
        ProperCat(ps.code + body.code, rest.code, n, open);
      } else {
        ProperCat(body.code, rest.code, n, open);
      }
    }
  }

  lemma ProperCat(a: seq<Instr>, b: seq<Instr>, n: nat, open: bool)
    requires Proper(a, n, open) && Proper(b, n, open)
    ensures Proper(a + b, n, open)
  {
  }

  lemma ProperOpens(a: seq<Instr>, n: nat, open: bool)
    requires Proper(a, n, false)
    ensures Proper(a, n, open)
  {
  }

  lemma PlainProper(n: nat, open: bool, d: nat)
    ensures Proper([POP], n, open) && Proper([JUMP(d)], n, open) && Proper([TRY_PUSH(d)], n, open)
    ensures Proper([TRY_POP], n, open) && Proper([THROW_], n, open)
  {
  }

  lemma FinsPush(S: seq<Scope>, c: Scope, n: nat)
    requires FinsFormed(S, n) && BlockFormed(c.fin, n)
    ensures FinsFormed(S + [c], n)
  {
  }

  lemma {:induction false} TryFinallyProper(s: Stmt, k: nat, S: seq<Scope>, D: Loop, n: nat)
    requires s.TryFinally? && Formed(s, n) && FinsFormed(S, n)
    ensures Proper(GenTryFinally(s, k, S, D).code, n, D.InLoop?)
    decreases W(s) + WS(S), 2, 0
  {
    hide GenBlock, Bytes, FinsFormed, Proper, BlockFormed, Closed, Encode;
    var live := Scope(s.fin, true);
    WSPush(S, live);
    FinsPush(S, live, n);
    BlockProper(s.body, k, S + [live], D, n);
    var g := GenBlock(s.body, k, S + [live], D);
    var f1 := GenBlock(s.fin, g.Next(k), S, D);
    var f2 := GenBlock(s.fin, f1.Next(g.Next(k)), S, D);
    BlockProper(s.fin, g.Next(k), S, D, n);
    BlockProper(s.fin, f1.Next(g.Next(k)), S, D, n);
    FinallyParts(g.code, f1.code, f2.code, n, D.InLoop?);
  }

  lemma FinallyParts(g: seq<Instr>, f1: seq<Instr>, f2: seq<Instr>, n: nat, open: bool)
    requires Proper(g, n, open) && Proper(f1, n, open) && Proper(f2, n, open)
    ensures Proper([TRY_PUSH(Len(g) + 1 + Len(f1) + 3)] + g + [TRY_POP] + f1 + [JUMP(Len(f2) + 1)] + f2 + [THROW_], n,
                   open)
  {
    hide Proper, Bytes;
    var a := [TRY_PUSH(Len(g) + 1 + Len(f1) + 3)] + g;
    PlainProper(n, open, Len(g) + 1 + Len(f1) + 3);
    PlainProper(n, open, Len(f2) + 1);
    ProperCat([TRY_PUSH(Len(g) + 1 + Len(f1) + 3)], g, n, open);
    ProperCat(a, [TRY_POP], n, open);
    ProperCat(a + [TRY_POP], f1, n, open);
    var b := a + [TRY_POP] + f1;
    ProperCat(b, [JUMP(Len(f2) + 1)], n, open);
    ProperCat(b + [JUMP(Len(f2) + 1)], f2, n, open);
    ProperCat(b + [JUMP(Len(f2) + 1)] + f2, [THROW_], n, open);
  }

  lemma {:induction false} TryCatchProper(s: Stmt, k: nat, S: seq<Scope>, D: Loop, n: nat)
    requires s.TryCatch? && Formed(s, n) && FinsFormed(S, n)
    ensures Proper(GenTryCatch(s, k, S, D).code, n, D.InLoop?)
    decreases W(s) + WS(S), 2, 0
  {
    hide GenBlock, Bytes, FinsFormed, BlockFormed, Closed, Encode, Proper;
    var live, dead := Scope(s.fin, true), Scope(s.fin, false);
    WSPush(S, live); WSPush(S, dead);
    FinsPush(S, live, n); FinsPush(S, dead, n);
    var g := GenBlock(s.body, k, S + [live], D);
    var h := GenBlock(s.catchBody, g.Next(k), S + [dead], D);
    var f := GenBlock(s.fin, h.Next(g.Next(k)), S, D);
    BlockProper(s.body, k, S + [live], D, n);
    BlockProper(s.catchBody, g.Next(k), S + [dead], D, n);
    BlockProper(s.fin, h.Next(g.Next(k)), S, D, n);
    CatchParts(g.code, h.code, f.code, s.slot, n, D.InLoop?);
  }

  lemma CatchParts(g: seq<Instr>, h: seq<Instr>, f: seq<Instr>, slot: nat, n: nat, open: bool)
    requires Proper(g, n, open) && Proper(h, n, open) && Proper(f, n, open) && slot < n
    ensures Proper([TRY_PUSH(Len(g) + 4)] + g + [TRY_POP] + [JUMP(3 + Len(h))] + [SET_LOCAL(slot)] + h + f, n, open)
  {
    hide Proper, Bytes;
    var a := [TRY_PUSH(Len(g) + 4)] + g;
    PlainProper(n, open, Len(g) + 4);
    PlainProper(n, open, 3 + Len(h));
    ProperCat([TRY_PUSH(Len(g) + 4)], g, n, open);
    ProperCat(a, [TRY_POP], n, open);
    ProperCat(a + [TRY_POP], [JUMP(3 + Len(h))], n, open);
    var b := a + [TRY_POP] + [JUMP(3 + Len(h))];
    assert Proper([SET_LOCAL(slot)], n, open) by { SetProper(slot, n, open); }
    ProperCat(b, [SET_LOCAL(slot)], n, open);
    ProperCat(b + [SET_LOCAL(slot)], h, n, open);
    ProperCat(b + [SET_LOCAL(slot)] + h, f, n, open);
  }

  lemma SetProper(slot: nat, n: nat, open: bool)
    requires slot < n
    ensures Proper([SET_LOCAL(slot)], n, open)
  {
  }

  // ---------------------------------------------------------------- functions

  /** The compiled form of a function body. */
  function Compiled(body: seq<Stmt>): Chunk {
    Chunk(Bytes(GenFunction(body).code), GenFunction(body).consts)
  }

  /** A call's start: its slots hold `locals`, below it the stack is the caller's. */
  function Entry(locals: seq<Value>, stack: seq<Value>): VM { Running(0, stack, locals, [], []) }

  /** What a function's run ends with. */
  function Result(o: Outcome): VM
    requires o.Normal? || o.Return? || o.Throw?
  {
    match o
    case Normal(st) => Returned(Null, st.locals, st.out)
    case Return(v, st) => Returned(v, st.locals, st.out)
    case Throw(v, st) => Uncaught(v, st.locals, st.out)
  }

  lemma FunctionProper(body: seq<Stmt>, n: nat)
    requires BlockFormed(body, n)
    ensures Proper(GenFunction(body).code, n, false)
  {
    hide GenBlock;
    BlockProper(body, 0, [], NoLoop, n);
  }

  lemma FunctionStands(body: seq<Stmt>, n: nat)
    requires BlockFormed(body, n)
    ensures var f := GenBlock(body, 0, [], NoLoop);
      var ch := Compiled(body);
      var x := Site(ch, 0, |ch.code|);
      && Stands(x, 0, f, 0)
      && Stands(x, Len(f.code), One(NIL), |f.consts|)
      && Stands(x, Len(f.code) + 1, One(RETURN), |f.consts|)
  {
    hide Bytes, GenBlock, Resolve;
    var f := GenBlock(body, 0, [], NoLoop);
    var ch := Compiled(body);
    var whole := f.Add(NIL).Add(RETURN);
    var x := Site(ch, 0, |ch.code|);
    FunctionProper(body, n);
    ProperStays(whole.code, n, 0, To(0), To(x.brk));
    assert Stands(x, 0, whole, 0) by {
      assert ch.code[0..|ch.code|] == ch.code;
      assert ch.consts[0..|ch.consts|] == ch.consts;
    }
    OpSize(NIL);
    StandsAdd(x, 0, f.Add(NIL), RETURN, 0);
    StandsAdd(x, 0, f, NIL, 0);
  }

  /** Compiled code does what the function body means: it returns, throws and says the same, and goes
      on for as long as the body does. */
  lemma FunctionRuns(body: seq<Stmt>, locals: seq<Value>, stack: seq<Value>, fuel: nat)
    requires BlockFormed(body, |locals|)
    ensures var o := ExecBlock(body, Store(locals, [], []), fuel, false, false);
      var ch := Compiled(body);
      && (o.Ends() ==> !o.Break? && !o.Continue? && exists n: nat :: Run(ch, Entry(locals, stack), n) == Result(o))
      && (o.Diverges? ==> exists n: nat :: n >= fuel && Run(ch, Entry(locals, stack), n).Running?)
  {
    hide Bytes, GenBlock, Resolve, Stands, ExecBlock, Step, Fetch;
    var st := Store(locals, [], []);
    var ch := Compiled(body);
    var x := Site(ch, 0, |ch.code|);
    var s := Entry(locals, stack);
    var base := Base(stack, []);
    var f := GenBlock(body, 0, [], NoLoop);
    FunctionStands(body, |locals|);
    BlockRuns(x, s, st, body, 0, [], NoLoop, fuel);
    var o := ExecBlock(body, st, fuel, false, false);
    match o {
      case Normal(st1) =>
        var t := base.At(Len(f.code), st1);
        OneStep(x, t, NIL, |f.consts|);
        var u := Pushed(t, 1, Null);
        OpSize(NIL);
        Trans(ch, s, t, u, 0, 1);
        ReturnStep(x, s, u, Null, |f.consts|);
      case Return(v, st1) =>
        var w :| ReturnsVia(w, ch, s, base, [], v, st1);
        assert Unwind([], 0, w.k, w.D).Add(RETURN) == One(RETURN);
        ReturnStep(w.x, s, w.t, v, w.k);
      case _ =>
    }
  }

  lemma ReturnStep(x: Site, s: VM, t: VM, v: Value, k: nat)
    requires t.Running? && Goes(x.ch, s, t, 0) && Stands(x, t.pc, One(RETURN), k)
    requires t.stack != [] && t.stack[|t.stack| - 1] == v
    ensures exists n: nat :: Run(x.ch, s, n) == Returned(v, t.locals, t.out)
  {
    hide Stands;
    OneStep(x, t, RETURN, k);
    var u := Returned(v, t.locals, t.out);
    assert Perform(x.ch, t, RETURN, t.pc + Size(RETURN)) == u;
    Trans(x.ch, s, t, u, 0, 1);
  }

  lemma {:induction false} Finished(ch: Chunk, s: VM, n: nat)
    requires !s.Running?
    ensures Run(ch, s, n) == s
  {
    if n > 0 { Finished(ch, s, n - 1); }
  }

  /** Two runs of the machine from the same start cannot end differently. */
  lemma EndIsUnique(ch: Chunk, s: VM, m: nat, n: nat)
    requires !Run(ch, s, m).Running? && (n >= m || !Run(ch, s, n).Running?)
    ensures Run(ch, s, n) == Run(ch, s, m)
  {
    if n >= m {
      RunAdd(ch, s, m, n - m);
      Finished(ch, Run(ch, s, m), n - m);
    } else {
      RunAdd(ch, s, n, m - n);
      Finished(ch, Run(ch, s, n), m - n);
    }
  }

  /** And conversely: once the machine has stopped, the body's meaning - given fuel for more rounds
      than that - is what it stopped with, unless the meaning of some operation is not modelled. */
  lemma FunctionStops(body: seq<Stmt>, locals: seq<Value>, stack: seq<Value>, n: nat, fuel: nat)
    requires BlockFormed(body, |locals|) && fuel > n
    requires !Run(Compiled(body), Entry(locals, stack), n).Running?
    ensures var o := ExecBlock(body, Store(locals, [], []), fuel, false, false);
      o.Unmodelled? || (o.Ends() && !o.Break? && !o.Continue?
        && Run(Compiled(body), Entry(locals, stack), n) == Result(o))
  {
    hide ExecBlock, Step;
    FunctionRuns(body, locals, stack, fuel);
    var o := ExecBlock(body, Store(locals, [], []), fuel, false, false);
    var ch, s := Compiled(body), Entry(locals, stack);
    if o.Ends() {
      var m: nat :| Run(ch, s, m) == Result(o);
      EndIsUnique(ch, s, m, n);
    } else if o.Diverges? {
      var m: nat :| m >= fuel && Run(ch, s, m).Running?;
      EndIsUnique(ch, s, n, m);
      assert false;
    }
  }

  /** The machine runs every `finally` exactly once on the way out of its `try`, innermost first, if
      and only if in the run the program asks for - every `finally` on every way out - no catch block
      throws past its `finally`; then it returns, throws and says what that run does. */
  lemma FinallyRuns(body: seq<Stmt>, locals: seq<Value>, stack: seq<Value>, fuel: nat)
    requires BlockFormed(body, |locals|)
    ensures var o := ExecBlock(body, Store(locals, [], []), fuel, false, false);
      var p := ExecBlock(body, Store(locals, [], []), fuel, false, true);
      && (o.Ends() ==> !o.Break? && !o.Continue? && exists n: nat ::
            Run(Compiled(body), Entry(locals, stack), n) == Result(o))
      && (o.Ends() ==> (Nested(o.store.marks) <==> o == p))
      && (p.Ends() ==> Nested(p.store.marks) && (o == p <==> Escapes(p.store.marks) == 0))
  {
    hide ExecBlock, Step;
    NestedExactly(body, locals, fuel);
    FunctionRuns(body, locals, stack, fuel);
  }

  /** A condition that can be read off the body: where no catch block in front of a `finally` contains
      anything that raises, the machine runs every `finally` exactly once, whatever the inputs. */
  lemma CoveredFinallyRuns(body: seq<Stmt>, locals: seq<Value>, stack: seq<Value>, fuel: nat)
    requires BlockFormed(body, |locals|) && CoveredBlock(body, false)
    ensures var p := ExecBlock(body, Store(locals, [], []), fuel, false, true);
      && (p.Ends() ==> !p.Break? && !p.Continue? && exists n: nat ::
            Run(Compiled(body), Entry(locals, stack), n) == Result(p))
      && (p.Ends() ==> Nested(p.store.marks))
      && (p.Diverges? ==> exists n: nat :: n >= fuel && Run(Compiled(body), Entry(locals, stack), n).Running?)
  {
    hide ExecBlock, Step;
    CoveredNests(body, locals, fuel);
    FunctionRuns(body, locals, stack, fuel);
  }

  /** And it is needed: whatever catch block throws for some state, and whatever its `finally`, there is
      a `try` before the two and a call for which the machine stops at the catch block's error, and the
      `finally` is never started. */
  lemma CatchThrowSkipsFinally(slot: nat, catchBody: seq<Stmt>, fin: seq<Stmt>, locals: seq<Value>,
                               stack: seq<Value>, fuel: nat)
    requires slot < |locals| && locals[slot].IsText() && fin != [] && Closed(fin)
    requires BlockFormed(catchBody, |locals|) && BlockFormed(fin, |locals|)
    requires ExecBlock(catchBody, Store(locals, [], [Opened(fin)]), fuel, false, false).Throw?
    ensures var c := ExecBlock(catchBody, Store(locals, [], [Opened(fin)]), fuel, false, false);
      var body := ThrowsInto(slot, catchBody, fin);
      && BlockFormed(body, |locals|)
      && (exists n: nat ::
            Run(Compiled(body), Entry(locals, stack), n) == Uncaught(c.value, c.store.locals, c.store.out))
      && var o := ExecBlock(body, Store(locals, [], []), fuel, false, false);
         o.Throw? && !Nested(o.store.marks)
  {
    hide Step, ExecBlock, Run;
    var body := ThrowsInto(slot, catchBody, fin);
    Escapee(slot, catchBody, fin, locals, fuel);
    FunctionRuns(body, locals, stack, fuel);
    NestedExactly(body, locals, fuel);
    EscapedIsNotNested(body, locals, fuel);
  }

  /** A body that throws the text in `slot`, which is where its catch block puts it. */
  function ThrowsInto(slot: nat, catchBody: seq<Stmt>, fin: seq<Stmt>): seq<Stmt> {
    [TryCatch([ThrowS(Name(slot))], slot, catchBody, fin)]
  }

  lemma Escapee(slot: nat, catchBody: seq<Stmt>, fin: seq<Stmt>, locals: seq<Value>, fuel: nat)
    requires slot < |locals| && locals[slot].IsText() && fin != [] && Closed(fin)
    requires BlockFormed(catchBody, |locals|) && BlockFormed(fin, |locals|)
    requires ExecBlock(catchBody, Store(locals, [], [Opened(fin)]), fuel, false, false).Throw?
    ensures var c := ExecBlock(catchBody, Store(locals, [], [Opened(fin)]), fuel, false, false);
      var body := ThrowsInto(slot, catchBody, fin);
      BlockFormed(body, |locals|)
      && ExecBlock(body, Store(locals, [], []), fuel, false, false) ==
           Outcome.Throw(c.value, c.store.(marks := c.store.marks + [Escaped(fin)]))
  {
    hide ExecBlock;
    var st, st1 := Store(locals, [], []), Store(locals, [], [Opened(fin)]);
    assert Note(Opened(fin), st) == st1;
    OneThrow(slot, st1, fuel, false);
    assert locals[slot := locals[slot]] == locals;
    OneStatement(ThrowsInto(slot, catchBody, fin)[0], st, fuel, false);
  }

  lemma EscapedIsNotNested(b: seq<Stmt>, locals: seq<Value>, fuel: nat)
    requires BlockFormed(b, |locals|)
    requires var o := ExecBlock(b, Store(locals, [], []), fuel, false, false);
      o.Ends() && o.store.marks != [] && o.store.marks[|o.store.marks| - 1].Escaped?
    ensures !Nested(ExecBlock(b, Store(locals, [], []), fuel, false, false).store.marks)
  {
    hide ExecBlock;
    FollowsBlock(b, Store(locals, [], []), fuel, false);
    OwedIsBalance(ExecBlock(b, Store(locals, [], []), fuel, false, false).store.marks);
  }

  lemma OneThrow(slot: nat, st: Store, fuel: nat, std: bool)
    requires slot < |st.locals| && st.locals[slot].IsText()
    ensures var b := [ThrowS(Name(slot))];
      BlockFormed(b, |st.locals|) && ExecBlock(b, st, fuel, false, std) == Outcome.Throw(st.locals[slot], st)
  {
    var b := [ThrowS(Name(slot))];
    assert b[1..] == [];
    assert Exec(b[0], st, fuel, false, std) == Outcome.Throw(st.locals[slot], st);
  }

  lemma OneStatement(s: Stmt, st: Store, fuel: nat, std: bool)
    requires s.TryCatch? && Formed(s, |st.locals|)
    ensures BlockFormed([s], |st.locals|)
    ensures ExecBlock([s], st, fuel, false, std) ==
      ExecCatch(s, ExecBlock(s.body, Note(Opened(s.fin), st), fuel, false, std), fuel, false, std, |st.locals|)
  {
    hide ExecCatch;
    assert [s][0] == s && [s][1..] == [];
  }

  /** An input for which it fails: the `finally` block should say 3, and does not. */
  lemma ThreeIsNotSaid(v: Value)
    ensures var body := ThrowsInto(0, [ThrowS(IntLit(2))], [Stmt.Say([IntLit(3)])]);
      var t := Shown(v);
      && BlockFormed(body, 1)
      && (exists n: nat :: Run(Compiled(body), Entry([t], []), n) == Uncaught(Shown(Int(2)), [t], []))
      && var p := ExecBlock(body, Store([t], [], []), 0, false, true);
         p.Throw? && p.value == Shown(Int(2)) && p.store.out == [Int(3)]
  {
    hide Step, ExecBlock, Run, ExecCatch, BlockFormed;
    var fin, catches, t := [Stmt.Say([IntLit(3)])], [ThrowS(IntLit(2))], Shown(v);
    var st, st1 := Store([t], [], []), Store([t], [], [Opened(fin)]);
    Throws2(st1, false); Throws2(st1, true);
    Says3(Store([t], [], [Opened(fin), Escaped(fin), Ran(fin)]), true);
    CatchThrowSkipsFinally(0, catches, fin, [t], [], 0);
    ReferenceSays3(v, st, st1);
  }

  lemma ReferenceSays3(v: Value, st: Store, st1: Store)
    requires var fin := [Stmt.Say([IntLit(3)])];
      st == Store([Shown(v)], [], []) && st1 == Store([Shown(v)], [], [Opened(fin)])
    ensures var body := ThrowsInto(0, [ThrowS(IntLit(2))], [Stmt.Say([IntLit(3)])]);
      && BlockFormed(body, 1)
      && var p := ExecBlock(body, st, 0, false, true);
         p.Throw? && p.value == Shown(Int(2)) && p.store.out == [Int(3)]
  {
    hide ExecBlock, BlockFormed;
    var fin, t := [Stmt.Say([IntLit(3)])], Shown(v);
    var s := ThrowsInto(0, [ThrowS(IntLit(2))], fin)[0];
    var st2 := Store([t], [], [Opened(fin), Escaped(fin)]);
    var st3 := Store([t], [], [Opened(fin), Escaped(fin), Ran(fin)]);
    assert Note(Opened(fin), st) == st1 && Note(Escaped(fin), st1) == st2 && Note(Ran(fin), st2) == st3;
    OneThrow(0, st1, 0, true);
    Throws2(st1, true);
    Says3(st3, true);
    assert [t][0 := t] == [t];
    OneStatement(s, st, 0, true);
  }

  lemma Throws2(st: Store, std: bool)
    requires |st.locals| == 1
    ensures var b := [ThrowS(IntLit(2))];
      BlockFormed(b, 1) && ExecBlock(b, st, 0, false, std) == Outcome.Throw(Shown(Int(2)), st)
  {
    var b := [ThrowS(IntLit(2))];
    assert b[1..] == [];
    assert Exec(b[0], st, 0, false, std) == Outcome.Throw(Shown(Int(2)), st);
  }

  lemma Says3(st: Store, std: bool)
    requires |st.locals| == 1
    ensures var b := [Stmt.Say([IntLit(3)])];
      && BlockFormed(b, 1) && Closed(b) && ExecBlock(b, st, 0, false, std) == Normal(st.(out := st.out + [Int(3)]))
  {
    var b := [Stmt.Say([IntLit(3)])];
    assert b[1..] == [];
    assert EvalAll([IntLit(3)], st.locals) == Vals([Int(3)]);
    assert Exec(b[0], st, 0, false, std) == Normal(st.(out := st.out + [Int(3)]));
  }
}
