/** Every `continue` jumps back to its loop's start, so the code from there to behind the `continue` is a
 region as well.  It is regular, too, if no conditional expression stands in the loop. */
module JitContinues {
  import opened Bytecode
  import opened Tree
  import opened Codegen
  import opened CodegenLayout
  import opened CodegenExits
  import opened CodegenMain
  import opened JitWords
  import opened JitMachine
  import opened JitRegion
  import opened JitRuns
  import opened JitLoops
  import opened Options

  // ---------------------------------------------------------------- code up to an instruction

  /** Addresses from `from` to `to`. */
  function Span(from: int, to: int): set<int> { set t: int | from <= t <= to && Between(t, from, to) }

  predicate Between(t: int, from: int, to: int) { from <= t <= to }

  /** The first `p` instructions start and end without operands and fit, if the first pass lets them
      through; their jumps may lead behind them, up to `limit`. */
  ghost predicate UpTo(code: seq<Instr>, p: nat, limit: int) {
    p <= |code| && (Walks(code[..p], 0) ==>
      Fitting(code[..p], 0, Span(Len(code[..p]), limit)) && Dep(code[..p], 0) == 0)
  }

  lemma FittingMore(code: seq<Instr>, d: nat, outs: set<int>, more: set<int>)
    requires Fitting(code, d, outs) && outs <= more
    ensures Fitting(code, d, more)
  {
    hide Dep, Arrive, Needs, LeadsTo;
    forall j: nat | j < |code| ensures StepFits(code, d, j, more) { assert StepFits(code, d, j, outs); }
  }

  lemma UpToFurther(code: seq<Instr>, p: nat, limit: int, limit2: int)
    requires UpTo(code, p, limit) && limit <= limit2
    ensures UpTo(code, p, limit2)
  {
    hide Walks, Fitting, Dep, Bytes;
    if Walks(code[..p], 0) {
      FittingMore(code[..p], 0, Span(Len(code[..p]), limit), Span(Len(code[..p]), limit2));
    }
  }

  lemma UpToFirst(a: seq<Instr>, b: seq<Instr>, p: nat, limit: int)
    requires UpTo(a, p, limit)
    ensures UpTo(a + b, p, limit)
  {
    assert (a + b)[..p] == a[..p];
  }

  /** Behind code that jumps no further than `limit`. */
  lemma UpToBehind(a: seq<Instr>, b: seq<Instr>, p: nat, over: int, limit: int)
    requires Walks(a, 0) ==> Fitting(a, 0, {over}) && Dep(a, 0) == 0
    requires UpTo(b, p, limit - Len(a)) && Len(a) + Len(b) <= over <= limit
    ensures UpTo(a + b, |a| + p, limit)
  {
    hide Walks, Fitting, Dep, Bytes, Arrive;
    var c := a + b[..p];
    PrefixBehind(a, b, p);
    WalksCat(a, b[..p], 0);
    if Walks(c, 0) {
      DepCat(a, b[..p], 0);
      LenCat(a, b[..p]);
      UpToShort(b, p);
      FittingCat(a, b[..p], 0, {over}, Span(Len(b[..p]), limit - Len(a)), Span(Len(c), limit));
    }
  }

  lemma UpToShort(b: seq<Instr>, p: nat)
    requires p <= |b|
    ensures Len(b[..p]) <= Len(b)
  {
    assert b == b[..p] + b[p..];
    LenCat(b[..p], b[p..]);
  }

  lemma UpToSecond(a: seq<Instr>, b: seq<Instr>, p: nat, limit: int)
    requires Rests(a) && UpTo(b, p, limit - Len(a)) && Len(a) + Len(b) <= limit
    ensures UpTo(a + b, |a| + p, limit)
  {
    hide Walks, Fitting, Dep, Bytes;
    if Walks(a, 0) { FittingMore(a, 0, {}, {limit}); }
    UpToBehind(a, b, p, limit, limit);
  }

  lemma UpToWhole(code: seq<Instr>, limit: int)
    requires Rests(code)
    ensures UpTo(code, |code|, limit)
  {
    hide Walks, Fitting, Dep, Bytes;
    assert code[..|code|] == code;
    if Walks(code, 0) { FittingMore(code, 0, {}, Span(Len(code), limit)); }
  }

  lemma UpToStopped(code: seq<Instr>, p: nat, j: nat, limit: int)
    requires j < p <= |code| && !Supported(code[j]) && !Hole(code[j])
    ensures UpTo(code, p, limit)
  {
    hide Walks, Fitting, Dep, Bytes, Supported;
    assert code[..p][j] == code[j];
    Stops(code[..p], 0, code[j]);
  }

  // ---------------------------------------------------------------- where there is no `continue`

  predicate NoJump(code: seq<Instr>) { forall i :: i in code ==> !i.ContJ? }

  lemma ProperNoJump(code: seq<Instr>, n: nat)
    requires Proper(code, n, false)
    ensures NoJump(code)
  {
  }

  lemma ScopesFins(S: seq<Scope>, n: nat)
    requires ScopesFormed(S, n)
    ensures FinsFormed(S, n)
  {
  }

  lemma {:induction false} UnwindNoJump(S: seq<Scope>, downTo: nat, k: nat, D: Loop, n: nat)
    requires ScopesFormed(S, n)
    ensures NoJump(Unwind(S, downTo, k, D).code)
    decreases |S|
  {
    hide GenBlock;
    if |S| > downTo {
      var c, rest := S[|S| - 1], S[..|S| - 1];
      assert ScopeFormed(c, n);
      ScopesFins(rest, n);
      ClosedCode(c.fin, k, rest, D, n);
      BlockProper(c.fin, k, rest, NoLoop, n);
      ProperNoJump(GenBlock(c.fin, k, rest, D).code, n);
      UnwindNoJump(rest, downTo, GenBlock(c.fin, k, rest, D).Next(k), D, n);
    }
  }

  lemma BreakNoJump(k: nat, S: seq<Scope>)
    ensures NoJump(GenStmt(BreakS, k, S, InLoop(|S|)).code)
  {
    assert [] + [BreakJ] == [BreakJ];
  }

  lemma ReturnNoJump(s: Stmt, k: nat, S: seq<Scope>, D: Loop, n: nat)
    requires s.ReturnS? && Formed(s, n) && ScopesFormed(S, n)
    ensures NoJump(GenStmt(s, k, S, D).code)
  {
    hide GenExpr, Unwind;
    var f := GenExpr(s.e, k);
    ExprProper(s.e, k, n);
    ProperNoJump(f.code, n);
    UnwindNoJump(S, 0, f.Next(k), D, n);
  }

  // ---------------------------------------------------------------- statements

  /** Up to a `continue` of the innermost loop, code fits. */
  lemma {:induction false} BlockUpTo(b: seq<Stmt>, k: nat, S: seq<Scope>, n: nat, q: nat)
    requires BlockChoiceFree(b) && BlockFormed(b, n) && ScopesFormed(S, n)
    requires var c := GenBlock(b, k, S, InLoop(|S|)).code; q < |c| && c[q].ContJ?
    ensures var c := GenBlock(b, k, S, InLoop(|S|)).code; UpTo(c, q + 1, Len(c))
    decreases WB(b), 1
  {
    hide UpTo, GenStmt, ChoiceFree, Rests, Bytes;
    var D := InLoop(|S|);
    var f := GenStmt(b[0], k, S, D);
    var g := GenBlock(b[1..], f.Next(k), S, D);
    LenCat(f.code, g.code);
    if q < |f.code| {
      StmtUpTo(b[0], k, S, n, q);
      UpToFirst(f.code, g.code, q + 1, Len(f.code));
      UpToFurther(f.code + g.code, q + 1, Len(f.code), Len(f.code + g.code));
    } else {
      StmtFits(b[0], k, S);
      BlockUpTo(b[1..], f.Next(k), S, n, q - |f.code|);
      UpToSecond(f.code, g.code, q + 1 - |f.code|, Len(f.code + g.code));
    }
  }

  lemma {:induction false} StmtUpTo(s: Stmt, k: nat, S: seq<Scope>, n: nat, q: nat)
    requires ChoiceFree(s) && Formed(s, n) && ScopesFormed(S, n)
    requires var c := GenStmt(s, k, S, InLoop(|S|)).code; q < |c| && c[q].ContJ?
    ensures var c := GenStmt(s, k, S, InLoop(|S|)).code; UpTo(c, q + 1, Len(c))
    decreases W(s), 0
  {
    hide UpTo, Supported, GenBlock, GenCond, GenExpr, GenStraight, GenWhile, GenCases, CondConsts, Bytes;
    hide GenTryFinally, GenTryCatch, BlockChoiceFree, CasesChoiceFree, NoChoice, BlockFormed, CasesFormed, SlotsIn;
    var D := InLoop(|S|);
    var code := GenStmt(s, k, S, D).code;
    ScopesFins(S, n);
    match s
    case BreakS => BreakNoJump(k, S);
    case ContinueS =>
      assert [] + [ContJ] == [ContJ];
      HoleFits(ContJ);
      UpToWhole([ContJ], Len(code));
    case ReturnS(_) => ReturnNoJump(s, k, S, D, n);
    case If(c, b) => GuardedUpTo(c, b, k, S, n, 0, q);
    case IfElse(_, _, _) => IfElseUpTo(s, k, S, n, q, code);
    case While(_, _, _) => WhileProper(s, k, S, D, n); ProperNoJump(code, n);
    case Match(_, _) => MatchUpTo(s, k, S, n, q);
    case TryFinally(_, _) => TryUpTo(s, k, S, D, q);
    case TryCatch(_, _, _, _) => TryUpTo(s, k, S, D, q);
    case BlockS(b) => BlockUpTo(b, k, S, n, q);
    case Pass => StraightProper(s, k, n); ProperNoJump(code, n);
    case ExprStmt(_) => StraightProper(s, k, n); ProperNoJump(code, n);
    case Assign(_, _, _) => StraightProper(s, k, n); ProperNoJump(code, n);
    case AssignOp(_, _, _) => StraightProper(s, k, n); ProperNoJump(code, n);
    case AssignCoalesce(_, _) => StraightProper(s, k, n); ProperNoJump(code, n);
    case Say(_) => StraightProper(s, k, n); ProperNoJump(code, n);
    case ThrowS(_) => StraightProper(s, k, n); ProperNoJump(code, n);
  }

  /** A condition, its jump leading `more` bytes behind the block. */
  lemma {:induction false} GuardedUpTo(c: Expr, b: seq<Stmt>, k: nat, S: seq<Scope>, n: nat, more: nat, q: nat)
    requires NoChoice(c) && SlotsIn(c, n) && BlockChoiceFree(b) && BlockFormed(b, n) && ScopesFormed(S, n)
    requires var g := GenBlock(b, k + |CondConsts(c, k)|, S, InLoop(|S|)).code;
      var whole := GenCond(c, false, k, Len(g) + more).code + g;
      q < |whole| && whole[q].ContJ?
    ensures var g := GenBlock(b, k + |CondConsts(c, k)|, S, InLoop(|S|)).code;
      var whole := GenCond(c, false, k, Len(g) + more).code + g;
      UpTo(whole, q + 1, Len(whole) + more)
    decreases WB(b), 2
  {
    hide UpTo, GenBlock, GenCond, CondConsts, Bytes, Walks, Fitting, Dep;
    var kb := k + |CondConsts(c, k)|;
    var g := GenBlock(b, kb, S, InLoop(|S|)).code;
    var f := GenCond(c, false, k, Len(g) + more).code;
    CondProper(c, false, k, Len(g) + more, n);
    ProperNoJump(f, n);
    LenCat(f, g);
    CondFits(c, false, k, Len(g) + more);
    BlockUpTo(b, kb, S, n, q - |f|);
    var end := Len(f) + Len(g) + more;
    UpToFurther(g, q + 1 - |f|, Len(g), end - Len(f));
    UpToBehind(f, g, q + 1 - |f|, end, end);
  }

  lemma {:induction false} IfElseUpTo(s: Stmt, k: nat, S: seq<Scope>, n: nat, q: nat, code: seq<Instr>)
    requires s.IfElse? && ChoiceFree(s) && Formed(s, n) && ScopesFormed(S, n)
    requires code == GenStmt(s, k, S, InLoop(|S|)).code && q < |code| && code[q].ContJ?
    ensures UpTo(code, q + 1, Len(code))
    decreases WB(s.body) + W(s.alt), 3
  {
    hide UpTo, GenStmt, GenBlock, GenCond, CondConsts, Bytes, NoChoice, BlockChoiceFree, BlockFormed, SlotsIn, Walks,
        Fitting, Dep, ScopesFormed;
    var kb := k + |CondConsts(s.c, k)|;
    var g := GenBlock(s.body, kb, S, InLoop(|S|));
    var h := GenStmt(s.alt, g.Next(kb), S, InLoop(|S|)).code;
    var fg := GenCond(s.c, false, k, Len(g.code) + 3).code + g.code;
    IfElseCode(s, k, S, InLoop(|S|));
    if q < |fg| {
      GuardedUpTo(s.c, s.body, k, S, n, 3, q);
      FirstWay(fg, h, q + 1, code);
    } else {
      StmtUpTo(s.alt, g.Next(kb), S, n, q - |fg| - 1);
      BothWays(s, k, S, Len(h));
      SecondWay(fg, h, q - |fg|, q + 1, code);
    }
  }

  lemma IfElseCode(s: Stmt, k: nat, S: seq<Scope>, D: Loop)
    requires s.IfElse?
    ensures var kb := k + |CondConsts(s.c, k)|;
      var g := GenBlock(s.body, kb, S, D);
      var h := GenStmt(s.alt, g.Next(kb), S, D).code;
      GenStmt(s, k, S, D).code == GenCond(s.c, false, k, Len(g.code) + 3).code + g.code + [JUMP(Len(h))] + h
  {
    hide GenBlock, GenCond, CondConsts, Bytes;
  }

  lemma FirstWay(fg: seq<Instr>, h: seq<Instr>, p: nat, code: seq<Instr>)
    requires UpTo(fg, p, Len(fg) + 3) && code == fg + [JUMP(Len(h))] + h
    ensures UpTo(code, p, Len(code))
  {
    hide UpTo, Bytes;
    var j := JUMP(Len(h));
    LenCat(fg + [j], h); LenCat(fg, [j]);
    BytesOne(j);
    JumpSize(j);
    UpToFirst(fg, [j], p, Len(fg) + 3);
    UpToFirst(fg + [j], h, p, Len(fg) + 3);
    UpToFurther(code, p, Len(fg) + 3, Len(code));
  }

  lemma SecondWay(fg: seq<Instr>, h: seq<Instr>, p: nat, q: nat, code: seq<Instr>)
    requires var a := fg + [JUMP(Len(h))]; Walks(a, 0) ==> Fitting(a, 0, {Len(a) + Len(h)}) && Dep(a, 0) == 0
    requires UpTo(h, p, Len(h)) && q == |fg| + 1 + p && code == fg + [JUMP(Len(h))] + h
    ensures UpTo(code, q, Len(code))
  {
    hide UpTo, Bytes, Walks, Fitting, Dep;
    var a := fg + [JUMP(Len(h))];
    LenCat(a, h);
    UpToBehind(a, h, p, Len(code), Len(code));
  }

  /** A condition, its block, and the jump over the other way. */
  lemma BothWays(s: Stmt, k: nat, S: seq<Scope>, over: nat)
    requires s.IfElse? && NoChoice(s.c) && BlockChoiceFree(s.body)
    ensures var g := GenBlock(s.body, k + |CondConsts(s.c, k)|, S, InLoop(|S|)).code;
      var a := GenCond(s.c, false, k, Len(g) + 3).code + g + [JUMP(over)];
      Walks(a, 0) ==> Fitting(a, 0, {Len(a) + over}) && Dep(a, 0) == 0
  {
    hide GenBlock, GenCond, CondConsts, Bytes, NoChoice, BlockChoiceFree, Walks, Fitting, Dep, Arrive;
    var kb := k + |CondConsts(s.c, k)|;
    var g := GenBlock(s.body, kb, S, InLoop(|S|)).code;
    var f, j := GenCond(s.c, false, k, Len(g) + 3).code, JUMP(over);
    var fg := f + g;
    var a := fg + [j];
    CondFits(s.c, false, k, Len(g) + 3);
    BlockFits(s.body, kb, S);
    WalksCat(fg, [j], 0); WalksCat(f, g, 0);
    if Walks(a, 0) {
      var at := Len(f) + (Len(g) + 3);
      DepCat(f, g, 0);
      FittingCat(f, g, 0, {at}, {}, {at});
      WalksOne(j, 0);
      FittingJump(j, 0);
      LenCat(f, g); LenCat(fg, [j]);
      DepCat(fg, [j], 0);
      ArriveEnd(a, 0);
      FittingCat(fg, [j], 0, {at}, {3 + over}, {at + over});
    }
  }

  lemma TryUpTo(s: Stmt, k: nat, S: seq<Scope>, D: Loop, q: nat)
    requires s.TryFinally? || s.TryCatch?
    requires var c := GenStmt(s, k, S, D).code; q < |c| && c[q].ContJ?
    ensures var c := GenStmt(s, k, S, D).code; UpTo(c, q + 1, Len(c))
  {
    hide UpTo, Supported, GenBlock, Bytes;
    Unsupported();
    var code := GenStmt(s, k, S, D).code;
    assert code[0].TRY_PUSH?;
    UpToStopped(code, q + 1, 0, Len(code));
  }

  // ---------------------------------------------------------------- match

  lemma {:induction false} MatchUpTo(s: Stmt, k: nat, S: seq<Scope>, n: nat, q: nat)
    requires s.Match? && ChoiceFree(s) && Formed(s, n) && ScopesFormed(S, n)
    requires var c := GenStmt(s, k, S, InLoop(|S|)).code; q < |c| && c[q].ContJ?
    ensures var c := GenStmt(s, k, S, InLoop(|S|)).code; UpTo(c, q + 1, Len(c))
    decreases WC(s.cases), 2
  {
    hide UpTo, GenExpr, GenCases, Bytes, CasesChoiceFree, CasesFormed, NoChoice, SlotsIn, Values;
    var f := GenExpr(s.subject, k);
    var h := GenCases(s.cases, f.Next(k), S, InLoop(|S|)).code;
    ExprProper(s.subject, k, n);
    ProperNoJump(f.code, n);
    ExprFits(s.subject, k, 0);
    CasesUpTo(s.cases, f.Next(k), S, n, q - |f.code|, f.code);
    LenCat(f.code, h);
  }

  /** Behind the subject `f`, which is on the stack when the first branch begins. */
  lemma {:induction false} CasesUpTo(cs: seq<Case>, k: nat, S: seq<Scope>, n: nat, q: nat, f: seq<Instr>)
    requires CasesChoiceFree(cs) && CasesFormed(cs, n) && ScopesFormed(S, n) && Values(f, 0)
    requires var c := GenCases(cs, k, S, InLoop(|S|)).code; q < |c| && c[q].ContJ?
    ensures var c := GenCases(cs, k, S, InLoop(|S|)).code; UpTo(f + c, |f| + q + 1, Len(f + c))
    decreases WC(cs), 1
  {
    hide UpTo, GenBlock, GenPatterns, PatternConsts, Bytes, BlockChoiceFree, BlockFormed, Values, Rests;
    var D := InLoop(|S|);
    var whole := GenCases(cs, k, S, D).code;
    if cs == [] {
      NoCasesCode(k, S, D);
    } else if cs[0].Branch? {
      PatternsStop(cs, k, S, n, q, f);
    } else {
      var g := GenBlock(cs[0].body, k, S, D);
      var rest := GenCases(cs[1..], g.Next(k), S, D).code;
      var a := f + [POP];
      DefaultCode(cs, k, S, D);
      ValueTaken(f, POP);
      BlockFits(cs[0].body, k, S);
      if q < 1 + |g.code| {
        BlockUpTo(cs[0].body, k, S, n, q - 1);
        LenCat(a, g.code);
        UpToSecond(a, g.code, q, Len(a + g.code));
        var tail := [JUMP(Len(rest))] + rest;
        assert f + whole == a + g.code + tail;
        UpToFirst(a + g.code, tail, |f| + q + 1, Len(a + g.code));
        LenCat(a + g.code, tail);
        UpToFurther(f + whole, |f| + q + 1, Len(a + g.code), Len(f + whole));
      } else {
        RestsBoth(a, g.code);
        var head := a + g.code + [JUMP(Len(rest))];
        assert f + whole == head + rest;
        RestStops(cs[1..], g.Next(k), S, n, q - 2 - |g.code|, a + g.code, JUMP(Len(rest)));
      }
    }
  }

  /** Comparing is not supported. */
  lemma PatternsStop(cs: seq<Case>, k: nat, S: seq<Scope>, n: nat, q: nat, f: seq<Instr>)
    requires cs != [] && cs[0].Branch? && CasesFormed(cs, n)
    requires var c := GenCases(cs, k, S, InLoop(|S|)).code; q < |c| && c[q].ContJ?
    ensures var c := GenCases(cs, k, S, InLoop(|S|)).code; UpTo(f + c, |f| + q + 1, Len(f + c))
  {
    hide UpTo, GenCases, Bytes, Supported, CasesFormed;
    var code := GenCases(cs, k, S, InLoop(|S|)).code;
    var j := ComparesAt(cs, k, S, InLoop(|S|), n, q);
    Unsupported();
    UpToStopped(f + code, |f| + q + 1, |f| + j, Len(f + code));
  }

  lemma ComparesAt(cs: seq<Case>, k: nat, S: seq<Scope>, D: Loop, n: nat, q: nat) returns (j: nat)
    requires cs != [] && cs[0].Branch? && CasesFormed(cs, n)
    requires var c := GenCases(cs, k, S, D).code; q < |c| && c[q].ContJ?
    ensures j < q && GenCases(cs, k, S, D).code[j] == BINARY(Eq)
  {
    hide GenBlock, GenPatterns, GenCases, PatternConsts, BlockFormed, SlotsIn, GenExpr;
    var skip, rest := PatternsFirst(cs, k, S, D);
    PatternsProper(cs[0].patterns, k, skip, n);
    ProperNoJump(GenPatterns(cs[0].patterns, k, skip).code, n);
    j := 1 + |GenExpr(cs[0].patterns[0], k).code|;
    PatternCompares(cs[0].patterns, k, skip);
  }

  lemma PatternsFirst(cs: seq<Case>, k: nat, S: seq<Scope>, D: Loop) returns (skip: nat, rest: seq<Instr>)
    requires cs != [] && cs[0].Branch?
    ensures GenCases(cs, k, S, D).code == GenPatterns(cs[0].patterns, k, skip).code + rest
  {
    hide GenBlock, GenPatterns, PatternConsts, Bytes;
    var kb := k + |PatternConsts(cs[0].patterns, k)|;
    var g := GenBlock(cs[0].body, kb, S, D);
    var more := GenCases(cs[1..], g.Next(kb), S, D);
    var body := One(POP).Then(g).Add(JUMP(Len(more.code)));
    skip := Len(body.code);
    rest := body.code + more.code;
    var ps := GenPatterns(cs[0].patterns, k, skip);
    assert GenCases(cs, k, S, D) == ps.Then(body).Then(more);
    assert ps.code + body.code + more.code == ps.code + rest;
  }

  lemma PatternCompares(ps: seq<Expr>, k: nat, skip: nat)
    requires ps != []
    ensures var j, code := 1 + |GenExpr(ps[0], k).code|, GenPatterns(ps, k, skip).code;
      j < |code| && code[j] == BINARY(Eq)
  {
    hide GenExpr, Bytes;
    var e := GenExpr(ps[0], k).code;
    var rest := GenPatterns(ps[1..], GenExpr(ps[0], k).Next(k), skip);
    var branch := if |ps| == 1 then [JUMP_IF_FALSE(skip)] else [JUMP_IF_FALSE(3), JUMP(Len(rest.code))];
    assert GenPatterns(ps, k, skip).code == [DUP] + e + [BINARY(Eq)] + branch + rest.code;
  }

  /** A second branch drops a subject that is not there. */
  lemma RestStops(cs: seq<Case>, k: nat, S: seq<Scope>, n: nat, q: nat, a: seq<Instr>, j: Instr)
    requires CasesFormed(cs, n) && Rests(a) && j.JUMP?
    requires var c := GenCases(cs, k, S, InLoop(|S|)).code; q < |c| && c[q].ContJ?
    ensures var c := a + [j] + GenCases(cs, k, S, InLoop(|S|)).code; UpTo(c, |a| + 1 + q + 1, Len(c))
  {
    hide UpTo, GenBlock, GenPatterns, Bytes, Walks, Dep, Fitting;
    var D := InLoop(|S|);
    var code := GenCases(cs, k, S, D).code;
    if cs != [] && cs[0].Branch? {
      PatternsStop(cs, k, S, n, q, a + [j]);
    } else {
      PopsFirst(cs, k, S, D);
      var b := code[..q + 1];
      NotAtZero(b);
      PrefixBehind(a + [j], code, q + 1);
      WalksCat(a + [j], b, 0); WalksCat(a, [j], 0);
      DepCat(a, [j], 0);
      WalksOne(j, 0);
      assert UpTo(a + [j] + code, |a| + 1 + q + 1, Len(a + [j] + code)) by { NoWalk(a + [j] + code, |a| + 1 + q + 1); }
    }
  }

  lemma NoWalk(code: seq<Instr>, p: nat)
    requires p <= |code| && !Walks(code[..p], 0)
    ensures UpTo(code, p, Len(code))
  {
  }

  // ---------------------------------------------------------------- the region of a `continue`

  /** The `q`-th instruction of a loop's body, seen from the loop's start. */
  function InWhole(s: Stmt, k: nat, S: seq<Scope>, q: nat): nat
    requires s.While?
  {
    var g := GenBlock(s.body, k + |CondConsts(s.c, k)|, S, InLoop(|S|));
    |GenCond(s.c, s.until, k, Len(g.code) + 3).code| + q
  }

  /** A `continue` in the body of a loop: the jump back to the loop's start, and what comes before it. */
  predicate Continues(s: Stmt, k: nat, S: seq<Scope>, q: nat)
    requires s.While?
  {
    var g := GenBlock(s.body, k + |CondConsts(s.c, k)|, S, InLoop(|S|)).code; q < |g| && g[q].ContJ?
  }

  /** It jumps to the loop's start, and the code up to it fits. */
  lemma ContinueFits(s: Stmt, k: nat, S: seq<Scope>, D: Loop, n: nat, q: nat)
    requires s.While? && ChoiceFree(s) && Formed(s, n) && ScopesFormed(S, n) && Continues(s, k, S, q)
    ensures var code, p := GenWhile(s, k, S, D).code, InWhole(s, k, S, q) + 1;
      && p < |code| && code[p - 1] == LOOP(Len(code[..p]))
      && (Walks(code[..p], 0) ==>
            Fitting(code[..p], 0, Span(Len(code[..p]), Len(code))) && Dep(code[..p], 0) == 0)
  {
    hide GenBlock, GenCond, CondConsts, Bytes, Walks, Fitting, Dep, Resolve, Arrive, Rests, UpTo, NoChoice,
        BlockChoiceFree, BlockFormed, SlotsIn;
    var kb := k + |CondConsts(s.c, k)|;
    var g := GenBlock(s.body, kb, S, InLoop(|S|)).code;
    var f := GenCond(s.c, s.until, k, Len(g) + 3).code;
    var total := Len(f) + (Len(g) + 3);
    var r := Resolve(g, Len(f), To(0), To(total));
    var code := GenWhile(s, k, S, D).code;
    assert code == f + r + [LOOP(total)];
    CondFits(s.c, s.until, k, Len(g) + 3);
    BlockUpTo(s.body, kb, S, n, q);
    assert code[..|f| + q + 1] == f + r[..q + 1];
    ResolveUpTo(g, Len(f), To(0), To(total), q + 1);
    ContinueTarget(f, g, total, q);
    LenCat(f, r); LenCat(f + r, [LOOP(total)]);
    ResolveLen(g, Len(f), To(0), To(total));
    BytesOne(LOOP(total));
    JumpSize(LOOP(total));
    HeadFits(f, g, total, q);
  }

  lemma ContinueTarget(f: seq<Instr>, g: seq<Instr>, total: nat, q: nat)
    requires q < |g| && g[q].ContJ?
    ensures var r := Resolve(g, Len(f), To(0), To(total)); r[q] == LOOP(Len(f + r[..q + 1]))
  {
    hide Bytes, Resolve, Encode;
    var r := Resolve(g, Len(f), To(0), To(total));
    ResolveAt(g, Len(f), To(0), To(total), q);
    JumpSize(g[q]);
    LenCat(f, r[..q + 1]);
  }

  lemma HeadFits(f: seq<Instr>, g: seq<Instr>, total: nat, q: nat)
    requires q < |g| && UpTo(g, q + 1, Len(g)) && total == Len(f) + (Len(g) + 3)
    requires Walks(f, 0) ==> Fitting(f, 0, {total}) && Dep(f, 0) == 0
    ensures var c := f + Resolve(g[..q + 1], Len(f), To(0), To(total));
      Walks(c, 0) ==> Fitting(c, 0, Span(Len(c), total)) && Dep(c, 0) == 0
  {
    hide Bytes, Walks, Fitting, Dep, Resolve, Arrive;
    var g1, at := g[..q + 1], Len(f);
    var r := Resolve(g1, at, To(0), To(total));
    var c := f + r;
    WalksCat(f, r, 0);
    ResolveDep(g1, at, 0, total, 0);
    if Walks(c, 0) {
      UpToShort(g, q + 1);
      var outs := Span(Len(g1), Len(g));
      ResolvedFits(g1, at, total, outs);
      DepCat(f, r, 0);
      ResolveLen(g1, at, To(0), To(total));
      LenCat(f, r);
      ArriveStart(c);
      FittingCat(f, r, 0, {total}, Ends(at, total) + outs, Span(Len(c), total));
    }
  }

  /** The region from a loop's start to behind a `continue` of it, accepted, is regular, if no conditional
      expression stands in the loop. */
  lemma ContinueIsRegular(x: Site, pc: nat, s: Stmt, k: nat, S: seq<Scope>, D: Loop, n: nat, q: nat)
    requires s.While? && ChoiceFree(s) && Formed(s, n) && ScopesFormed(S, n) && Continues(s, k, S, q)
    requires Stands(x, pc, GenWhile(s, k, S, D), k) && forall c :: c in x.ch.code ==> c < 256
    requires InWhole(s, k, S, q) < |GenWhile(s, k, S, D).code|
    requires Accepted(Region(x.ch, pc, pc + Len(GenWhile(s, k, S, D).code[..InWhole(s, k, S, q) + 1])))
    ensures var code := GenWhile(s, k, S, D).code[..InWhole(s, k, S, q) + 1];
      code[|code| - 1] == LOOP(Len(code)) && Regular(Region(x.ch, pc, pc + Len(code)), n)
  {
    hide GenWhile, Bytes, Fitting, Walks, Dep, Prepass, NoZeroMod, Regular, Proper, Resolve, AllLegal, InWhole,
        Continues;
    var whole, p := GenWhile(s, k, S, D).code, InWhole(s, k, S, q) + 1;
    var code := whole[..p];
    var r := Region(x.ch, pc, pc + Len(code));
    HeadStands(x, pc, s, k, S, D, n, p);
    ProperLegal(code, n);
    PassWalks(r, pc, code, 0, Uses([], 0));
    ContinueFits(s, k, S, D, n, q);
    FittingRegion(r, code, n, Span(Len(code), Len(whole)));
  }

  /** The first instructions of a loop, where they stand. */
  lemma HeadStands(x: Site, pc: nat, s: Stmt, k: nat, S: seq<Scope>, D: Loop, n: nat, p: nat)
    requires s.While? && Formed(s, n) && ScopesFormed(S, n) && Stands(x, pc, GenWhile(s, k, S, D), k)
    requires p <= |GenWhile(s, k, S, D).code|
    ensures var code := GenWhile(s, k, S, D).code[..p];
      Proper(code, n, false) && Bytecode.At(x.ch.code, pc, Bytes(code))
  {
    hide GenWhile, Bytes, Resolve, Bytecode.At;
    var whole := GenWhile(s, k, S, D).code;
    ScopesFins(S, n);
    WhileProper(s, k, S, D, n);
    ProperStays(whole, n, pc, To(x.cont), To(x.brk));
    assert whole == whole[..p] + whole[p..];
    BytesCat(whole[..p], whole[p..]);
    AtParts(x.ch.code, pc, Bytes(whole[..p]), Bytes(whole[p..]));
  }

  /** And its register code agrees with the interpreter. */
  lemma ContinueRuns(w: World, x: Site, s: Stmt, k: nat, S: seq<Scope>, D: Loop, n: nat, q: nat, m: M, v: VM,
      steps: nat)
    requires s.While? && ChoiceFree(s) && Formed(s, n) && ScopesFormed(S, n) && Continues(s, k, S, q)
    requires Stands(x, w.r.start, GenWhile(s, k, S, D), k) && forall c :: c in x.ch.code ==> c < 256
    requires InWhole(s, k, S, q) < |GenWhile(s, k, S, D).code|
    requires w.r == Region(x.ch, w.r.start, w.r.start + Len(GenWhile(s, k, S, D).code[..InWhole(s, k, S, q) + 1]))
    requires Accepted(w.r) && w.L == UsesOf(w.r).value.slots && w.j == JitRegion.Compiled(w.r, w.L)
    requires Enters(w, m, v) && |m.slots| == n && forall i | 0 <= i < |m.slots| :: IsWord(m.slots[i])
    ensures Agrees(w, m, v, steps) && (GetsOut(w, m) || Run(w.r.ch, v, steps).Running?)
  {
    hide GenWhile, Enters, Agrees, GetsOut, Run, Regular, JitRegion.Compiled, NoZeroMod, Prepass, Stands, Formed,
        Continues, InWhole, Bytes, Proper;
    var code := GenWhile(s, k, S, D).code[..InWhole(s, k, S, q) + 1];
    ContinueIsRegular(x, w.r.start, s, k, S, D, n, q);
    HeadStands(x, w.r.start, s, k, S, D, n, InWhole(s, k, S, q) + 1);
    PassSlots(w.r, w.r.start, code, 0, Uses([], 0), n);
    RegionRuns(w, n, m, v, steps);
    RegionStops(w, n, m, v, steps);
  }
}
