/** Exactly the loops without conditional expressions are regular regions.

 The code of a conditional expression ends in two ways with one operand each, one after the other; counted
 along the code they are two. */
module JitChoices {
  import opened Bytecode
  import opened Tree
  import opened Codegen
  import opened CodegenLayout
  import opened CodegenMain
  import opened JitMachine
  import opened JitRegion
  import opened JitExits
  import opened JitRuns
  import opened JitLoops
  import opened Options

  // ---------------------------------------------------------------- jumps that arrive with less than was counted

  /** The `j`-th instruction jumps to the boundary in front of the `m`-th, for which another number of
      operands is counted than the jump has. */
  predicate MissesAt(code: seq<Instr>, d: nat, j: nat, m: nat) {
    && j < |code| && m <= |code| && code[j].JUMP? && LeadsTo(code, j) == Some(Len(code[..m]))
    && Dep(code[..m], d) != Dep(code[..j + 1], d)
  }

  ghost predicate Misfit(code: seq<Instr>, d: nat) { exists j: nat, m: nat :: MissesAt(code, d, j, m) }

  /** If the first pass lets the code through, it has such a jump. */
  ghost predicate Misses(code: seq<Instr>, d: nat) { Walks(code, d) ==> Misfit(code, d) }

  lemma MisfitFirst(a: seq<Instr>, b: seq<Instr>, d: nat)
    requires Misfit(a, d)
    ensures Misfit(a + b, d)
  {
    hide Dep, Bytes;
    var c := a + b;
    var j: nat, m: nat :| MissesAt(a, d, j, m);
    assert c[j] == a[j] && c[..j + 1] == a[..j + 1] && c[..m] == a[..m];
    assert MissesAt(c, d, j, m);
  }

  lemma MisfitSecond(a: seq<Instr>, b: seq<Instr>, d: nat)
    requires Misfit(b, Dep(a, d))
    ensures Misfit(a + b, d)
  {
    hide Dep, Bytes, LeadsTo;
    var j: nat, m: nat :| MissesAt(b, Dep(a, d), j, m);
    DepBehind(a, b, d, m, |a| + m); DepBehind(a, b, d, j + 1, |a| + j + 1);
    GoalBehind(a, b, j);
    PrefixBehind(a, b, m);
    LenCat(a, b[..m]);
    assert MissesAt(a + b, d, |a| + j, |a| + m);
  }

  lemma MissesFirst(a: seq<Instr>, b: seq<Instr>, d: nat)
    requires Misses(a, d)
    ensures Misses(a + b, d)
  {
    hide Walks, Misfit;
    WalksCat(a, b, d);
    if Walks(a, d) { MisfitFirst(a, b, d); }
  }

  lemma MissesSecond(a: seq<Instr>, b: seq<Instr>, d: nat)
    requires Misses(b, Dep(a, d))
    ensures Misses(a + b, d)
  {
    hide Walks, Misfit, Dep;
    WalksCat(a, b, d);
    if Walks(b, Dep(a, d)) { MisfitSecond(a, b, d); }
  }

  lemma MissesStopped(code: seq<Instr>, d: nat, i: Instr)
    requires i in code && !Supported(i) && !Hole(i)
    ensures Misses(code, d)
  {
    hide Walks, Misfit, Supported;
    Stops(code, d, i);
  }

  /** Filling in the jumps out of a loop leaves the others alone. */
  lemma MissesResolved(g: seq<Instr>, at: nat, c: nat, b: nat, d: nat)
    requires Misses(g, d)
    ensures Misses(Resolve(g, at, To(c), To(b)), d)
  {
    hide Walks, Resolve, Dep, Bytes, LeadsTo;
    ResolveDep(g, at, c, b, d);
    if Walks(g, d) {
      var r := Resolve(g, at, To(c), To(b));
      var j: nat, m: nat :| MissesAt(g, d, j, m);
      ResolveUpTo(g, at, To(c), To(b), m); ResolveUpTo(g, at, To(c), To(b), j + 1);
      ResolveDep(g[..m], at, c, b, d); ResolveDep(g[..j + 1], at, c, b, d);
      SettledJump(g, at, c, b, j);
      assert MissesAt(r, d, j, m);
    }
  }

  lemma SettledJump(g: seq<Instr>, at: nat, c: nat, b: nat, j: nat)
    requires j < |g| && g[j].JUMP?
    ensures var r := Resolve(g, at, To(c), To(b)); r[j] == g[j] && LeadsTo(r, j) == LeadsTo(g, j)
  {
    hide Resolve, Bytes, Encode;
    ResolveAt(g, at, To(c), To(b), j);
  }

  // ---------------------------------------------------------------- expressions

  lemma {:induction false} ExprMisses(e: Expr, k: nat, d: nat)
    requires !NoChoice(e)
    ensures Misses(GenExpr(e, k).code, d)
    decreases WE(e), 1
  {
    hide Misses, Supported, Bytes;
    Unsupported();
    match e
    case Prefix(op, a) => MissesStopped(GenExpr(e, k).code, d, PREFIX(op));
    case Infix(_, _, _) => InfixMisses(e, k, d);
    case AndE(_, _) => ShortMisses(e, k, d);
    case OrE(_, _) => ShortMisses(e, k, d);
    case CoalesceE(_, _) => ShortMisses(e, k, d);
    case Conditional(_, _, _) => ConditionalMisses(e, k, d);
  }

  lemma ShortMisses(e: Expr, k: nat, d: nat)
    requires e.AndE? || e.OrE? || e.CoalesceE?
    ensures Misses(GenExpr(e, k).code, d)
  {
    hide Misses, Supported, Bytes;
    Unsupported();
    var f := GenExpr(e.l, k);
    var n := Len(GenExpr(e.r, f.Next(k)).code);
    MissesStopped(GenExpr(e, k).code, d, if e.AndE? then AND_KEEP(n) else if e.OrE? then OR_KEEP(n) else COALESCE(n));
  }

  lemma {:induction false} InfixMisses(e: Expr, k: nat, d: nat)
    requires e.Infix? && !NoChoice(e)
    ensures Misses(GenExpr(e, k).code, d)
    decreases WE(e), 0
  {
    hide Misses, Dep;
    if IsSmall(e.r) && HasImmediate(e.op) {
      ExprMisses(e.l, k, d);
      MissesFirst(GenExpr(e.l, k).code, [BINARY_I(e.op, e.r.n)], d);
    } else {
      var f := GenExpr(e.l, k);
      TwoMiss(e.l, e.r, k, d);
      MissesFirst(f.code + GenExpr(e.r, f.Next(k)).code, [BINARY(e.op)], d);
    }
  }

  lemma {:induction false} TwoMiss(l: Expr, r: Expr, k: nat, d: nat)
    requires !(NoChoice(l) && NoChoice(r))
    ensures var f := GenExpr(l, k); Misses(f.code + GenExpr(r, f.Next(k)).code, d)
    decreases WE(l) + WE(r), 2
  {
    hide Misses, Dep, GenExpr, NoChoice;
    var f := GenExpr(l, k);
    var g := GenExpr(r, f.Next(k));
    if !NoChoice(l) {
      ExprMisses(l, k, d);
      MissesFirst(f.code, g.code, d);
    } else {
      ExprMisses(r, f.Next(k), Dep(f.code, d));
      MissesSecond(f.code, g.code, d);
    }
  }

  /** The jump over the second way arrives with one operand less than is counted behind it. */
  lemma {:induction false} ConditionalMisses(e: Expr, k: nat, d: nat)
    requires e.Conditional?
    ensures Misses(GenExpr(e, k).code, d)
    decreases WE(e), 0
  {
    hide Misses, Dep, Bytes, GenCond, CondConsts, Values;
    var kt := k + |CondConsts(e.c, k)|;
    var gt := GenExpr(e.t, kt);
    var gf := GenExpr(e.f, gt.Next(kt));
    var head := GenCond(e.c, false, k, Len(gt.code) + 3).code + gt.code;
    var j := JUMP(Len(gf.code));
    assert GenExpr(e, k).code == head + [j] + gf.code;
    var d1 := Dep(head + [j], d);
    if NoChoice(e.f) {
      ExprFits(e.f, gt.Next(kt), d1);
      OverValue(head, gf.code, d);
    } else {
      ExprMisses(e.f, gt.Next(kt), d1);
      MissesSecond(head + [j], gf.code, d);
    }
  }

  /** A jump over code that adds an operand. */
  lemma OverValue(a: seq<Instr>, b: seq<Instr>, d: nat)
    requires Values(b, Dep(a + [JUMP(Len(b))], d))
    ensures Misses(a + [JUMP(Len(b))] + b, d)
  {
    hide Dep, Bytes, Walks, Fitting;
    var head := a + [JUMP(Len(b))];
    var c := head + b;
    WalksCat(head, b, d);
    if Walks(c, d) {
      DepCat(head, b, d);
      LenCat(head, b);
      assert c[..|a| + 1] == head && c[..|c|] == c;
      assert MissesAt(c, d, |a|, |c|);
    }
  }

  lemma CondMisses(c: Expr, invert: bool, k: nat, n: nat, d: nat)
    requires !NoChoice(c)
    ensures Misses(GenCond(c, invert, k, n).code, d)
  {
    hide Misses, Supported, GenExpr, Bytes, Dep;
    Unsupported();
    var code := GenCond(c, invert, k, n).code;
    if c.Infix? && IsCompare(c.op) {
      var op := if invert then Inverse(c.op) else c.op;
      var f := GenExpr(c.l, k);
      if IsSmall(c.r) {
        MissesStopped(code, d, COMPARE_I_JF(op, c.r.n, n));
      } else {
        TwoMiss(c.l, c.r, k, d);
        MissesFirst(f.code + GenExpr(c.r, f.Next(k)).code, [COMPARE_JF(op, n)], d);
      }
    } else {
      MissesStopped(code, d, JUMP_IF_FALSE(n));
    }
  }

  // ---------------------------------------------------------------- statements

  lemma StraightMisses(s: Stmt, k: nat, d: nat)
    requires Tree.Straight(s) && !s.ReturnS? && !ChoiceFree(s)
    ensures Misses(GenStraight(s, k).code, d)
  {
    hide Misses, Supported, GenExpr, Bytes, Dep;
    Unsupported();
    match s
    case ExprStmt(e) =>
      ExprMisses(e, k, d);
      MissesFirst(GenExpr(e, k).code, [POP], d);
    case Assign(_, _, _) => AssignMisses(s, k, d);
    case AssignOp(x, op, e) => LoadedMisses(x, e, if op == BinOp.Add then ADD_INPLACE else BINARY(op), k, d);
    case AssignCoalesce(x, e) => MissesStopped(GenStraight(s, k).code, d, COALESCE(Len(GenExpr(e, k).code)));
    case Say(vs) => MissesStopped(GenStraight(s, k).code, d, SAY(|vs|));
    case ThrowS(_) => MissesStopped(GenStraight(s, k).code, d, THROW_);
  }

  lemma AssignMisses(s: Stmt, k: nat, d: nat)
    requires s.Assign? && !ChoiceFree(s)
    ensures Misses(GenStraight(s, k).code, d)
  {
    hide Misses, GenExpr;
    var x, e := s.slot, s.e;
    if !s.isSet && e.Infix? && e.op == BinOp.Add && e.l == Name(x) {
      assert NoChoice(e.l) && !NoChoice(e.r);
      LoadedMisses(x, e.r, ADD_INPLACE, k, d);
    } else {
      ExprMisses(e, k, d);
      MissesFirst(GenExpr(e, k).code, [SET_LOCAL(x)], d);
    }
  }

  lemma LoadedMisses(x: nat, e: Expr, i: Instr, k: nat, d: nat)
    requires !NoChoice(e)
    ensures Misses([GET_LOCAL(x)] + GenExpr(e, k).code + [i] + [SET_LOCAL(x)], d)
  {
    hide Misses, GenExpr, Dep;
    var a, b := [GET_LOCAL(x)], GenExpr(e, k).code;
    ExprMisses(e, k, Dep(a, d));
    MissesSecond(a, b, d);
    MissesFirst(a + b, [i], d);
    MissesFirst(a + b + [i], [SET_LOCAL(x)], d);
  }

  lemma {:induction false} BlockMisses(b: seq<Stmt>, k: nat, S: seq<Scope>, D: Loop, d: nat)
    requires !BlockChoiceFree(b)
    ensures Misses(GenBlock(b, k, S, D).code, d)
    decreases WB(b), 1
  {
    hide Misses, GenStmt, ChoiceFree, Dep;
    var f := GenStmt(b[0], k, S, D);
    var g := GenBlock(b[1..], f.Next(k), S, D);
    if !ChoiceFree(b[0]) {
      StmtMisses(b[0], k, S, D, d);
      MissesFirst(f.code, g.code, d);
    } else {
      BlockMisses(b[1..], f.Next(k), S, D, Dep(f.code, d));
      MissesSecond(f.code, g.code, d);
    }
  }

  /** A statement with a conditional expression somewhere. */
  lemma {:induction false} StmtMisses(s: Stmt, k: nat, S: seq<Scope>, D: Loop, d: nat)
    requires !ChoiceFree(s)
    ensures Misses(GenStmt(s, k, S, D).code, d)
    decreases W(s), 0
  {
    hide Misses, Supported, GenBlock, GenCond, GenExpr, GenStraight, GenWhile, GenCases, CondConsts, Bytes, Dep;
    hide GenTryFinally, GenTryCatch, BlockChoiceFree, CasesChoiceFree, NoChoice, IsCompare;
    match s
    case ReturnS(_) => Unsupported(); MissesStopped(GenStmt(s, k, S, D).code, d, RETURN);
    case If(c, b) => GuardedMisses(c, b, k, S, D, Len(GenBlock(b, k + |CondConsts(c, k)|, S, D).code), d);
    case IfElse(_, _, _) => IfElseMisses(s, k, S, D, d);
    case While(_, _, _) => WhileMisses(s, k, S, D, d);
    case Match(_, _) => MatchMisses(s, k, S, D, d);
    case TryFinally(_, _) => TryMisses(s, k, S, D, d);
    case TryCatch(_, _, _, _) => TryMisses(s, k, S, D, d);
    case BlockS(b) => BlockMisses(b, k, S, D, d);
    case ExprStmt(_) => StraightMisses(s, k, d);
    case Assign(_, _, _) => StraightMisses(s, k, d);
    case AssignOp(_, _, _) => StraightMisses(s, k, d);
    case AssignCoalesce(_, _) => StraightMisses(s, k, d);
    case Say(_) => StraightMisses(s, k, d);
    case ThrowS(_) => StraightMisses(s, k, d);
  }

  /** A condition in front of a block. */
  lemma {:induction false} GuardedMisses(c: Expr, b: seq<Stmt>, k: nat, S: seq<Scope>, D: Loop, n: nat, d: nat)
    requires !(NoChoice(c) && BlockChoiceFree(b))
    ensures Misses(GenCond(c, false, k, n).code + GenBlock(b, k + |CondConsts(c, k)|, S, D).code, d)
    decreases WB(b), 2
  {
    hide Misses, GenBlock, GenCond, CondConsts, Dep, NoChoice, BlockChoiceFree;
    var f, g := GenCond(c, false, k, n).code, GenBlock(b, k + |CondConsts(c, k)|, S, D).code;
    if !NoChoice(c) {
      CondMisses(c, false, k, n, d);
      MissesFirst(f, g, d);
    } else {
      BlockMisses(b, k + |CondConsts(c, k)|, S, D, Dep(f, d));
      MissesSecond(f, g, d);
    }
  }

  lemma {:induction false} IfElseMisses(s: Stmt, k: nat, S: seq<Scope>, D: Loop, d: nat)
    requires s.IfElse? && !ChoiceFree(s)
    ensures Misses(GenStmt(s, k, S, D).code, d)
    decreases WB(s.body) + W(s.alt), 3
  {
    hide Misses, GenBlock, GenCond, CondConsts, Dep, NoChoice, BlockChoiceFree, Bytes;
    var kb := k + |CondConsts(s.c, k)|;
    var g := GenBlock(s.body, kb, S, D);
    var h := GenStmt(s.alt, g.Next(kb), S, D);
    var fg := GenCond(s.c, false, k, Len(g.code) + 3).code + g.code;
    var j := [JUMP(Len(h.code))];
    assert GenStmt(s, k, S, D).code == fg + j + h.code;
    if !(NoChoice(s.c) && BlockChoiceFree(s.body)) {
      GuardedMisses(s.c, s.body, k, S, D, Len(g.code) + 3, d);
      MissesFirst(fg, j, d);
      MissesFirst(fg + j, h.code, d);
    } else {
      StmtMisses(s.alt, g.Next(kb), S, D, Dep(fg + j, d));
      MissesSecond(fg + j, h.code, d);
    }
  }

  lemma TryMisses(s: Stmt, k: nat, S: seq<Scope>, D: Loop, d: nat)
    requires s.TryFinally? || s.TryCatch?
    ensures Misses(GenStmt(s, k, S, D).code, d)
  {
    hide Misses, Supported, GenBlock, Bytes, GenTryFinally, GenTryCatch;
    Unsupported();
    if s.TryFinally? {
      EndsWithThrow(s, k, S, D);
      MissesStopped(GenTryFinally(s, k, S, D).code, d, THROW_);
    } else {
      PopsHandler(s, k, S, D);
      MissesStopped(GenTryCatch(s, k, S, D).code, d, TRY_POP);
    }
  }

  lemma {:induction false} MatchMisses(s: Stmt, k: nat, S: seq<Scope>, D: Loop, d: nat)
    requires s.Match? && !ChoiceFree(s)
    ensures Misses(GenStmt(s, k, S, D).code, d)
    decreases WC(s.cases), 2
  {
    hide Misses, GenExpr, GenCases, Dep, NoChoice, CasesChoiceFree;
    var f := GenExpr(s.subject, k);
    var h := GenCases(s.cases, f.Next(k), S, D);
    if !NoChoice(s.subject) {
      ExprMisses(s.subject, k, d);
      MissesFirst(f.code, h.code, d);
    } else {
      CasesMiss(s.cases, f.Next(k), S, D, Dep(f.code, d));
      MissesSecond(f.code, h.code, d);
    }
  }

  lemma {:induction false} CasesMiss(cs: seq<Case>, k: nat, S: seq<Scope>, D: Loop, d: nat)
    requires !CasesChoiceFree(cs)
    ensures Misses(GenCases(cs, k, S, D).code, d)
    decreases WC(cs), 1
  {
    hide Misses, GenBlock, Dep, Bytes, BlockChoiceFree, GenPatterns, PatternConsts, NoChoice;
    var c := cs[0];
    if c.Branch? && c.patterns != [] {
      ComparesMiss(cs, k, S, D, d);
    } else {
      var kb := if c.Branch? then k + |PatternConsts(c.patterns, k)| else k;
      var g := GenBlock(c.body, kb, S, D);
      var rest := GenCases(cs[1..], g.Next(kb), S, D);
      var j := [JUMP(Len(rest.code))];
      DefaultCode(cs, k, S, D);
      if !BlockChoiceFree(c.body) {
        BlockMisses(c.body, kb, S, D, Dep([POP], d));
        MissesSecond([POP], g.code, d);
        MissesFirst([POP] + g.code, j, d);
        MissesFirst([POP] + g.code + j, rest.code, d);
      } else {
        CasesMiss(cs[1..], g.Next(kb), S, D, Dep([POP] + g.code + j, d));
        MissesSecond([POP] + g.code + j, rest.code, d);
      }
    }
  }

  lemma ComparesMiss(cs: seq<Case>, k: nat, S: seq<Scope>, D: Loop, d: nat)
    requires cs != [] && cs[0].Branch? && cs[0].patterns != []
    ensures Misses(GenCases(cs, k, S, D).code, d)
  {
    hide GenCases, Walks, Misfit;
    Compares(cs, k, S, D, d);
  }

  lemma {:induction false} WhileMisses(s: Stmt, k: nat, S: seq<Scope>, D: Loop, d: nat)
    requires s.While? && !ChoiceFree(s)
    ensures Misses(GenWhile(s, k, S, D).code, d)
    decreases WB(s.body), 2
  {
    hide Misses, GenBlock, GenCond, CondConsts, Bytes, Dep, Resolve, NoChoice, BlockChoiceFree;
    var a := RoundMisses(s, k, S, D, d);
    MissesFirst(a, [GenWhile(s, k, S, D).code[|a|]], d);
  }

  /** Already in front of the jump back. */
  lemma {:induction false} RoundMisses(s: Stmt, k: nat, S: seq<Scope>, D: Loop, d: nat) returns (a: seq<Instr>)
    requires s.While? && !ChoiceFree(s)
    ensures Misses(a, d) && |a| + 1 == |GenWhile(s, k, S, D).code|
    ensures var l := GenWhile(s, k, S, D).code[|a|]; l.LOOP? && GenWhile(s, k, S, D).code == a + [l]
    decreases WB(s.body), 2, 0
  {
    hide Misses, GenBlock, GenCond, CondConsts, Bytes, Dep, Resolve, NoChoice, BlockChoiceFree;
    var kb := k + |CondConsts(s.c, k)|;
    var g := GenBlock(s.body, kb, S, InLoop(|S|));
    var f := GenCond(s.c, s.until, k, Len(g.code) + 3).code;
    var total := Len(f) + Len(g.code) + 3;
    var r := Resolve(g.code, Len(f), To(0), To(total));
    a := f + r;
    assert GenWhile(s, k, S, D).code == a + [LOOP(total)];
    if !NoChoice(s.c) {
      CondMisses(s.c, s.until, k, Len(g.code) + 3, d);
      MissesFirst(f, r, d);
    } else {
      BlockMisses(s.body, kb, S, InLoop(|S|), Dep(f, d));
      MissesResolved(g.code, Len(f), 0, total, Dep(f, d));
      MissesSecond(f, r, d);
    }
  }

  // ---------------------------------------------------------------- the region of a loop

  lemma LenUpTo(code: seq<Instr>, m: nat)
    requires m <= |code|
    ensures Len(code[..m]) <= Len(code)
  {
    assert code == code[..m] + code[m..];
    LenCat(code[..m], code[m..]);
  }

  /** A region with a jump that misses, not at its end. */
  lemma MisfitIsIrregular(r: Region, a: seq<Instr>, l: Instr, n: nat)
    requires AllLegal(a + [l]) && Bytecode.At(r.ch.code, r.start, Bytes(a + [l])) && r.end == r.start + Len(a + [l])
    requires Misfit(a, 0)
    ensures !Regular(r, n)
  {
    hide Fetch, Bytes, Scan, Dep, Encode, Legal, AllLegal, Bytecode.At;
    var code := a + [l];
    var j: nat, m: nat :| MissesAt(a, 0, j, m);
    assert code[j] == a[j] && code[..j] == a[..j] && code[..j + 1] == a[..j + 1] && code[..m] == a[..m];
    LenUpTo(a, m);
    LenCat(a, [l]);
    BytesOne(l);
    ScanVisits(r, r.start, code, 0, j); ScanVisits(r, r.start, code, 0, m);
    FetchAt(r.ch, r.start, code, j);
    LenUpTo(a, j + 1); LenUpTo(a, j);
    assert a[..j + 1] == a[..j] + [a[j]];
    LenCat(a[..j], [a[j]]);
    BytesOne(a[j]);
    DepCat(a[..j], [a[j]], 0);
    WalksOne(a[j], Dep(a[..j], 0));
    assert !RegularAt(r, r.start + Len(a[..j]), Dep(a[..j], 0), n);
  }

  /** A loop of a function with `n` slots, where it stands in code of bytes, and accepted by the loop
      compiler, is a regular region exactly if no conditional expression stands in it. */
  lemma RegularExactly(x: Site, pc: nat, s: Stmt, k: nat, S: seq<Scope>, D: Loop, n: nat)
    requires s.While? && Formed(s, n) && FinsFormed(S, n)
    requires Stands(x, pc, GenWhile(s, k, S, D), k) && forall c :: c in x.ch.code ==> c < 256
    requires Accepted(Region(x.ch, pc, pc + Len(GenWhile(s, k, S, D).code)))
    ensures Regular(Region(x.ch, pc, pc + Len(GenWhile(s, k, S, D).code)), n) <==> ChoiceFree(s)
  {
    hide GenWhile, Bytes, Walks, Misfit, Dep, Prepass, NoZeroMod, Regular, Proper, Resolve, ChoiceFree, Bytecode.At;
    var code := GenWhile(s, k, S, D).code;
    if ChoiceFree(s) {
      LoopIsRegular(x, pc, s, k, S, D, n);
    } else {
      AcceptedWalks(x, pc, s, k, S, D, n);
      var a := RoundMisses(s, k, S, D, 0);
      WalksCat(a, [code[|a|]], 0);
      MisfitIsIrregular(Region(x.ch, pc, pc + Len(code)), a, code[|a|], n);
    }
  }

  lemma AcceptedWalks(x: Site, pc: nat, s: Stmt, k: nat, S: seq<Scope>, D: Loop, n: nat)
    requires s.While? && Formed(s, n) && FinsFormed(S, n)
    requires Stands(x, pc, GenWhile(s, k, S, D), k)
    requires Accepted(Region(x.ch, pc, pc + Len(GenWhile(s, k, S, D).code)))
    ensures var code := GenWhile(s, k, S, D).code;
      Walks(code, 0) && AllLegal(code) && Bytecode.At(x.ch.code, pc, Bytes(code))
  {
    hide GenWhile, Bytes, Walks, Prepass, NoZeroMod, Proper, Resolve;
    var code := GenWhile(s, k, S, D).code;
    WhileProper(s, k, S, D, n);
    ProperStays(code, n, pc, To(x.cont), To(x.brk));
    ProperLegal(code, n);
    PassWalks(Region(x.ch, pc, pc + Len(code)), pc, code, 0, Uses([], 0));
  }

  // ---------------------------------------------------------------- how many operands are counted at the end

  function Choices(e: Expr): nat {
    match e
    case Prefix(_, a) => Choices(a)
    case Infix(_, l, r) => Choices(l) + Choices(r)
    case AndE(l, r) => Choices(l) + Choices(r)
    case OrE(l, r) => Choices(l) + Choices(r)
    case CoalesceE(l, r) => Choices(l) + Choices(r)
    case Conditional(c, t, f) => 1 + Choices(c) + Choices(t) + Choices(f)
    case _ => 0
  }

  function AllChoices(es: seq<Expr>): nat { if es == [] then 0 else Choices(es[0]) + AllChoices(es[1..]) }

  /** The conditional expressions of a statement, less the branches of its `match` statements. */
  function Surplus(s: Stmt): int
    decreases W(s), 0
  {
    match s
    case ExprStmt(e) => Choices(e)
    case Assign(_, e, _) => Choices(e)
    case AssignOp(_, _, e) => Choices(e)
    case AssignCoalesce(_, e) => Choices(e)
    case Say(vs) => AllChoices(vs)
    case ThrowS(e) => Choices(e)
    case ReturnS(e) => Choices(e)
    case If(c, b) => Choices(c) + BlockSurplus(b)
    case IfElse(c, b, a) => Choices(c) + BlockSurplus(b) + Surplus(a)
    case While(_, c, b) => Choices(c) + BlockSurplus(b)
    case Match(e, cs) => Choices(e) + CasesSurplus(cs)
    case TryFinally(b, f) => BlockSurplus(b) + BlockSurplus(f)
    case TryCatch(b, _, c, f) => BlockSurplus(b) + BlockSurplus(c) + BlockSurplus(f)
    case BlockS(b) => BlockSurplus(b)
    case _ => 0
  }

  function BlockSurplus(b: seq<Stmt>): int
    decreases WB(b), 1
  {
    if b == [] then 0 else Surplus(b[0]) + BlockSurplus(b[1..])
  }

  function CasesSurplus(cs: seq<Case>): int
    decreases WC(cs), 1
  {
    if cs == [] then 0
    else
      var patterns := if cs[0].Branch? then AllChoices(cs[0].patterns) else 0;
      patterns + BlockSurplus(cs[0].body) - 1 + CasesSurplus(cs[1..])
  }

  /** What a list of instructions adds to the operands. */
  function Sum(code: seq<Instr>): int { if code == [] then 0 else Delta(code[0]) + Sum(code[1..]) }

  predicate Known(code: seq<Instr>) { forall i :: i in code ==> Supported(i) || Hole(i) }

  predicate Counts(code: seq<Instr>, n: int) { Known(code) ==> Sum(code) == n }

  lemma {:induction false} WalksSum(code: seq<Instr>, d: nat)
    requires Walks(code, d)
    ensures Known(code) && Dep(code, d) == d + Sum(code)
  {
    hide Supported, Delta;
    if code != [] { WalksSum(code[1..], After(d, code[0])); }
  }

  lemma {:induction false} SumCat(a: seq<Instr>, b: seq<Instr>)
    ensures Sum(a + b) == Sum(a) + Sum(b)
  {
    hide Delta;
    if a == [] {
      assert a + b == b;
    } else {
      assert (a + b)[0] == a[0] && (a + b)[1..] == a[1..] + b;
      SumCat(a[1..], b);
    }
  }

  lemma CountsCat(a: seq<Instr>, b: seq<Instr>, x: int, y: int)
    requires Counts(a, x) && Counts(b, y)
    ensures Counts(a + b, x + y)
  {
    hide Sum, Supported;
    SumCat(a, b);
    if Known(a + b) {
      forall i | i in a ensures Supported(i) || Hole(i) { assert i in a + b; }
      forall i | i in b ensures Supported(i) || Hole(i) { assert i in a + b; }
    }
  }

  lemma CountsOne(i: Instr)
    ensures Counts([i], Delta(i))
  {
    assert [i][1..] == [];
  }

  lemma CountsThen(a: seq<Instr>, i: Instr, x: int, y: int)
    requires Counts(a, x) && y == x + Delta(i)
    ensures Counts(a + [i], y)
  {
    hide Counts, Delta;
    CountsOne(i);
    CountsCat(a, [i], x, Delta(i));
  }

  lemma CountsStopped(code: seq<Instr>, i: Instr, n: int)
    requires i in code && !Supported(i) && !Hole(i)
    ensures Counts(code, n)
  {
  }

  lemma {:induction false} ExprCounts(e: Expr, k: nat)
    ensures Counts(GenExpr(e, k).code, 1 + Choices(e))
    decreases WE(e), 1
  {
    hide Counts, Supported, Bytes;
    Unsupported();
    match e
    case IntLit(_) => CountsOne(CONST(k));
    case BoolLit(b) => CountsStopped(GenExpr(e, k).code, if b then TRUE_ else FALSE_, 1);
    case NullLit => CountsStopped(GenExpr(e, k).code, NIL, 1);
    case Name(s) => CountsOne(GET_LOCAL(s));
    case Prefix(op, a) => CountsStopped(GenExpr(e, k).code, PREFIX(op), 1 + Choices(e));
    case Infix(_, _, _) => InfixCounts(e, k);
    case AndE(_, _) => ShortCounts(e, k);
    case OrE(_, _) => ShortCounts(e, k);
    case CoalesceE(_, _) => ShortCounts(e, k);
    case Conditional(_, _, _) => ConditionalCounts(e, k);
  }

  lemma ShortCounts(e: Expr, k: nat)
    requires e.AndE? || e.OrE? || e.CoalesceE?
    ensures Counts(GenExpr(e, k).code, 1 + Choices(e))
  {
    hide Counts, Supported, Bytes;
    Unsupported();
    var f := GenExpr(e.l, k);
    var n := Len(GenExpr(e.r, f.Next(k)).code);
    CountsStopped(GenExpr(e, k).code,
        if e.AndE? then AND_KEEP(n) else if e.OrE? then OR_KEEP(n) else COALESCE(n), 1 + Choices(e));
  }

  lemma {:induction false} InfixCounts(e: Expr, k: nat)
    requires e.Infix?
    ensures Counts(GenExpr(e, k).code, 1 + Choices(e))
    decreases WE(e), 0
  {
    hide Counts, Supported;
    Unsupported();
    if IsSmall(e.r) && HasImmediate(e.op) {
      SmallCounts(e, k);
    } else if e.l.Name? && e.r.Name? {
      CountsStopped(GenExpr(e, k).code, LGET2(e.l.slot, e.r.slot), 1);
    } else {
      var f := GenExpr(e.l, k);
      var g := GenExpr(e.r, f.Next(k));
      TwoCount(e.l, e.r, k);
      CountsThen(f.code + g.code, BINARY(e.op), 2 + Choices(e.l) + Choices(e.r), 1 + Choices(e));
    }
  }

  lemma {:induction false} SmallCounts(e: Expr, k: nat)
    requires e.Infix? && IsSmall(e.r) && HasImmediate(e.op)
    ensures Counts(GenExpr(e, k).code, 1 + Choices(e))
    decreases WE(e), 0, 0
  {
    hide Counts, Supported, HasImmediate;
    Unsupported();
    if e.l.Name? && e.op in {BinOp.Add, BinOp.Sub} {
      CountsStopped(GenExpr(e, k).code, LGET_I(e.op, e.l.slot, e.r.n), 1);
    } else {
      ExprCounts(e.l, k);
      CountsThen(GenExpr(e.l, k).code, BINARY_I(e.op, e.r.n), 1 + Choices(e.l), 1 + Choices(e.l));
    }
  }

  lemma {:induction false} TwoCount(l: Expr, r: Expr, k: nat)
    ensures var f := GenExpr(l, k); Counts(f.code + GenExpr(r, f.Next(k)).code, 2 + Choices(l) + Choices(r))
    decreases WE(l) + WE(r), 2
  {
    hide Counts, GenExpr, Choices;
    var f := GenExpr(l, k);
    ExprCounts(l, k);
    ExprCounts(r, f.Next(k));
    CountsCat(f.code, GenExpr(r, f.Next(k)).code, 1 + Choices(l), 1 + Choices(r));
  }

  lemma {:induction false} ConditionalCounts(e: Expr, k: nat)
    requires e.Conditional?
    ensures Counts(GenExpr(e, k).code, 1 + Choices(e))
    decreases WE(e), 0
  {
    hide Counts, Bytes, GenCond, CondConsts;
    var kt := k + |CondConsts(e.c, k)|;
    var gt := GenExpr(e.t, kt);
    var gf := GenExpr(e.f, gt.Next(kt));
    var f := GenCond(e.c, false, k, Len(gt.code) + 3).code;
    var j := JUMP(Len(gf.code));
    assert GenExpr(e, k).code == f + gt.code + [j] + gf.code;
    var n := Choices(e.c) + (1 + Choices(e.t));
    CondCounts(e.c, false, k, Len(gt.code) + 3);
    ExprCounts(e.t, kt);
    ExprCounts(e.f, gt.Next(kt));
    CountsCat(f, gt.code, Choices(e.c), 1 + Choices(e.t));
    CountsThen(f + gt.code, j, n, n);
    CountsCat(f + gt.code + [j], gf.code, n, 1 + Choices(e.f));
  }

  lemma {:induction false} CondCounts(c: Expr, invert: bool, k: nat, n: nat)
    ensures Counts(GenCond(c, invert, k, n).code, Choices(c))
    decreases WE(c), 3
  {
    hide Counts, Supported, GenExpr, Bytes;
    Unsupported();
    var code := GenCond(c, invert, k, n).code;
    if c.Infix? && IsCompare(c.op) {
      var op := if invert then Inverse(c.op) else c.op;
      var f := GenExpr(c.l, k);
      if IsSmall(c.r) {
        CountsStopped(code, COMPARE_I_JF(op, c.r.n, n), Choices(c));
      } else {
        TwoCount(c.l, c.r, k);
        CountsThen(f.code + GenExpr(c.r, f.Next(k)).code, COMPARE_JF(op, n), 2 + Choices(c), Choices(c));
      }
    } else {
      CountsStopped(code, JUMP_IF_FALSE(n), Choices(c));
    }
  }

  lemma StraightCounts(s: Stmt, k: nat)
    requires Tree.Straight(s) && !s.ReturnS?
    ensures Counts(GenStraight(s, k).code, Surplus(s))
  {
    hide Counts, Supported, GenExpr, Bytes;
    Unsupported();
    match s
    case Pass => assert Counts([], 0) by { NothingCounts(); }
    case ExprStmt(e) =>
      ExprCounts(e, k);
      CountsThen(GenExpr(e, k).code, POP, 1 + Choices(e), Choices(e));
    case Assign(_, _, _) => AssignCounts(s, k);
    case AssignOp(x, op, e) => LoadedCounts(x, e, if op == BinOp.Add then ADD_INPLACE else BINARY(op), k);
    case AssignCoalesce(x, e) => CountsStopped(GenStraight(s, k).code, COALESCE(Len(GenExpr(e, k).code)), Surplus(s));
    case Say(vs) => CountsStopped(GenStraight(s, k).code, SAY(|vs|), Surplus(s));
    case ThrowS(_) => CountsStopped(GenStraight(s, k).code, THROW_, Surplus(s));
  }

  lemma NothingCounts()
    ensures Counts([], 0)
  {
  }

  lemma AssignCounts(s: Stmt, k: nat)
    requires s.Assign?
    ensures Counts(GenStraight(s, k).code, Surplus(s))
  {
    hide Counts, GenExpr;
    var x, e := s.slot, s.e;
    if !s.isSet && e.Infix? && e.op == BinOp.Add && e.l == Name(x) {
      LoadedCounts(x, e.r, ADD_INPLACE, k);
      assert Choices(e.l) == 0;
    } else {
      ExprCounts(e, k);
      CountsThen(GenExpr(e, k).code, SET_LOCAL(x), 1 + Choices(e), Choices(e));
    }
  }

  lemma LoadedCounts(x: nat, e: Expr, i: Instr, k: nat)
    requires i.ADD_INPLACE? || i.BINARY?
    ensures Counts([GET_LOCAL(x)] + GenExpr(e, k).code + [i] + [SET_LOCAL(x)], Choices(e))
  {
    hide Counts, GenExpr, Choices;
    var a, b := [GET_LOCAL(x)], GenExpr(e, k).code;
    CountsOne(GET_LOCAL(x));
    ExprCounts(e, k);
    CountsCat(a, b, 1, 1 + Choices(e));
    CountsThen(a + b, i, 2 + Choices(e), 1 + Choices(e));
    CountsThen(a + b + [i], SET_LOCAL(x), 1 + Choices(e), Choices(e));
  }

  lemma {:induction false} BlockCounts(b: seq<Stmt>, k: nat, S: seq<Scope>)
    ensures Counts(GenBlock(b, k, S, InLoop(|S|)).code, BlockSurplus(b))
    decreases WB(b), 1
  {
    hide Counts, GenStmt, Surplus;
    NothingCounts();
    if b != [] {
      var f := GenStmt(b[0], k, S, InLoop(|S|));
      StmtCounts(b[0], k, S);
      BlockCounts(b[1..], f.Next(k), S);
      CountsCat(f.code, GenBlock(b[1..], f.Next(k), S, InLoop(|S|)).code, Surplus(b[0]), BlockSurplus(b[1..]));
    }
  }

  lemma {:induction false} StmtCounts(s: Stmt, k: nat, S: seq<Scope>)
    ensures Counts(GenStmt(s, k, S, InLoop(|S|)).code, Surplus(s))
    decreases W(s), 0
  {
    hide Counts, Supported, GenBlock, GenCond, GenExpr, GenStraight, GenWhile, GenCases, CondConsts, Bytes;
    hide GenTryFinally, GenTryCatch, BlockSurplus, CasesSurplus, Choices, IsCompare;
    var D := InLoop(|S|);
    match s
    case BreakS => assert [] + [BreakJ] == [BreakJ]; CountsOne(BreakJ);
    case ContinueS => assert [] + [ContJ] == [ContJ]; CountsOne(ContJ);
    case ReturnS(_) => Unsupported(); CountsStopped(GenStmt(s, k, S, D).code, RETURN, Surplus(s));
    case If(c, b) => GuardedCounts(c, b, k, S, Len(GenBlock(b, k + |CondConsts(c, k)|, S, D).code));
    case IfElse(_, _, _) => IfElseCounts(s, k, S);
    case While(_, _, _) => LoopCounts(s, k, S, D);
    case Match(e, cs) =>
      var f := GenExpr(e, k);
      ExprCounts(e, k);
      CasesCount(cs, f.Next(k), S);
      CountsCat(f.code, GenCases(cs, f.Next(k), S, D).code, 1 + Choices(e), CasesSurplus(cs) - 1);
    case TryFinally(_, _) =>
      Unsupported();
      EndsWithThrow(s, k, S, D);
      CountsStopped(GenTryFinally(s, k, S, D).code, THROW_, Surplus(s));
    case TryCatch(_, _, _, _) =>
      Unsupported();
      PopsHandler(s, k, S, D);
      CountsStopped(GenTryCatch(s, k, S, D).code, TRY_POP, Surplus(s));
    case BlockS(b) => BlockCounts(b, k, S);
    case Pass => StraightCounts(s, k);
    case ExprStmt(_) => StraightCounts(s, k);
    case Assign(_, _, _) => StraightCounts(s, k);
    case AssignOp(_, _, _) => StraightCounts(s, k);
    case AssignCoalesce(_, _) => StraightCounts(s, k);
    case Say(_) => StraightCounts(s, k);
    case ThrowS(_) => StraightCounts(s, k);
  }

  lemma {:induction false} GuardedCounts(c: Expr, b: seq<Stmt>, k: nat, S: seq<Scope>, n: nat)
    ensures var kb := k + |CondConsts(c, k)|;
      Counts(GenCond(c, false, k, n).code + GenBlock(b, kb, S, InLoop(|S|)).code, Choices(c) + BlockSurplus(b))
    decreases WB(b), 2
  {
    hide Counts, GenBlock, GenCond, CondConsts, Choices, BlockSurplus;
    var kb := k + |CondConsts(c, k)|;
    CondCounts(c, false, k, n);
    BlockCounts(b, kb, S);
    CountsCat(GenCond(c, false, k, n).code, GenBlock(b, kb, S, InLoop(|S|)).code, Choices(c), BlockSurplus(b));
  }

  lemma {:induction false} IfElseCounts(s: Stmt, k: nat, S: seq<Scope>)
    requires s.IfElse?
    ensures Counts(GenStmt(s, k, S, InLoop(|S|)).code, Surplus(s))
    decreases WB(s.body) + W(s.alt), 3
  {
    hide Counts, GenBlock, GenCond, CondConsts, Choices, BlockSurplus, Bytes;
    var kb, D := k + |CondConsts(s.c, k)|, InLoop(|S|);
    var g := GenBlock(s.body, kb, S, D);
    var h := GenStmt(s.alt, g.Next(kb), S, D);
    var fg := GenCond(s.c, false, k, Len(g.code) + 3).code + g.code;
    var j := JUMP(Len(h.code));
    assert GenStmt(s, k, S, D).code == fg + [j] + h.code;
    var n := Choices(s.c) + BlockSurplus(s.body);
    GuardedCounts(s.c, s.body, k, S, Len(g.code) + 3);
    CountsThen(fg, j, n, n);
    StmtCounts(s.alt, g.Next(kb), S);
    CountsCat(fg + [j], h.code, n, Surplus(s.alt));
  }

  lemma {:induction false} CasesCount(cs: seq<Case>, k: nat, S: seq<Scope>)
    ensures Counts(GenCases(cs, k, S, InLoop(|S|)).code, CasesSurplus(cs) - 1)
    decreases WC(cs), 1
  {
    hide Counts, GenBlock, Bytes, BlockSurplus, GenPatterns, PatternConsts;
    var D := InLoop(|S|);
    if cs == [] {
      NoCasesCode(k, S, D);
      CountsOne(POP);
    } else {
      var c := cs[0];
      if c.Branch? && c.patterns != [] {
        ComparesCount(cs, k, S, D, CasesSurplus(cs) - 1);
      } else {
        var kb := if c.Branch? then k + |PatternConsts(c.patterns, k)| else k;
        var g := GenBlock(c.body, kb, S, D);
        var rest := GenCases(cs[1..], g.Next(kb), S, D);
        var j := JUMP(Len(rest.code));
        var n := BlockSurplus(c.body) - 1;
        DefaultCode(cs, k, S, D);
        BlockCounts(c.body, kb, S);
        CasesCount(cs[1..], g.Next(kb), S);
        CountsOne(POP);
        CountsCat([POP], g.code, -1, BlockSurplus(c.body));
        CountsThen([POP] + g.code, j, n, n);
        CountsCat([POP] + g.code + [j], rest.code, n, CasesSurplus(cs[1..]) - 1);
      }
    }
  }

  lemma ComparesCount(cs: seq<Case>, k: nat, S: seq<Scope>, D: Loop, n: int)
    requires cs != [] && cs[0].Branch? && cs[0].patterns != []
    ensures Counts(GenCases(cs, k, S, D).code, n)
  {
    hide GenBlock, GenExpr, Bytes, Supported, Counts;
    Unsupported();
    CountsStopped(GenCases(cs, k, S, D).code, BINARY(Eq), n);
  }

  lemma {:induction false} CountsResolved(code: seq<Instr>, at: nat, c: nat, b: nat, n: int)
    requires Counts(code, n)
    ensures Counts(Resolve(code, at, To(c), To(b)), n)
  {
    hide Resolve, Sum, Supported, Encode;
    SumResolved(code, at, c, b);
  }

  lemma {:induction false} SumResolved(code: seq<Instr>, at: nat, c: nat, b: nat)
    ensures var r := Resolve(code, at, To(c), To(b)); Sum(r) == Sum(code) && (Known(r) <==> Known(code))
  {
    hide Encode, Supported, Delta, Hole, Settle;
    if code != [] {
      var r := Resolve(code, at, To(c), To(b));
      var rest := Resolve(code[1..], at + Size(code[0]), To(c), To(b));
      assert r == [r[0]] + rest && r[1..] == rest;
      assert code == [code[0]] + code[1..];
      SettleDep(code[0], at, c, b, 0);
      SumResolved(code[1..], at + Size(code[0]), c, b);
      KnownStep(r); KnownStep(code);
    }
  }

  lemma KnownStep(code: seq<Instr>)
    requires code != []
    ensures Known(code) <==> (Supported(code[0]) || Hole(code[0])) && Known(code[1..])
  {
    hide Supported, Hole;
    assert code == [code[0]] + code[1..];
  }

  lemma {:induction false} LoopCounts(s: Stmt, k: nat, S: seq<Scope>, D: Loop)
    requires s.While?
    ensures Counts(GenWhile(s, k, S, D).code, Surplus(s))
    decreases WB(s.body), 2
  {
    hide Counts, GenBlock, GenCond, CondConsts, Bytes, Resolve, Choices, BlockSurplus;
    var kb := k + |CondConsts(s.c, k)|;
    var g := GenBlock(s.body, kb, S, InLoop(|S|));
    var f := GenCond(s.c, s.until, k, Len(g.code) + 3).code;
    var total := Len(f) + Len(g.code) + 3;
    CondCounts(s.c, s.until, k, Len(g.code) + 3);
    BlockCounts(s.body, kb, S);
    CountsResolved(g.code, Len(f), 0, total, BlockSurplus(s.body));
    CountsCat(f, Resolve(g.code, Len(f), To(0), To(total)), Choices(s.c), BlockSurplus(s.body));
    CountsThen(f + Resolve(g.code, Len(f), To(0), To(total)), LOOP(total), Surplus(s), Surplus(s));
  }

  predicate NoMatch(s: Stmt)
    decreases W(s), 0
  {
    match s
    case If(_, b) => BlockNoMatch(b)
    case IfElse(_, b, a) => BlockNoMatch(b) && NoMatch(a)
    case While(_, _, b) => BlockNoMatch(b)
    case Match(_, _) => false
    case TryFinally(b, f) => BlockNoMatch(b) && BlockNoMatch(f)
    case TryCatch(b, _, c, f) => BlockNoMatch(b) && BlockNoMatch(c) && BlockNoMatch(f)
    case BlockS(b) => BlockNoMatch(b)
    case _ => true
  }

  predicate BlockNoMatch(b: seq<Stmt>)
    decreases WB(b), 1
  {
    b != [] ==> NoMatch(b[0]) && BlockNoMatch(b[1..])
  }

  lemma {:induction false} ChoicesExactly(e: Expr)
    ensures Choices(e) == 0 <==> NoChoice(e)
    decreases WE(e)
  {
    match e
    case Prefix(_, a) => ChoicesExactly(a);
    case Infix(_, l, r) => ChoicesExactly(l); ChoicesExactly(r);
    case AndE(l, r) => ChoicesExactly(l); ChoicesExactly(r);
    case OrE(l, r) => ChoicesExactly(l); ChoicesExactly(r);
    case CoalesceE(l, r) => ChoicesExactly(l); ChoicesExactly(r);
    case _ =>
  }

  lemma {:induction false} AllChoicesExactly(es: seq<Expr>)
    ensures AllChoices(es) == 0 <==> forall e :: e in es ==> NoChoice(e)
  {
    hide Choices, NoChoice;
    if es != [] {
      assert forall e :: e in es <==> e == es[0] || e in es[1..];
      ChoicesExactly(es[0]);
      AllChoicesExactly(es[1..]);
    }
  }

  /** Without `match`, nothing makes up for a conditional expression. */
  lemma {:induction false} SurplusExactly(s: Stmt)
    requires NoMatch(s)
    ensures Surplus(s) >= 0 && (Surplus(s) == 0 <==> ChoiceFree(s))
    decreases W(s), 0
  {
    hide Choices, NoChoice, AllChoices, BlockSurplus, BlockChoiceFree, BlockNoMatch;
    match s
    case ExprStmt(e) => ChoicesExactly(e);
    case Assign(_, e, _) => ChoicesExactly(e);
    case AssignOp(_, _, e) => ChoicesExactly(e);
    case AssignCoalesce(_, e) => ChoicesExactly(e);
    case Say(vs) => AllChoicesExactly(vs);
    case ThrowS(e) => ChoicesExactly(e);
    case ReturnS(e) => ChoicesExactly(e);
    case If(c, b) => ChoicesExactly(c); BlockSurplusExactly(b);
    case IfElse(c, b, a) => ChoicesExactly(c); BlockSurplusExactly(b); SurplusExactly(a);
    case While(_, c, b) => ChoicesExactly(c); BlockSurplusExactly(b);
    case TryFinally(b, f) => BlockSurplusExactly(b); BlockSurplusExactly(f);
    case TryCatch(b, _, c, f) => BlockSurplusExactly(b); BlockSurplusExactly(c); BlockSurplusExactly(f);
    case BlockS(b) => BlockSurplusExactly(b);
    case _ =>
  }

  lemma {:induction false} BlockSurplusExactly(b: seq<Stmt>)
    requires BlockNoMatch(b)
    ensures BlockSurplus(b) >= 0 && (BlockSurplus(b) == 0 <==> BlockChoiceFree(b))
    decreases WB(b), 1
  {
    hide Surplus, ChoiceFree, NoMatch;
    if b != [] {
      SurplusExactly(b[0]);
      BlockSurplusExactly(b[1..]);
    }
  }

  // ---------------------------------------------------------------- leaving at the jump back

  /** A jump back that finds the collector waiting leaves with the operands that were counted. */
  lemma BackEdgeLeaves(w: World, m: M, i: Instr, off: nat, next: nat, d: nat)
    requires w.j == JitRegion.Compiled(w.r, w.L) && Roomy(w.L, m, d) && w.gc(m.polls)
    requires i.LOOP? && i.d <= next && StandsAt(w.j, m.pc, EmitOne(w.r, w.L, i, off, next, d))
    ensures exists t :: Gets(w.j, w.gc, m, t, 1) && LeftAs(w.L, m, t, next - i.d, d)
  {
    hide JitRegion.Compiled, EmitOne, StandsAt, TailStands, BailTo, Gets, LeftAs, BranchTo;
    var target := next - i.d;
    var bail := BailTo(target, d, |w.L|);
    LoopCode(w, m.pc, i, off, next, d);
    FlagRuns(w.j, w.gc, m);
    var u := m.(pc := m.pc + 2, regs := m.regs.(rax := 1, rcx := 0), polls := m.polls + 1, flags := (1, 0));
    JumpOver(w.j, w.gc, u, E, |bail|);
    var v := u.(pc := u.pc + 1);
    GetsOn(w.j, w.gc, m, u, v, 0, 0);
    TailPlaced(w);
    BailLeaves(w.j, w.gc, w.L, v, d, target);
    var t :| Gets(w.j, w.gc, v, t, 1) && LeftAs(w.L, v, t, target, d);
    GetsOn(w.j, w.gc, m, v, t, 0, 1);
    SameRegisters(w.L, m, v, t, target, d);
  }

  lemma SameRegisters(L: seq<nat>, m: M, v: M, t: M, off: int, d: nat)
    requires m.Go? && v.Go? && m.regs.pool == v.regs.pool && m.slots == v.slots && |L| + d <= |m.regs.pool|
    requires LeftAs(L, v, t, off, d)
    ensures LeftAs(L, m, t, off, d)
  {
  }

  /** An accepted loop, at the code of its jump back, the collector waiting: whatever the registers hold,
      it leaves for the loop's start with one operand for every conditional expression, less one for every
      branch of a `match`; so without `match`, with none exactly if no conditional expression stands in it.
      The interpreter has none there. */
  lemma LoopLeaves(w: World, x: Site, s: Stmt, k: nat, S: seq<Scope>, D: Loop, n: nat, m: M)
    requires s.While? && Formed(s, n) && FinsFormed(S, n) && Stands(x, w.r.start, GenWhile(s, k, S, D), k)
    requires w.r == Region(x.ch, w.r.start, w.r.start + Len(GenWhile(s, k, S, D).code)) && w.Built(n)
    requires Roomy(w.L, m, 0) && w.gc(m.polls)
    requires w.r.end >= 3 && w.r.end - 3 in w.j.labels && m.pc == w.j.labels[w.r.end - 3]
    ensures exists t ::
      && Gets(w.j, w.gc, m, t, 1) && t.Left? && t.off == w.r.start && |t.stack| == Surplus(s)
      && (NoMatch(s) ==> (t.stack == [] <==> ChoiceFree(s)))
      && forall v: VM :: v.Running? && |v.stack| == |w.e.base| && t.stack != [] ==> !Exits(w.heap, w.e, t, v)
  {
    hide GenWhile, Gets, Surplus, JitRegion.Compiled, EmitOne, StandsAt, Accepted, Stands, Walks, Dep, ChoiceFree,
        NoMatch;
    var d := AtJumpBack(w, x, s, k, S, D, n, m);
    var i := LOOP(Len(GenWhile(s, k, S, D).code));
    BackEdgeLeaves(w, m, i, w.r.end - 3, w.r.end, d);
    var t :| Gets(w.j, w.gc, m, t, 1) && LeftAs(w.L, m, t, w.r.end - i.d, d);
    assert t.Left? && t.off == w.r.start && |t.stack| == Surplus(s);
    if NoMatch(s) { SurplusExactly(s); }
  }

  lemma WhileEnds(s: Stmt, k: nat, S: seq<Scope>, D: Loop)
    requires s.While?
    ensures var code := GenWhile(s, k, S, D).code;
      var q := |code| - 1;
      q >= 0 && code[q] == LOOP(Len(code)) && Len(code[..q]) == Len(code) - 3 && code[..q + 1] == code
  {
    hide GenBlock, GenCond, CondConsts, Bytes, Resolve;
    var g := GenBlock(s.body, k + |CondConsts(s.c, k)|, S, InLoop(|S|));
    var f := GenCond(s.c, s.until, k, Len(g.code) + 3).code;
    var total := Len(f) + Len(g.code) + 3;
    var r := Resolve(g.code, Len(f), To(0), To(total));
    var code := GenWhile(s, k, S, D).code;
    assert code == f + r + [LOOP(total)];
    assert code[..|code| - 1] == f + r;
    ResolveLen(g.code, Len(f), To(0), To(total));
    LenCat(f, r); LenCat(f + r, [LOOP(total)]);
    BytesOne(LOOP(total));
    JumpSize(LOOP(total));
  }

  /** The code of the jump back, and how many operands are counted there. */
  lemma AtJumpBack(w: World, x: Site, s: Stmt, k: nat, S: seq<Scope>, D: Loop, n: nat, m: M) returns (d: nat)
    requires s.While? && Formed(s, n) && FinsFormed(S, n) && Stands(x, w.r.start, GenWhile(s, k, S, D), k)
    requires w.r == Region(x.ch, w.r.start, w.r.start + Len(GenWhile(s, k, S, D).code)) && w.Built(n)
    requires Roomy(w.L, m, 0)
    requires w.r.end >= 3 && w.r.end - 3 in w.j.labels && m.pc == w.j.labels[w.r.end - 3]
    ensures d == Surplus(s) && Roomy(w.L, m, d)
    ensures var i := LOOP(Len(GenWhile(s, k, S, D).code));
      StandsAt(w.j, m.pc, EmitOne(w.r, w.L, i, w.r.end - 3, w.r.end, d))
  {
    hide GenWhile, Surplus, JitRegion.Compiled, EmitOne, StandsAt, Stands, Walks, Dep, Bytes, Scan, Prepass,
        NoZeroMod, Fetch, AllLegal, Sum, Known;
    var code := GenWhile(s, k, S, D).code;
    var q := |code| - 1;
    WhileEnds(s, k, S, D);
    AcceptedWalks(x, w.r.start, s, k, S, D, n);
    ScanVisits(w.r, w.r.start, code, 0, q);
    FetchAt(w.r.ch, w.r.start, code, q);
    d := Dep(code[..q], 0);
    DepCat(code[..q], [code[q]], 0);
    assert code == code[..q] + [code[q]];
    WalksOne(code[q], d);
    WalksSum(code, 0);
    LoopCounts(s, k, S, D);
    PrepassChecks(w.r, w.r.start, 0, Uses([], 0), w.r.end - 3, d);
    TailPlaced(w);
    LabelStands(w.r, w.L, w.j, w.r.start, 0, |Prologue(w.L, 0)|, w.r.end - 3, d);
    RestIs(w.r, w.L, w.r.end - 3, d);
    StandsCat(w.j, m.pc, EmitOne(w.r, w.L, code[q], w.r.end - 3, w.r.end, d), Rest(w.r, w.L, w.r.end, d));
  }
}
