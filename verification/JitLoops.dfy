/** The loops that the bytecode compiler emits are regular regions, if no conditional expression stands
 in them and the loop compiler accepts them. */
module JitLoops {
  import opened Bytecode
  import opened Tree
  import opened Codegen
  import opened CodegenLayout
  import opened CodegenMain
  import opened JitRegion
  import opened JitRuns
  import opened JitMachine
  import opened JitWords
  import opened Options

  // ---------------------------------------------------------------- loops without conditional expressions

  predicate NoChoice(e: Expr) {
    match e
    case Prefix(_, a) => NoChoice(a)
    case Infix(_, l, r) => NoChoice(l) && NoChoice(r)
    case AndE(l, r) => NoChoice(l) && NoChoice(r)
    case OrE(l, r) => NoChoice(l) && NoChoice(r)
    case CoalesceE(l, r) => NoChoice(l) && NoChoice(r)
    case Conditional(_, _, _) => false
    case _ => true
  }

  predicate ChoiceFree(s: Stmt)
    decreases W(s), 0
  {
    match s
    case ExprStmt(e) => NoChoice(e)
    case Assign(_, e, _) => NoChoice(e)
    case AssignOp(_, _, e) => NoChoice(e)
    case AssignCoalesce(_, e) => NoChoice(e)
    case Say(vs) => forall v :: v in vs ==> NoChoice(v)
    case ThrowS(e) => NoChoice(e)
    case ReturnS(e) => NoChoice(e)
    case If(c, b) => NoChoice(c) && BlockChoiceFree(b)
    case IfElse(c, b, a) => NoChoice(c) && BlockChoiceFree(b) && ChoiceFree(a)
    case While(_, c, b) => NoChoice(c) && BlockChoiceFree(b)
    case Match(e, cs) => NoChoice(e) && CasesChoiceFree(cs)
    case TryFinally(b, f) => BlockChoiceFree(b) && BlockChoiceFree(f)
    case TryCatch(b, _, c, f) => BlockChoiceFree(b) && BlockChoiceFree(c) && BlockChoiceFree(f)
    case BlockS(b) => BlockChoiceFree(b)
    case _ => true
  }

  predicate BlockChoiceFree(b: seq<Stmt>)
    decreases WB(b), 1
  {
    b != [] ==> ChoiceFree(b[0]) && BlockChoiceFree(b[1..])
  }

  predicate CasesChoiceFree(cs: seq<Case>)
    decreases WC(cs), 1
  {
    cs != [] ==>
      && (cs[0].Branch? ==> forall p :: p in cs[0].patterns ==> NoChoice(p))
      && BlockChoiceFree(cs[0].body) && CasesChoiceFree(cs[1..])
  }

  // ---------------------------------------------------------------- operands counted along the code

  predicate Hole(i: Instr) { i.BreakJ? || i.ContJ? }

  /** The depth behind a list of instructions. */
  function Dep(code: seq<Instr>, d: nat): nat {
    if code == [] then d else Dep(code[1..], After(d, code[0]))
  }

  /** What the first pass of the loop compiler lets through, jumps out of the loop still open. */
  predicate Walks(code: seq<Instr>, d: nat) {
    code == []
    || ((Supported(code[0]) || Hole(code[0])) && d + Delta(code[0]) >= 0 && Walks(code[1..], After(d, code[0])))
  }

  lemma {:induction false} DepCat(a: seq<Instr>, b: seq<Instr>, d: nat)
    ensures Dep(a + b, d) == Dep(b, Dep(a, d))
  {
    if a == [] {
      assert a + b == b;
    } else {
      assert (a + b)[0] == a[0] && (a + b)[1..] == a[1..] + b;
      DepCat(a[1..], b, After(d, a[0]));
    }
  }

  lemma {:induction false} WalksCat(a: seq<Instr>, b: seq<Instr>, d: nat)
    ensures Walks(a + b, d) <==> Walks(a, d) && Walks(b, Dep(a, d))
  {
    hide Supported, Delta, After;
    if a == [] {
      assert a + b == b;
    } else {
      assert (a + b)[0] == a[0] && (a + b)[1..] == a[1..] + b;
      WalksCat(a[1..], b, After(d, a[0]));
    }
  }

  lemma WalksOne(i: Instr, d: nat)
    ensures Walks([i], d) <==> (Supported(i) || Hole(i)) && d + Delta(i) >= 0
    ensures Dep([i], d) == After(d, i)
  {
    assert [i][1..] == [];
  }

  /** An instruction that is not supported stops the pass wherever it stands. */
  lemma {:induction false} Stops(code: seq<Instr>, d: nat, i: Instr)
    requires i in code && !Supported(i) && !Hole(i)
    ensures !Walks(code, d)
  {
    hide Supported;
    if code[0] != i {
      assert i in code[1..];
      Stops(code[1..], After(d, code[0]), i);
    }
  }

  // ---------------------------------------------------------------- jumps that arrive with what was counted

  /** How far from the start of the code the `j`-th instruction leads, if it jumps. */
  function LeadsTo(code: seq<Instr>, j: nat): Option<int>
    requires j < |code|
  {
    match code[j]
    case COMPARE_JF(_, d) => Some(Len(code[..j + 1]) + d)
    case JUMP(d) => Some(Len(code[..j + 1]) + d)
    case LOOP(d) => Some(Len(code[..j + 1]) - d)
    case _ => None
  }

  /** An instruction boundary without operands. */
  predicate RestAt(code: seq<Instr>, d: nat, m: nat, t: int) {
    m <= |code| && Len(code[..m]) == t && Dep(code[..m], d) == 0
  }

  ghost predicate Arrive(code: seq<Instr>, d: nat, t: int) { exists m: nat :: RestAt(code, d, m, t) }

  ghost predicate StepFits(code: seq<Instr>, d: nat, j: nat, outs: set<int>)
    requires j < |code|
  {
    && Needs(code[j]) <= Dep(code[..j], d)
    && (Hole(code[j]) ==> Dep(code[..j], d) == 0)
    && (LeadsTo(code, j).Some? ==>
         Dep(code[..j + 1], d) == 0 && (LeadsTo(code, j).value in outs || Arrive(code, d, LeadsTo(code, j).value)))
  }

  /** Every instruction finds its operands, and every jump leads, without operands, to such a boundary
      or to one of `outs`. */
  ghost predicate Fitting(code: seq<Instr>, d: nat, outs: set<int>) {
    forall j: nat :: j < |code| ==> StepFits(code, d, j, outs)
  }

  lemma LenCat(a: seq<Instr>, b: seq<Instr>)
    ensures Len(a + b) == Len(a) + Len(b)
  {
    BytesCat(a, b);
  }

  lemma ArriveFirst(a: seq<Instr>, b: seq<Instr>, d: nat, t: int)
    requires Arrive(a, d, t)
    ensures Arrive(a + b, d, t)
  {
    var m: nat :| RestAt(a, d, m, t);
    assert (a + b)[..m] == a[..m];
    assert RestAt(a + b, d, m, t);
  }

  lemma ArriveSecond(a: seq<Instr>, b: seq<Instr>, d: nat, t: int)
    requires Arrive(b, Dep(a, d), t)
    ensures Arrive(a + b, d, Len(a) + t)
  {
    var m: nat :| RestAt(b, Dep(a, d), m, t);
    assert (a + b)[..|a| + m] == a + b[..m];
    DepCat(a, b[..m], d);
    LenCat(a, b[..m]);
    assert RestAt(a + b, d, |a| + m, Len(a) + t);
  }

  /** Behind the code, if it leaves no operands. */
  lemma ArriveEnd(code: seq<Instr>, d: nat)
    requires Dep(code, d) == 0
    ensures Arrive(code, d, Len(code))
  {
    assert code[..|code|] == code;
    assert RestAt(code, d, |code|, Len(code));
  }

  lemma StepFirst(a: seq<Instr>, b: seq<Instr>, d: nat, j: nat, oa: set<int>, outs: set<int>)
    requires j < |a| && StepFits(a, d, j, oa)
    requires forall t :: t in oa ==> t in outs || Arrive(a + b, d, t)
    ensures StepFits(a + b, d, j, outs)
  {
    hide Dep, Bytes, Arrive, Needs;
    var c := a + b;
    assert c[j] == a[j] && c[..j] == a[..j] && c[..j + 1] == a[..j + 1];
    assert LeadsTo(c, j) == LeadsTo(a, j);
    if LeadsTo(a, j).Some? && LeadsTo(a, j).value !in oa { ArriveFirst(a, b, d, LeadsTo(a, j).value); }
  }

  lemma StepSecond(a: seq<Instr>, b: seq<Instr>, d: nat, j: nat, ob: set<int>, outs: set<int>)
    requires j < |b| && StepFits(b, Dep(a, d), j, ob)
    requires forall t :: t in ob ==> Len(a) + t in outs || Arrive(a + b, d, Len(a) + t)
    ensures StepFits(a + b, d, |a| + j, outs)
  {
    hide Dep, Bytes, Arrive, Needs, LeadsTo, Hole, StepFits;
    var c, n := a + b, |a| + j;
    DepBehind(a, b, d, j, n); DepBehind(a, b, d, j + 1, n + 1);
    GoalBehind(a, b, j);
    StepParts(b, Dep(a, d), j, ob);
    if LeadsTo(b, j).Some? && LeadsTo(b, j).value !in ob { ArriveSecond(a, b, d, LeadsTo(b, j).value); }
    StepWhole(c, d, n, outs);
  }

  lemma StepParts(code: seq<Instr>, d: nat, j: nat, outs: set<int>)
    requires j < |code| && StepFits(code, d, j, outs)
    ensures Needs(code[j]) <= Dep(code[..j], d)
    ensures Hole(code[j]) ==> Dep(code[..j], d) == 0
    ensures LeadsTo(code, j).Some? ==> Dep(code[..j + 1], d) == 0
    ensures LeadsTo(code, j).Some? ==> LeadsTo(code, j).value in outs || Arrive(code, d, LeadsTo(code, j).value)
  {
  }

  lemma StepWhole(code: seq<Instr>, d: nat, j: nat, outs: set<int>)
    requires j < |code| && Needs(code[j]) <= Dep(code[..j], d)
    requires Hole(code[j]) ==> Dep(code[..j], d) == 0
    requires LeadsTo(code, j).Some? ==> Dep(code[..j + 1], d) == 0
    requires LeadsTo(code, j).Some? ==> LeadsTo(code, j).value in outs || Arrive(code, d, LeadsTo(code, j).value)
    ensures StepFits(code, d, j, outs)
  {
  }

  lemma PrefixBehind(a: seq<Instr>, b: seq<Instr>, j: nat)
    requires j <= |b|
    ensures (a + b)[..|a| + j] == a + b[..j]
  {
  }

  lemma DepBehind(a: seq<Instr>, b: seq<Instr>, d: nat, j: nat, n: nat)
    requires j <= |b| && n == |a| + j
    ensures Dep((a + b)[..n], d) == Dep(b[..j], Dep(a, d))
  {
    hide Dep;
    PrefixBehind(a, b, j);
    DepCat(a, b[..j], d);
  }

  lemma GoalBehind(a: seq<Instr>, b: seq<Instr>, j: nat)
    requires j < |b|
    ensures (a + b)[|a| + j] == b[j]
    ensures LeadsTo(a + b, |a| + j) == match LeadsTo(b, j) case Some(t) => Some(Len(a) + t) case None => None
  {
    hide Bytes;
    PrefixBehind(a, b, j + 1);
    LenCat(a, b[..j + 1]);
  }

  lemma FittingCat(a: seq<Instr>, b: seq<Instr>, d: nat, oa: set<int>, ob: set<int>, outs: set<int>)
    requires Fitting(a, d, oa) && Fitting(b, Dep(a, d), ob)
    requires forall t :: t in oa ==> t in outs || Arrive(a + b, d, t)
    requires forall t :: t in ob ==> Len(a) + t in outs || Arrive(a + b, d, Len(a) + t)
    ensures Fitting(a + b, d, outs)
  {
    hide StepFits, Dep, Arrive;
    forall j: nat | j < |a + b| ensures StepFits(a + b, d, j, outs) {
      if j < |a| {
        StepFirst(a, b, d, j, oa, outs);
      } else {
        StepSecond(a, b, d, j - |a|, ob, outs);
      }
    }
  }

  /** The same for code without jumps out. */
  lemma FittingBoth(a: seq<Instr>, b: seq<Instr>, d: nat)
    requires Fitting(a, d, {}) && Fitting(b, Dep(a, d), {})
    ensures Fitting(a + b, d, {}) && Dep(a + b, d) == Dep(b, Dep(a, d))
  {
    hide Fitting, Dep;
    FittingCat(a, b, d, {}, {}, {});
    DepCat(a, b, d);
  }

  lemma FittingNone(d: nat)
    ensures Fitting([], d, {}) && Dep([], d) == d && Walks([], d)
  {
  }

  /** One instruction that does not jump. */
  lemma FittingOne(i: Instr, d: nat)
    requires Needs(i) <= d && (Hole(i) ==> d == 0)
    requires !i.COMPARE_JF? && !i.JUMP? && !i.LOOP?
    ensures Fitting([i], d, {})
  {
    var code := [i];
    assert code[..0] == [];
    forall j: nat | j < |code| ensures StepFits(code, d, j, {}) { assert j == 0; }
  }

  /** One jump out. */
  lemma FittingJump(i: Instr, d: nat)
    requires Needs(i) <= d && After(d, i) == 0
    requires i.COMPARE_JF? || i.JUMP? || i.LOOP?
    ensures Size(i) == 3 && Len([i]) == 3 && Fitting([i], d, {if i.LOOP? then 3 - i.d else 3 + i.d})
  {
    var code := [i];
    assert code[..0] == [] && code[..1] == code;
    BytesOne(i);
    WalksOne(i, d);
    var outs := {if i.LOOP? then 3 - i.d else 3 + i.d};
    forall j: nat | j < |code| ensures StepFits(code, d, j, outs) { assert j == 0; }
  }

  // ---------------------------------------------------------------- expressions

  /** Code that the pass lets through adds one operand, and fits. */
  ghost predicate Values(code: seq<Instr>, d: nat) {
    Walks(code, d) ==> Fitting(code, d, {}) && Dep(code, d) == d + 1
  }

  lemma ValuesStopped(code: seq<Instr>, d: nat, i: Instr)
    requires i in code && !Supported(i) && !Hole(i)
    ensures Values(code, d)
  {
    hide Walks, Fitting, Dep, Supported;
    Stops(code, d, i);
  }

  lemma {:induction false} ExprFits(e: Expr, k: nat, d: nat)
    requires NoChoice(e)
    ensures Values(GenExpr(e, k).code, d)
    decreases WE(e), 1
  {
    hide Values, Supported;
    Unsupported();
    match e
    case IntLit(_) => PushFits(CONST(k), d);
    case BoolLit(b) => StoppedBy(if b then TRUE_ else FALSE_, d);
    case NullLit => StoppedBy(NIL, d);
    case Name(s) => PushFits(GET_LOCAL(s), d);
    case Prefix(op, a) => ValuesStopped(GenExpr(e, k).code, d, PREFIX(op));
    case Infix(_, _, _) => InfixFits(e, k, d);
    case AndE(l, r) => ShortFits(e, k, d);
    case OrE(l, r) => ShortFits(e, k, d);
    case CoalesceE(l, r) => ShortFits(e, k, d);
  }

  lemma PushFits(i: Instr, d: nat)
    requires i.CONST? || i.GET_LOCAL?
    ensures Values([i], d)
  {
    FittingOne(i, d);
    WalksOne(i, d);
  }

  lemma StoppedBy(i: Instr, d: nat)
    requires !Supported(i) && !Hole(i)
    ensures Values([i], d)
  {
    ValuesStopped([i], d, i);
  }

  /** What the loop compiler does not know. */
  lemma Unsupported()
    ensures forall op :: !Supported(PREFIX(op))
    ensures forall n :: !Supported(AND_KEEP(n)) && !Supported(OR_KEEP(n)) && !Supported(COALESCE(n))
    ensures forall n :: !Supported(JUMP_IF_FALSE(n)) && !Supported(SAY(n)) && !Supported(TRY_PUSH(n))
    ensures forall a, b :: !Supported(LGET2(a, b))
    ensures forall op, s, n :: !Supported(LGET_I(op, s, n))
    ensures forall op, n, d :: !Supported(COMPARE_I_JF(op, n, d))
    ensures forall n :: !Supported(RUNTIME_ERROR(n))
    ensures !Supported(RETURN) && !Supported(THROW_) && !Supported(TRY_POP) && !Supported(BINARY(Eq))
    ensures !Supported(NIL) && !Supported(TRUE_) && !Supported(FALSE_)
  {
  }

  lemma ShortFits(e: Expr, k: nat, d: nat)
    requires e.AndE? || e.OrE? || e.CoalesceE?
    ensures Values(GenExpr(e, k).code, d)
  {
    hide Values, Supported, Bytes;
    Unsupported();
    var f := GenExpr(e.l, k);
    var n := Len(GenExpr(e.r, f.Next(k)).code);
    ValuesStopped(GenExpr(e, k).code, d, if e.AndE? then AND_KEEP(n) else if e.OrE? then OR_KEEP(n) else COALESCE(n));
  }

  lemma {:induction false} InfixFits(e: Expr, k: nat, d: nat)
    requires e.Infix? && NoChoice(e)
    ensures Values(GenExpr(e, k).code, d)
    decreases WE(e), 0
  {
    hide Values, Supported;
    Unsupported();
    if IsSmall(e.r) && HasImmediate(e.op) {
      if e.l.Name? && e.op in {BinOp.Add, BinOp.Sub} {
        StoppedBy(LGET_I(e.op, e.l.slot, e.r.n), d);
      } else {
        ExprFits(e.l, k, d);
        UnaryFits(GenExpr(e.l, k).code, BINARY_I(e.op, e.r.n), d);
      }
    } else if e.l.Name? && e.r.Name? {
      ValuesStopped(GenExpr(e, k).code, d, LGET2(e.l.slot, e.r.slot));
    } else {
      var f := GenExpr(e.l, k);
      ExprFits(e.l, k, d);
      ExprFits(e.r, f.Next(k), d + 1);
      BinaryFits(f.code, GenExpr(e.r, f.Next(k)).code, BINARY(e.op), d);
    }
  }

  lemma UnaryFits(a: seq<Instr>, i: Instr, d: nat)
    requires Values(a, d) && i.BINARY_I?
    ensures Values(a + [i], d)
  {
    hide Fitting, Walks, Dep;
    WalksCat(a, [i], d);
    if Walks(a, d) {
      FittingOne(i, d + 1);
      WalksOne(i, d + 1);
      FittingBoth(a, [i], d);
    }
  }

  lemma BinaryFits(a: seq<Instr>, b: seq<Instr>, i: Instr, d: nat)
    requires Values(a, d) && Values(b, d + 1) && (i.BINARY? || i.ADD_INPLACE?)
    ensures Values(a + b + [i], d)
  {
    hide Fitting, Walks, Dep;
    WalksCat(a + b, [i], d);
    WalksCat(a, b, d);
    if Walks(a, d) && Walks(b, d + 1) {
      FittingBoth(a, b, d);
      FittingOne(i, d + 2);
      WalksOne(i, d + 2);
      FittingBoth(a + b, [i], d);
    }
  }

  /** A condition: no operand is left, and the jump leads over `n` bytes. */
  lemma CondFits(c: Expr, invert: bool, k: nat, n: nat)
    requires NoChoice(c)
    ensures var code := GenCond(c, invert, k, n).code;
      Walks(code, 0) ==> Fitting(code, 0, {Len(code) + n}) && Dep(code, 0) == 0
  {
    hide Fitting, Walks, Dep, Supported, GenExpr, Bytes;
    Unsupported();
    var code := GenCond(c, invert, k, n).code;
    if c.Infix? && IsCompare(c.op) {
      var op := if invert then Inverse(c.op) else c.op;
      var f := GenExpr(c.l, k);
      if IsSmall(c.r) {
        Stops(code, 0, COMPARE_I_JF(op, c.r.n, n));
      } else {
        ExprFits(c.l, k, 0);
        ExprFits(c.r, f.Next(k), 1);
        CompareFits(f.code, GenExpr(c.r, f.Next(k)).code, COMPARE_JF(op, n));
      }
    } else {
      Stops(code, 0, JUMP_IF_FALSE(n));
    }
  }

  lemma CompareFits(a: seq<Instr>, b: seq<Instr>, i: Instr)
    requires Values(a, 0) && Values(b, 1) && i.COMPARE_JF?
    ensures var code := a + b + [i];
      Walks(code, 0) ==> Fitting(code, 0, {Len(code) + i.d}) && Dep(code, 0) == 0
  {
    hide Fitting, Walks, Dep, Bytes;
    WalksCat(a + b, [i], 0);
    WalksCat(a, b, 0);
    if Walks(a, 0) && Walks(b, 1) {
      FittingBoth(a, b, 0);
      FittingJump(i, 2);
      LenCat(a + b, [i]);
      FittingCat(a + b, [i], 0, {}, {3 + i.d}, {Len(a + b + [i]) + i.d});
      DepCat(a + b, [i], 0);
      WalksOne(i, 2);
    }
  }

  // ---------------------------------------------------------------- statements

  /** Code that the pass lets through starts and ends without operands, and fits. */
  ghost predicate Rests(code: seq<Instr>) {
    Walks(code, 0) ==> Fitting(code, 0, {}) && Dep(code, 0) == 0
  }

  lemma RestsStopped(code: seq<Instr>, i: Instr)
    requires i in code && !Supported(i) && !Hole(i)
    ensures Rests(code)
  {
    hide Walks, Fitting, Dep, Supported;
    Stops(code, 0, i);
  }

  lemma RestsBoth(a: seq<Instr>, b: seq<Instr>)
    requires Rests(a) && Rests(b)
    ensures Rests(a + b)
  {
    hide Walks, Fitting, Dep;
    WalksCat(a, b, 0);
    if Walks(a, 0) && Walks(b, 0) { FittingBoth(a, b, 0); }
  }

  /** A value and what takes it. */
  lemma ValueTaken(a: seq<Instr>, i: Instr)
    requires Values(a, 0) && (i.POP? || i.SET_LOCAL?)
    ensures Rests(a + [i])
  {
    hide Fitting, Walks, Dep;
    WalksCat(a, [i], 0);
    if Walks(a, 0) {
      FittingOne(i, 1);
      WalksOne(i, 1);
      FittingBoth(a, [i], 0);
    }
  }

  lemma StraightFits(s: Stmt, k: nat)
    requires Tree.Straight(s) && !s.ReturnS? && ChoiceFree(s)
    ensures Rests(GenStraight(s, k).code)
  {
    hide Values, Rests, Supported, GenExpr, Bytes;
    Unsupported();
    match s
    case Pass => NothingRests();
    case ExprStmt(e) =>
      ExprFits(e, k, 0);
      ValueTaken(GenExpr(e, k).code, POP);
    case Assign(_, _, _) => AssignFits(s, k);
    case AssignOp(x, op, e) =>
      var i := if op == BinOp.Add then ADD_INPLACE else BINARY(op);
      PushFits(GET_LOCAL(x), 0);
      ExprFits(e, k, 1);
      BinaryFits([GET_LOCAL(x)], GenExpr(e, k).code, i, 0);
      ValueTaken([GET_LOCAL(x)] + GenExpr(e, k).code + [i], SET_LOCAL(x));
    case AssignCoalesce(x, e) =>
      RestsStopped(GenStraight(s, k).code, COALESCE(Len(GenExpr(e, k).code)));
    case Say(vs) => RestsStopped(GenStraight(s, k).code, SAY(|vs|));
    case ThrowS(_) => RestsStopped(GenStraight(s, k).code, THROW_);
  }

  lemma AssignFits(s: Stmt, k: nat)
    requires s.Assign? && ChoiceFree(s)
    ensures Rests(GenStraight(s, k).code)
  {
    hide Values, Rests, GenExpr;
    var x, e := s.slot, s.e;
    if !s.isSet && e.Infix? && e.op == BinOp.Add && e.l == Name(x) {
      PushFits(GET_LOCAL(x), 0);
      ExprFits(e.r, k, 1);
      BinaryFits([GET_LOCAL(x)], GenExpr(e.r, k).code, ADD_INPLACE, 0);
      ValueTaken([GET_LOCAL(x)] + GenExpr(e.r, k).code + [ADD_INPLACE], SET_LOCAL(x));
    } else {
      ExprFits(e, k, 0);
      ValueTaken(GenExpr(e, k).code, SET_LOCAL(x));
    }
  }

  lemma NothingRests()
    ensures Rests([])
  {
    FittingNone(0);
  }

  /** A condition that jumps over what follows it. */
  lemma IfFits(c: seq<Instr>, g: seq<Instr>)
    requires Walks(c, 0) ==> Fitting(c, 0, {Len(c) + Len(g)}) && Dep(c, 0) == 0
    requires Rests(g)
    ensures Rests(c + g)
  {
    hide Fitting, Walks, Dep, Bytes, Arrive;
    WalksCat(c, g, 0);
    if Walks(c, 0) && Walks(g, 0) {
      DepCat(c, g, 0);
      LenCat(c, g);
      ArriveEnd(c + g, 0);
      FittingCat(c, g, 0, {Len(c) + Len(g)}, {}, {});
    }
  }

  lemma IfElseFits(c: seq<Instr>, g: seq<Instr>, h: seq<Instr>)
    requires Walks(c, 0) ==> Fitting(c, 0, {Len(c) + (Len(g) + 3)}) && Dep(c, 0) == 0
    requires Rests(g) && Rests(h)
    ensures Rests(c + g + [JUMP(Len(h))] + h)
  {
    hide Fitting, Walks, Dep, Bytes, Arrive;
    var j := JUMP(Len(h));
    var a := c + g;
    var b := a + [j];
    WalksCat(b, h, 0); WalksCat(a, [j], 0); WalksCat(c, g, 0);
    if Walks(b + h, 0) {
      var at := Len(c) + (Len(g) + 3);
      DepCat(c, g, 0);
      FittingCat(c, g, 0, {at}, {}, {at});
      WalksOne(j, 0);
      FittingJump(j, 0);
      LenCat(c, g); LenCat(a, [j]); LenCat(b, h);
      FittingCat(a, [j], 0, {at}, {3 + Len(h)}, {at, at + Len(h)});
      DepCat(a, [j], 0); DepCat(b, h, 0);
      ArriveEnd(b, 0);
      ArriveFirst(b, h, 0, at);
      ArriveEnd(b + h, 0);
      FittingCat(b, h, 0, {at, at + Len(h)}, {}, {});
    }
  }

  /** A block inside the innermost loop of a region. */
  lemma {:induction false} BlockFits(b: seq<Stmt>, k: nat, S: seq<Scope>)
    requires BlockChoiceFree(b)
    ensures Rests(GenBlock(b, k, S, InLoop(|S|)).code)
    decreases WB(b), 1
  {
    hide Rests, GenStmt, ChoiceFree;
    NothingRests();
    if b != [] {
      var f := GenStmt(b[0], k, S, InLoop(|S|));
      StmtFits(b[0], k, S);
      BlockFits(b[1..], f.Next(k), S);
      RestsBoth(f.code, GenBlock(b[1..], f.Next(k), S, InLoop(|S|)).code);
    }
  }

  lemma {:induction false} StmtFits(s: Stmt, k: nat, S: seq<Scope>)
    requires ChoiceFree(s)
    ensures Rests(GenStmt(s, k, S, InLoop(|S|)).code)
    decreases W(s), 0
  {
    hide Rests, Supported, GenBlock, GenCond, GenExpr, GenStraight, GenWhile, GenCases, CondConsts, Bytes;
    hide GenTryFinally, GenTryCatch, BlockChoiceFree, CasesChoiceFree, NoChoice, IsCompare;
    var D := InLoop(|S|);
    match s
    case BreakS => HoleFits(BreakJ);
    case ContinueS => HoleFits(ContJ);
    case ReturnS(_) => Unsupported(); RestsStopped(GenStmt(s, k, S, D).code, RETURN);
    case If(c, b) =>
      var g := GenBlock(b, k + |CondConsts(c, k)|, S, D);
      CondFits(c, false, k, Len(g.code));
      BlockFits(b, k + |CondConsts(c, k)|, S);
      IfFits(GenCond(c, false, k, Len(g.code)).code, g.code);
    case IfElse(c, b, a) =>
      var kb := k + |CondConsts(c, k)|;
      var g := GenBlock(b, kb, S, D);
      CondFits(c, false, k, Len(g.code) + 3);
      BlockFits(b, kb, S);
      StmtFits(a, g.Next(kb), S);
      IfElseFits(GenCond(c, false, k, Len(g.code) + 3).code, g.code, GenStmt(a, g.Next(kb), S, D).code);
    case While(_, _, _) => LoopFits(s, k, S, D);
    case Match(_, _) => MatchFits(s, k, S);
    case TryFinally(_, _) => TryStopped(s, k, S, D);
    case TryCatch(_, _, _, _) => TryStopped(s, k, S, D);
    case BlockS(b) => BlockFits(b, k, S);
    case Pass => StraightFits(s, k);
    case ExprStmt(_) => StraightFits(s, k);
    case Assign(_, _, _) => StraightFits(s, k);
    case AssignOp(_, _, _) => StraightFits(s, k);
    case AssignCoalesce(_, _) => StraightFits(s, k);
    case Say(_) => StraightFits(s, k);
    case ThrowS(_) => StraightFits(s, k);
  }

  lemma HoleFits(i: Instr)
    requires Hole(i)
    ensures Rests([] + [i])
  {
    assert [] + [i] == [i];
    FittingOne(i, 0);
    WalksOne(i, 0);
  }

  lemma TryStopped(s: Stmt, k: nat, S: seq<Scope>, D: Loop)
    requires s.TryFinally? || s.TryCatch?
    ensures Rests(GenStmt(s, k, S, D).code)
  {
    hide Rests, Supported, GenBlock, Bytes, GenTryFinally, GenTryCatch;
    Unsupported();
    if s.TryFinally? {
      EndsWithThrow(s, k, S, D);
      RestsStopped(GenTryFinally(s, k, S, D).code, THROW_);
    } else {
      PopsHandler(s, k, S, D);
      RestsStopped(GenTryCatch(s, k, S, D).code, TRY_POP);
    }
  }

  lemma EndsWithThrow(s: Stmt, k: nat, S: seq<Scope>, D: Loop)
    requires s.TryFinally?
    ensures THROW_ in GenTryFinally(s, k, S, D).code
  {
    hide GenBlock, Bytes;
    var code := GenTryFinally(s, k, S, D).code;
    assert code[|code| - 1] == THROW_;
  }

  lemma PopsHandler(s: Stmt, k: nat, S: seq<Scope>, D: Loop)
    requires s.TryCatch?
    ensures TRY_POP in GenTryCatch(s, k, S, D).code
  {
    hide GenBlock, Bytes;
    var g := GenBlock(s.body, k, S + [Scope(s.fin, true)], D);
    assert GenTryCatch(s, k, S, D).code[1 + |g.code|] == TRY_POP;
  }

  // ---------------------------------------------------------------- match

  /** The branches of a `match` begin by comparing, which is not supported, or by dropping the subject. */
  lemma {:induction false} CasesNeedSubject(cs: seq<Case>, k: nat, S: seq<Scope>, D: Loop)
    ensures !Walks(GenCases(cs, k, S, D).code, 0)
  {
    hide GenBlock, GenExpr, PatternConsts, Bytes, Walks;
    var code := GenCases(cs, k, S, D).code;
    if cs != [] && cs[0].Branch? && cs[0].patterns != [] {
      Compares(cs, k, S, D, 0);
    } else {
      PopsFirst(cs, k, S, D);
      NotAtZero(code);
    }
  }

  lemma NotAtZero(code: seq<Instr>)
    requires code != [] && code[0] == POP
    ensures !Walks(code, 0)
  {
  }

  lemma PopsFirst(cs: seq<Case>, k: nat, S: seq<Scope>, D: Loop)
    requires cs == [] || cs[0].Default? || cs[0].patterns == []
    ensures var code := GenCases(cs, k, S, D).code; code != [] && code[0] == POP
  {
    hide GenBlock, Bytes;
  }

  lemma Compares(cs: seq<Case>, k: nat, S: seq<Scope>, D: Loop, d: nat)
    requires cs != [] && cs[0].Branch? && cs[0].patterns != []
    ensures !Walks(GenCases(cs, k, S, D).code, d)
  {
    hide GenBlock, GenExpr, Walks, Bytes, Supported;
    Unsupported();
    Stops(GenCases(cs, k, S, D).code, d, BINARY(Eq));
  }

  lemma {:induction false} CasesStopped(cs: seq<Case>, k: nat, S: seq<Scope>)
    requires CasesChoiceFree(cs) && cs != []
    ensures !Walks(GenCases(cs, k, S, InLoop(|S|)).code, 1)
    decreases WC(cs), 1
  {
    hide GenBlock, Walks, Dep, Bytes, BlockChoiceFree, Fitting, GenPatterns;
    var c, D := cs[0], InLoop(|S|);
    if c.Branch? && c.patterns != [] {
      Compares(cs, k, S, D, 1);
    } else {
      var kb := if c.Branch? then k + |PatternConsts(c.patterns, k)| else k;
      var g := GenBlock(c.body, kb, S, D);
      var rest := GenCases(cs[1..], g.Next(kb), S, D);
      var j := JUMP(Len(rest.code));
      BlockFits(c.body, kb, S);
      CasesNeedSubject(cs[1..], g.Next(kb), S, D);
      DefaultCode(cs, k, S, D);
      WalksCat([POP] + g.code + [j], rest.code, 1);
      WalksCat([POP] + g.code, [j], 1);
      WalksCat([POP], g.code, 1);
      DepCat([POP] + g.code, [j], 1);
      DepCat([POP], g.code, 1);
      WalksOne(POP, 1);
      WalksOne(j, 0);
    }
  }

  lemma DefaultCode(cs: seq<Case>, k: nat, S: seq<Scope>, D: Loop)
    requires cs != [] && (cs[0].Default? || cs[0].patterns == [])
    ensures var c := cs[0];
      var kb := if c.Branch? then k + |PatternConsts(c.patterns, k)| else k;
      var g := GenBlock(c.body, kb, S, D);
      var rest := GenCases(cs[1..], g.Next(kb), S, D);
      GenCases(cs, k, S, D).code == [POP] + g.code + [JUMP(Len(rest.code))] + rest.code
  {
    hide GenBlock, Bytes;
    var c := cs[0];
    var kb := if c.Branch? then k + |PatternConsts(c.patterns, k)| else k;
    var g := GenBlock(c.body, kb, S, D);
    var rest := GenCases(cs[1..], g.Next(kb), S, D);
    var body := [POP] + g.code + [JUMP(Len(rest.code))];
    assert [] + body == body;
  }

  lemma {:induction false} MatchFits(s: Stmt, k: nat, S: seq<Scope>)
    requires s.Match? && ChoiceFree(s)
    ensures Rests(GenStmt(s, k, S, InLoop(|S|)).code)
    decreases WC(s.cases), 2
  {
    hide GenExpr, GenCases, Walks, Dep, Fitting;
    var f := GenExpr(s.subject, k);
    var D := InLoop(|S|);
    var h := GenCases(s.cases, f.Next(k), S, D);
    ExprFits(s.subject, k, 0);
    if s.cases == [] {
      NoCasesCode(f.Next(k), S, D);
      ValueTaken(f.code, POP);
    } else {
      CasesStopped(s.cases, f.Next(k), S);
      WalksCat(f.code, h.code, 0);
    }
  }

  lemma NoCasesCode(k: nat, S: seq<Scope>, D: Loop)
    ensures GenCases([], k, S, D).code == [POP]
  {
  }

  // ---------------------------------------------------------------- loops

  lemma ResolveAt(code: seq<Instr>, at: nat, cont: Target, brk: Target, j: nat)
    requires j < |code|
    ensures var r := Resolve(code, at, cont, brk);
      && r[j] == Settle(code[j], at + Len(code[..j]), cont, brk)
      && Len(r[..j]) == Len(code[..j]) && Len(r[..j + 1]) == Len(code[..j]) + Size(code[j]) == Len(code[..j + 1])
  {
    hide Settle, Encode;
    ResolveUpTo(code, at, cont, brk, j);
    ResolveUpTo(code, at, cont, brk, j + 1);
    assert code[..j + 1] == code[..j] + [code[j]];
    LenCat(code[..j], [code[j]]);
    BytesOne(code[j]);
    assert code == code[..j] + code[j..] && code[j..][0] == code[j];
    ResolveCat(code[..j], code[j..], at, cont, brk);
  }

  lemma ResolveUpTo(code: seq<Instr>, at: nat, cont: Target, brk: Target, j: nat)
    requires j <= |code|
    ensures Resolve(code, at, cont, brk)[..j] == Resolve(code[..j], at, cont, brk)
    ensures Len(Resolve(code, at, cont, brk)[..j]) == Len(code[..j])
  {
    hide Settle, Encode;
    assert code == code[..j] + code[j..];
    ResolveCat(code[..j], code[j..], at, cont, brk);
    ResolveLen(code[..j], at, cont, brk);
  }

  lemma {:induction false} ResolveDep(code: seq<Instr>, at: nat, c: nat, b: nat, d: nat)
    ensures var r := Resolve(code, at, To(c), To(b));
      Dep(r, d) == Dep(code, d) && (Walks(r, d) <==> Walks(code, d))
  {
    hide Encode, Codegen.Gap;
    if code != [] {
      var r := Resolve(code, at, To(c), To(b));
      assert r[1..] == Resolve(code[1..], at + Size(code[0]), To(c), To(b));
      SettleDep(code[0], at, c, b, d);
      ResolveDep(code[1..], at + Size(code[0]), c, b, After(d, code[0]));
    }
  }

  lemma SettleDep(i: Instr, at: nat, c: nat, b: nat, d: nat)
    ensures var s := Settle(i, at, To(c), To(b));
      && After(d, s) == After(d, i) && Delta(s) == Delta(i)
      && ((Supported(s) || Hole(s)) <==> (Supported(i) || Hole(i)))
  {
  }

  lemma ResolvedArrive(code: seq<Instr>, at: nat, c: nat, b: nat, d: nat, t: int)
    requires Arrive(code, d, t)
    ensures Arrive(Resolve(code, at, To(c), To(b)), d, t)
  {
    hide Resolve, Dep, Bytes;
    var m: nat :| RestAt(code, d, m, t);
    ResolveUpTo(code, at, To(c), To(b), m);
    ResolveDep(code[..m], at, c, b, d);
    assert RestAt(Resolve(code, at, To(c), To(b)), d, m, t);
  }

  /** A loop's start and end, seen from its body. */
  function Ends(at: int, total: int): set<int> { {-at, total - at} }

  /** The open jumps of a loop's body lead to the start and the end of the loop. */
  lemma ResolvedFits(g: seq<Instr>, at: nat, total: nat, outs: set<int>)
    requires Fitting(g, 0, outs) && total >= at + Len(g)
    ensures Fitting(Resolve(g, at, To(0), To(total)), 0, Ends(at, total) + outs)
  {
    hide Resolve, Dep, Bytes, Arrive, StepFits;
    var r, all := Resolve(g, at, To(0), To(total)), Ends(at, total) + outs;
    forall j: nat | j < |r| ensures StepFits(r, 0, j, all) { ResolvedStep(g, at, total, outs, j); }
  }

  lemma ResolvedStep(g: seq<Instr>, at: nat, total: nat, outs: set<int>, j: nat)
    requires j < |g| && StepFits(g, 0, j, outs) && total >= at + Len(g)
    ensures StepFits(Resolve(g, at, To(0), To(total)), 0, j, Ends(at, total) + outs)
  {
    hide Resolve, Dep, Bytes, Arrive, Encode, LeadsTo, Needs;
    var r := Resolve(g, at, To(0), To(total));
    ResolveUpTo(g, at, To(0), To(total), j); ResolveUpTo(g, at, To(0), To(total), j + 1);
    ResolveDep(g[..j], at, 0, total, 0); ResolveDep(g[..j + 1], at, 0, total, 0);
    if Hole(g[j]) {
      HoleResolved(g, at, total, j);
      assert g[..j + 1] == g[..j] + [g[j]];
      DepCat(g[..j], [g[j]], 0); WalksOne(g[j], 0);
    } else {
      OtherResolved(g, at, total, j);
      if LeadsTo(g, j).Some? && LeadsTo(g, j).value !in outs {
        ResolvedArrive(g, at, 0, total, 0, LeadsTo(g, j).value);
      }
    }
  }

  lemma HoleResolved(g: seq<Instr>, at: nat, total: nat, j: nat)
    requires j < |g| && Hole(g[j]) && total >= at + Len(g)
    ensures var r := Resolve(g, at, To(0), To(total));
      !Hole(r[j]) && Needs(r[j]) == 0 && LeadsTo(r, j).Some? && LeadsTo(r, j).value in Ends(at, total)
  {
    hide Resolve, Bytes, Encode;
    ResolveAt(g, at, To(0), To(total), j);
    assert g == g[..j + 1] + g[j + 1..];
    LenCat(g[..j + 1], g[j + 1..]);
    JumpSize(g[j]);
  }

  lemma OtherResolved(g: seq<Instr>, at: nat, total: nat, j: nat)
    requires j < |g| && !Hole(g[j])
    ensures var r := Resolve(g, at, To(0), To(total)); r[j] == g[j] && LeadsTo(r, j) == LeadsTo(g, j)
  {
    hide Resolve, Bytes, Encode;
    ResolveAt(g, at, To(0), To(total), j);
  }

  /** A whole loop. */
  lemma {:induction false} LoopFits(s: Stmt, k: nat, S: seq<Scope>, D: Loop)
    requires s.While? && NoChoice(s.c) && BlockChoiceFree(s.body)
    ensures Rests(GenWhile(s, k, S, D).code)
    decreases WB(s.body), 2
  {
    hide Rests, GenBlock, GenCond, CondConsts, Bytes, Walks, Fitting, Dep, Resolve;
    var kb := k + |CondConsts(s.c, k)|;
    var g := GenBlock(s.body, kb, S, InLoop(|S|));
    BlockFits(s.body, kb, S);
    CondFits(s.c, s.until, k, Len(g.code) + 3);
    RoundFits(GenCond(s.c, s.until, k, Len(g.code) + 3).code, g.code);
  }

  lemma RoundFits(f: seq<Instr>, g: seq<Instr>)
    requires Walks(f, 0) ==> Fitting(f, 0, {Len(f) + (Len(g) + 3)}) && Dep(f, 0) == 0
    requires Rests(g)
    ensures var total := Len(f) + Len(g) + 3;
      Rests(f + Resolve(g, Len(f), To(0), To(total)) + [LOOP(total)])
  {
    hide Bytes, Walks, Fitting, Dep, Resolve, Arrive;
    var at := Len(f);
    var total := at + Len(g) + 3;
    var r, l := Resolve(g, at, To(0), To(total)), LOOP(total);
    var a := f + r;
    var whole := a + [l];
    WalksCat(a, [l], 0); WalksCat(f, r, 0);
    ResolveDep(g, at, 0, total, 0);
    if Walks(whole, 0) {
      ResolvedFits(g, at, total, {});
      assert Ends(at, total) + {} == Ends(at, total);
      DepCat(f, r, 0); DepCat(a, [l], 0);
      ResolveLen(g, at, To(0), To(total));
      FittingCat(f, r, 0, {total}, Ends(at, total), {0, total});
      WalksOne(l, 0);
      FittingJump(l, 0);
      LenCat(f, r); LenCat(a, [l]);
      ArriveStart(whole);
      ArriveEnd(whole, 0);
      FittingCat(a, [l], 0, {0, total}, {3 - total}, {});
    }
  }

  lemma ArriveStart(code: seq<Instr>)
    ensures Arrive(code, 0, 0)
  {
    assert code[..0] == [];
    assert RestAt(code, 0, 0, 0);
  }

  // ---------------------------------------------------------------- the region of a loop

  lemma StandsFurther(ch: Chunk, at: nat, code: seq<Instr>)
    requires code != [] && Legal(code[0]) && Bytecode.At(ch.code, at, Bytes(code))
    ensures Fetch(ch.code, at) == Fetched(code[0], at + Size(code[0]))
    ensures Bytecode.At(ch.code, at + Size(code[0]), Bytes(code[1..]))
  {
    hide Fetch, Encode;
    AtParts(ch.code, at, Encode(code[0]), Bytes(code[1..]));
    FetchEncoded(ch.code, at, code[0]);
  }

  predicate AllLegal(code: seq<Instr>) { forall i :: i in code ==> Legal(i) }

  /** Code whose bytes pass the first pass walks. */
  lemma {:induction false} PassWalks(r: Region, at: nat, code: seq<Instr>, d: nat, u: Uses)
    requires AllLegal(code) && Bytecode.At(r.ch.code, at, Bytes(code)) && r.end == at + Len(code)
    requires Prepass(r, at, d, u).Some?
    ensures Walks(code, d)
    decreases |code|
  {
    hide Fetch, Supported, Delta, Legal, Encode, AddSlot;
    if code != [] {
      assert code[0] in code;
      StandsFurther(r.ch, at, code);
      var i, next := code[0], at + Size(code[0]);
      assert forall x :: x in code[1..] ==> x in code;
      var depth := if After(d, i) > u.depth then After(d, i) else u.depth;
      PassWalks(r, next, code[1..], After(d, i), Uses(AddSlot(u.slots, i), depth));
    }
  }

  /** The scan visits exactly the instruction boundaries, with the depth counted along the code. */
  lemma {:induction false} ScanVisits(r: Region, at: nat, code: seq<Instr>, d: nat, m: nat)
    requires AllLegal(code) && Bytecode.At(r.ch.code, at, Bytes(code)) && r.end == at + Len(code) && m <= |code|
    ensures Scan(r, at, d, at + Len(code[..m])) == Some(Dep(code[..m], d))
    decreases |code|
  {
    hide Fetch, Supported, Delta, Legal, Encode;
    if m == 0 {
      assert code[..0] == [];
    } else {
      assert code[0] in code;
      StandsFurther(r.ch, at, code);
      assert forall x :: x in code[1..] ==> x in code;
      assert code[..m][0] == code[0] && code[..m][1..] == code[1..][..m - 1];
      ScanVisits(r, at + Size(code[0]), code[1..], After(d, code[0]), m - 1);
    }
  }

  lemma {:induction false} OnlyBoundaries(r: Region, at: nat, code: seq<Instr>, d: nat, t: nat) returns (m: nat)
    requires AllLegal(code) && Bytecode.At(r.ch.code, at, Bytes(code)) && r.end == at + Len(code)
    requires Scan(r, at, d, t).Some? && t <= r.end
    ensures m <= |code| && t == at + Len(code[..m]) && Scan(r, at, d, t) == Some(Dep(code[..m], d))
    decreases |code|
  {
    hide Fetch, Supported, Delta, Legal, Encode;
    if t == at {
      m := 0;
      assert code[..0] == [];
    } else {
      assert code != [];
      assert code[0] in code;
      StandsFurther(r.ch, at, code);
      assert forall x :: x in code[1..] ==> x in code;
      m := OnlyBoundaries(r, at + Size(code[0]), code[1..], After(d, code[0]), t);
      assert code[..m + 1][0] == code[0] && code[..m + 1][1..] == code[1..][..m];
      m := m + 1;
    }
  }

  lemma Within(code: seq<Instr>, m: nat)
    requires AllLegal(code) && m < |code|
    ensures Legal(code[m])
  {
  }

  lemma LenNext(code: seq<Instr>, m: nat)
    requires m < |code|
    ensures Len(code[..m + 1]) == Len(code[..m]) + Size(code[m])
  {
    hide Bytes, Encode;
    assert code[..m + 1] == code[..m] + [code[m]];
    LenCat(code[..m], [code[m]]);
    BytesOne(code[m]);
  }

  /** The code from the `m`-th instruction on, where it stands. */
  lemma RestStands(ch: Chunk, at: nat, code: seq<Instr>, m: nat, pc: nat, rest: seq<nat>)
    requires Bytecode.At(ch.code, at, Bytes(code)) && m <= |code|
    requires pc == at + Len(code[..m]) && rest == Bytes(code[m..])
    ensures Bytecode.At(ch.code, pc, rest)
  {
    hide Bytes, Bytecode.At;
    assert code == code[..m] + code[m..];
    BytesCat(code[..m], code[m..]);
    AtParts(ch.code, at, Bytes(code[..m]), rest);
  }

  lemma FetchAt(ch: Chunk, at: nat, code: seq<Instr>, m: nat)
    requires AllLegal(code) && Bytecode.At(ch.code, at, Bytes(code)) && m < |code|
    ensures Fetch(ch.code, at + Len(code[..m])) == Fetched(code[m], at + Len(code[..m + 1]))
  {
    hide Fetch, Legal, Encode, Bytes, Bytecode.At, AllLegal;
    Within(code, m);
    RestStands(ch, at, code, m, at + Len(code[..m]), Bytes(code[m..]));
    assert code[m..][0] == code[m];
    StandsFurther(ch, at + Len(code[..m]), code[m..]);
    LenNext(code, m);
  }

  /** An instruction of fitting code is regular where it stands; `outs` are behind the code. */
  lemma FittingIsRegular(r: Region, code: seq<Instr>, m: nat, off: nat, d: nat, n: nat, outs: set<int>)
    requires AllLegal(code) && Bytecode.At(r.ch.code, r.start, Bytes(code)) && r.end == r.start + Len(code)
    requires Fitting(code, 0, outs) && (forall t :: t in outs ==> t >= Len(code)) && Proper(code, n, false)
    requires m < |code| && GoodConst(r.ch, code[m]) && Supported(code[m])
    requires off == r.start + Len(code[..m]) && d == Dep(code[..m], 0)
    ensures RegularAt(r, off, d, n)
  {
    hide Fetch, Fitting, Bytes, Scan, Dep, Legal, Arrive, AllLegal, LeadsTo, StepFits, RegularAt, TargetOf, After,
        Needs, SlotsOk, InFrame, Proper, Supported, GoodConst, Bytecode.At;
    FittingAt(code, m, outs);
    TargetVisited(r, code, m, outs);
    NeedsHere(code, m, outs);
    FetchAt(r.ch, r.start, code, m);
    SlotsHere(code, m, n, r.ch);
    RegularHere(r, off, d, n, code[m], r.start + Len(code[..m + 1]));
  }

  lemma NeedsHere(code: seq<Instr>, m: nat, outs: set<int>)
    requires m < |code| && StepFits(code, 0, m, outs)
    ensures Needs(code[m]) <= Dep(code[..m], 0)
  {
  }

  /** What it jumps to. */
  lemma TargetVisited(r: Region, code: seq<Instr>, m: nat, outs: set<int>)
    requires AllLegal(code) && Bytecode.At(r.ch.code, r.start, Bytes(code)) && r.end == r.start + Len(code)
    requires m < |code| && StepFits(code, 0, m, outs) && forall t :: t in outs ==> t >= Len(code)
    ensures var i, next := code[m], r.start + Len(code[..m + 1]);
      && (i.LOOP? ==> i.d <= next)
      && (TargetOf(i, next).Some? && r.start <= TargetOf(i, next).value < r.end ==>
           Visits(r, TargetOf(i, next).value, After(Dep(code[..m], 0), i)))
  {
    hide Bytes, Scan, Dep, Legal, Arrive, AllLegal, LeadsTo, StepFits, TargetOf, After, Needs, Bytecode.At;
    var g := LeadsTo(code, m);
    StepParts(code, 0, m, outs);
    TargetIs(code, m, r.start);
    DepNext(code, m, 0);
    if g.Some? && g.value !in outs { GoalVisited(r, code, g.value); }
  }

  lemma DepNext(code: seq<Instr>, m: nat, d: nat)
    requires m < |code|
    ensures Dep(code[..m + 1], d) == After(Dep(code[..m], d), code[m])
  {
    hide Dep, After;
    assert code[..m + 1] == code[..m] + [code[m]];
    DepCat(code[..m], [code[m]], d);
    WalksOne(code[m], Dep(code[..m], d));
  }

  lemma TargetIs(code: seq<Instr>, m: nat, at: nat)
    requires m < |code|
    ensures var g, t := LeadsTo(code, m), TargetOf(code[m], at + Len(code[..m + 1]));
      && (g.None? ==> t.None? && !code[m].LOOP?)
      && (g.Some? && at + g.value >= 0 ==>
           t == Some(at + g.value) && (code[m].LOOP? ==> code[m].d <= at + Len(code[..m + 1])))
  {
    hide Bytes;
  }

  lemma SlotsHere(code: seq<Instr>, m: nat, n: nat, ch: Chunk)
    requires m < |code| && Proper(code, n, false) && Supported(code[m]) && GoodConst(ch, code[m])
    ensures SlotsOk(code[m], n, |ch.consts|)
  {
    assert code[m] in code;
  }

  lemma RegularHere(r: Region, off: nat, d: nat, n: nat, i: Instr, next: nat)
    requires Fetch(r.ch.code, off) == Fetched(i, next) && Needs(i) <= d && SlotsOk(i, n, |r.ch.consts|)
    requires i.LOOP? ==> i.d <= next
    requires TargetOf(i, next).Some? && r.start <= TargetOf(i, next).value < r.end ==>
      Visits(r, TargetOf(i, next).value, After(d, i))
    ensures RegularAt(r, off, d, n)
  {
    hide Fetch, Scan;
  }

  lemma GoalVisited(r: Region, code: seq<Instr>, t: int)
    requires AllLegal(code) && Bytecode.At(r.ch.code, r.start, Bytes(code)) && r.end == r.start + Len(code)
    requires Arrive(code, 0, t)
    ensures t >= 0 && Visits(r, r.start + t, 0)
  {
    hide Bytes, Scan, Dep, AllLegal, Bytecode.At;
    var x: nat :| RestAt(code, 0, x, t);
    ScanVisits(r, r.start, code, 0, x);
  }

  lemma FittingAt(code: seq<Instr>, m: nat, outs: set<int>)
    requires Fitting(code, 0, outs) && m < |code|
    ensures StepFits(code, 0, m, outs)
  {
  }

  lemma WalksSupported(code: seq<Instr>, d: nat, m: nat)
    requires Walks(code, d) && m < |code| && !Hole(code[m])
    ensures Supported(code[m])
  {
    if !Supported(code[m]) { Stops(code, d, code[m]); }
  }

  /** A loop of a function with `n` slots, where it stands in code of bytes, is a regular region, if the
      loop compiler accepts it and no conditional expression stands in it. */
  lemma LoopIsRegular(x: Site, pc: nat, s: Stmt, k: nat, S: seq<Scope>, D: Loop, n: nat)
    requires s.While? && ChoiceFree(s) && Formed(s, n) && FinsFormed(S, n)
    requires Stands(x, pc, GenWhile(s, k, S, D), k) && forall c :: c in x.ch.code ==> c < 256
    requires Accepted(Region(x.ch, pc, pc + Len(GenWhile(s, k, S, D).code)))
    ensures Regular(Region(x.ch, pc, pc + Len(GenWhile(s, k, S, D).code)), n)
  {
    hide GenWhile, Bytes, Fitting, Walks, Dep, Prepass, NoZeroMod, Regular, Proper, Resolve, AllLegal;
    var code := GenWhile(s, k, S, D).code;
    var r := Region(x.ch, pc, pc + Len(code));
    WhileProper(s, k, S, D, n);
    ProperStays(code, n, pc, To(x.cont), To(x.brk));
    ProperLegal(code, n);
    PassWalks(r, pc, code, 0, Uses([], 0));
    LoopFits(s, k, S, D);
    FittingRegion(r, code, n, {});
  }

  /** A region of fitting code, all jumps out of it leading behind it. */
  lemma FittingRegion(r: Region, code: seq<Instr>, n: nat, outs: set<int>)
    requires Proper(code, n, false) && Bytecode.At(r.ch.code, r.start, Bytes(code)) && r.end == r.start + Len(code)
    requires Fitting(code, 0, outs) && (forall t :: t in outs ==> t >= Len(code)) && Dep(code, 0) == 0
    requires Walks(code, 0) && Accepted(r) && forall c :: c in r.ch.code ==> c < 256
    ensures Regular(r, n)
  {
    hide Bytes, Fitting, Walks, Scan, Dep, Prepass, NoZeroMod, RegularAt, Proper, Supported, Bytecode.At;
    ProperLegal(code, n);
    assert code[..|code|] == code;
    ScanVisits(r, r.start, code, 0, |code|);
    forall off: nat, d: nat | Visits(r, off, d) && off < r.end ensures RegularAt(r, off, d, n) {
      AtBoundary(r, code, n, off, d, outs);
    }
  }

  lemma ProperLegal(code: seq<Instr>, n: nat)
    requires Proper(code, n, false)
    ensures AllLegal(code) && forall i :: i in code ==> !Hole(i)
  {
  }

  lemma AtBoundary(r: Region, code: seq<Instr>, n: nat, off: nat, d: nat, outs: set<int>)
    requires AllLegal(code) && Bytecode.At(r.ch.code, r.start, Bytes(code)) && r.end == r.start + Len(code)
    requires Fitting(code, 0, outs) && (forall t :: t in outs ==> t >= Len(code)) && Walks(code, 0)
    requires Proper(code, n, false) && Accepted(r) && Visits(r, off, d) && off < r.end
    ensures RegularAt(r, off, d, n)
  {
    hide Bytes, Fitting, Walks, Scan, Dep, Prepass, NoZeroMod, RegularAt, Proper, Supported, Fetch;
    assert code[..|code|] == code;
    var m := OnlyBoundaries(r, r.start, code, 0, off);
    ProperLegal(code, n);
    WalksSupported(code, 0, m);
    FetchAt(r.ch, r.start, code, m);
    PrepassChecks(r, r.start, 0, Uses([], 0), off, d);
    FittingIsRegular(r, code, m, off, d, n, outs);
  }

  /** The simulation for such a loop: whatever the frame, the registers and the collector's flag, its
      register code agrees with the interpreter. */
  lemma LoopRuns(w: World, x: Site, s: Stmt, k: nat, S: seq<Scope>, D: Loop, n: nat, m: M, v: VM, steps: nat)
    requires s.While? && ChoiceFree(s) && Formed(s, n) && FinsFormed(S, n)
    requires Stands(x, w.r.start, GenWhile(s, k, S, D), k) && forall c :: c in x.ch.code ==> c < 256
    requires w.r == Region(x.ch, w.r.start, w.r.start + Len(GenWhile(s, k, S, D).code)) && Accepted(w.r)
    requires w.L == UsesOf(w.r).value.slots && w.j == JitRegion.Compiled(w.r, w.L)
    requires Enters(w, m, v) && |m.slots| == n && forall i | 0 <= i < |m.slots| :: IsWord(m.slots[i])
    ensures Agrees(w, m, v, steps) && (GetsOut(w, m) || Run(w.r.ch, v, steps).Running?)
  {
    hide GenWhile, Enters, Agrees, GetsOut, Run, Regular, JitRegion.Compiled, NoZeroMod, Prepass, Stands, Formed;
    LoopIsRegular(x, w.r.start, s, k, S, D, n);
    SlotsInFrame(x, w.r.start, s, k, S, D, n);
    RegionRuns(w, n, m, v, steps);
    RegionStops(w, n, m, v, steps);
  }

  predicate Below(slots: seq<nat>, n: nat) { forall i :: i in slots ==> i < n }

  /** The slots that an accepted loop uses lie in the frame. */
  lemma SlotsInFrame(x: Site, pc: nat, s: Stmt, k: nat, S: seq<Scope>, D: Loop, n: nat)
    requires s.While? && Formed(s, n) && FinsFormed(S, n) && Stands(x, pc, GenWhile(s, k, S, D), k)
    requires Accepted(Region(x.ch, pc, pc + Len(GenWhile(s, k, S, D).code)))
    ensures Below(UsesOf(Region(x.ch, pc, pc + Len(GenWhile(s, k, S, D).code))).value.slots, n)
  {
    hide GenWhile, Bytes, Prepass, NoZeroMod, Proper, Resolve;
    var code := GenWhile(s, k, S, D).code;
    WhileProper(s, k, S, D, n);
    ProperStays(code, n, pc, To(x.cont), To(x.brk));
    PassSlots(Region(x.ch, pc, pc + Len(code)), pc, code, 0, Uses([], 0), n);
  }

  lemma {:induction false} PassSlots(r: Region, at: nat, code: seq<Instr>, d: nat, u: Uses, n: nat)
    requires Proper(code, n, false) && Bytecode.At(r.ch.code, at, Bytes(code)) && r.end == at + Len(code)
    requires Prepass(r, at, d, u).Some? && Below(u.slots, n)
    ensures Below(Prepass(r, at, d, u).value.slots, n)
    decreases |code|
  {
    hide Fetch, Supported, Delta, Legal, Encode;
    if code != [] {
      assert code[0] in code;
      StandsFurther(r.ch, at, code);
      var i, next := code[0], at + Size(code[0]);
      assert forall x :: x in code[1..] ==> x in code;
      var depth := if After(d, i) > u.depth then After(d, i) else u.depth;
      PassSlots(r, next, code[1..], After(d, i), Uses(AddSlot(u.slots, i), depth), n);
    }
  }
}
