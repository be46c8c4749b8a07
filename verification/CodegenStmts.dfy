/** The code of statements does what the statements mean. */
module CodegenStmts {
  import opened Bytecode
  import opened Tree
  import opened Codegen
  import opened CodegenLayout
  import opened CodegenExprs
  import opened CodegenExits

  // ---------------------------------------------------------------- where a statement leads

  /** What a statement does not change: the operand stack and the handlers. */
  datatype Base = Base(stack: seq<Value>, handlers: seq<Handler>) {
    /** The machine at `pc` with the statement's effects. */
    function At(pc: nat, st: Store): VM { Running(pc, stack, st.locals, handlers, st.out) }

    function Thrown(v: Value, st: Store): VM { Bytecode.Throw(stack, st.locals, handlers, st.out, v) }

    predicate Fits() { forall i :: 0 <= i < |handlers| ==> handlers[i].top <= |stack| }
  }

  /** At `t.pc` stands the code that leaves the scopes above `downTo` and ends with `last`. */
  datatype Way = Way(x: Site, D: Loop, k: nat, t: VM)

  ghost predicate Leaves(w: Way, S: seq<Scope>, downTo: nat, last: Instr) {
    w.t.Running? && Stands(w.x, w.t.pc, Unwind(S, downTo, w.k, w.D).Add(last), w.k)
  }

  /** A `break` or `continue` on its way to the end of its loop, or to the next round. */
  ghost predicate JumpsVia(w: Way, x: Site, a: VM, base: Base, S: seq<Scope>, D: Loop, st: Store, last: Instr) {
    && w.x == x && w.D == D && D.InLoop? && Leaves(w, S, D.depth, last)
    && w.t == base.At(w.t.pc, st) && Goes(x.ch, a, w.t, 0)
  }

  /** A `return` on its way out of the function, its value on top of the stack. */
  ghost predicate ReturnsVia(w: Way, ch: Chunk, a: VM, base: Base, S: seq<Scope>, v: Value, st: Store) {
    && w.t.Running? && w.x.ch == ch && Leaves(w, S, 0, RETURN) && Goes(ch, a, w.t, 0)
    && w.t.locals == st.locals && w.t.out == st.out && w.t.handlers == base.handlers
    && Waits(w.t.stack, base.stack, v)
  }

  predicate Waits(stack: seq<Value>, below: seq<Value>, v: Value) {
    |stack| > |below| && stack[..|below|] == below && stack[|stack| - 1] == v
  }

  ghost predicate Lasts(ch: Chunk, a: VM, steps: nat) {
    exists t: VM :: t.Running? && Goes(ch, a, t, steps)
  }

  /** From `a`, code that ends at `end` brings outcome `o` about. */
  ghost predicate Lands(x: Site, a: VM, base: Base, end: nat, S: seq<Scope>, D: Loop, o: Outcome, fuel: nat) {
    match o
    case Normal(st) => Goes(x.ch, a, base.At(end, st), 0)
    case Break(st) => exists w :: JumpsVia(w, x, a, base, S, D, st, BreakJ)
    case Continue(st) => exists w :: JumpsVia(w, x, a, base, S, D, st, ContJ)
    case Return(v, st) => exists w :: ReturnsVia(w, x.ch, a, base, S, v, st)
    case Throw(v, st) => Goes(x.ch, a, base.Thrown(v, st), 0)
    case Diverges => Lasts(x.ch, a, fuel)
    case Unmodelled => true
  }

  /** A run that gets to `b`, and goes on from there. */
  lemma LandsAfter(x: Site, a: VM, b: VM, base: Base, end: nat, S: seq<Scope>, D: Loop, o: Outcome, m: nat, f: nat)
    requires Goes(x.ch, a, b, m) && Lands(x, b, base, end, S, D, o, f)
    ensures Lands(x, a, base, end, S, D, o, f + m) && Lands(x, a, base, end, S, D, o, f)
  {
    hide Goes, Leaves, Waits;
    match o
    case Normal(st) => Trans(x.ch, a, b, base.At(end, st), m, 0);
    case Break(st) =>
      var w :| JumpsVia(w, x, b, base, S, D, st, BreakJ);
      Trans(x.ch, a, b, w.t, m, 0);
      assert JumpsVia(w, x, a, base, S, D, st, BreakJ);
    case Continue(st) =>
      var w :| JumpsVia(w, x, b, base, S, D, st, ContJ);
      Trans(x.ch, a, b, w.t, m, 0);
      assert JumpsVia(w, x, a, base, S, D, st, ContJ);
    case Return(v, st) =>
      var w :| ReturnsVia(w, x.ch, b, base, S, v, st);
      Trans(x.ch, a, b, w.t, m, 0);
      assert ReturnsVia(w, x.ch, a, base, S, v, st);
    case Throw(v, st) => Trans(x.ch, a, b, base.Thrown(v, st), m, 0);
    case Diverges =>
      var t: VM :| t.Running? && Goes(x.ch, b, t, f);
      Trans(x.ch, a, b, t, m, f);
    case Unmodelled =>
  }

  /** A run whose normal end leads on to another address. */
  lemma LandsOn(x: Site, a: VM, base: Base, end: nat, end2: nat, S: seq<Scope>, D: Loop, o: Outcome, f: nat)
    requires Lands(x, a, base, end, S, D, o, f)
    requires o.Normal? ==> Goes(x.ch, base.At(end, o.store), base.At(end2, o.store), 1)
    ensures Lands(x, a, base, end2, S, D, o, f)
  {
    hide Goes, Leaves, Waits;
    if o.Normal? { Trans(x.ch, a, base.At(end, o.store), base.At(end2, o.store), 0, 1); }
  }

  /** An error lands wherever the statement it came from stands. */
  lemma FailedLands(x: Site, a: VM, base: Base, end: nat, S: seq<Scope>, D: Loop, r: EvalResult, st: Store, f: nat,
                    m: nat)
    requires !r.Val? && (r.Raise? ==> Goes(x.ch, a, base.Thrown(ErrorText, st), m))
    ensures Lands(x, a, base, end, S, D, Failed(r, st), f)
  {
    hide Goes;
    if r.Raise? {
      Stay(x.ch, base.Thrown(ErrorText, st));
      Trans(x.ch, a, base.Thrown(ErrorText, st), base.Thrown(ErrorText, st), m, 0);
    }
  }

  lemma BaseFits(base: Base, pc: nat, st: Store)
    ensures base.Fits() <==> HandlersFit(base.At(pc, st))
    ensures Fail(base.At(pc, st), ErrorText) == base.Thrown(ErrorText, st)
  {
  }

  predicate DepthFits(S: seq<Scope>, D: Loop) { D.InLoop? ==> D.depth <= |S| }

  // ---------------------------------------------------------------- leaving scopes

  /** The handlers inside scope `c`. */
  function Within(base: Base, c: Scope, h: Handler): Base {
    if c.live then base.(handlers := base.handlers + [h]) else base
  }

  /** Code that leaves scope `c` and those around it: past `c`'s handler, at its `finally` block. */
  lemma LeavesFirst(w: Way, S: seq<Scope>, c: Scope, downTo: nat, last: Instr, n: nat) returns (pc: nat)
    requires downTo <= |S| && Leaves(w, S + [c], downTo, last) && ScopesFormed(S + [c], n)
    requires c.live ==> w.t.handlers != []
    ensures c.live ==> Goes(w.x.ch, w.t, w.t.(pc := pc, handlers := w.t.handlers[..|w.t.handlers| - 1]), 1)
    ensures !c.live ==> Goes(w.x.ch, w.t, w.t.(pc := pc), 0)
    ensures var f := GenBlock(c.fin, w.k, S, NoLoop);
      && Stands(w.x, pc, f, w.k)
      && Stands(w.x, pc + Len(f.code), Unwind(S, downTo, f.Next(w.k), w.D).Add(last), f.Next(w.k))
  {
    hide Stands, Goes, GenBlock, Bytes;
    var all := S + [c];
    assert all[|all| - 1] == c && all[..|all| - 1] == S;
    assert ScopeFormed(all[|S|], n);
    assert ScopesFormed(S, n) by { forall i | 0 <= i < |S| ensures ScopeFormed(S[i], n) { assert all[i] == S[i]; } }
    var f := GenBlock(c.fin, w.k, S, w.D);
    var rest := Unwind(S, downTo, f.Next(w.k), w.D);
    ClosedCode(c.fin, w.k, S, w.D, n);
    var after := f.Then(rest.Add(last));
    if c.live {
      assert Unwind(all, downTo, w.k, w.D).Add(last) == One(TRY_POP).Then(after) by {
        assert [] + f.consts + rest.consts == f.consts + rest.consts;
        assert [TRY_POP] + f.code + rest.code + [last] == [TRY_POP] + (f.code + (rest.code + [last]));
      }
      StandsThen(w.x, w.t.pc, One(TRY_POP), after, w.k);
      BytesOne(TRY_POP); OpSize(TRY_POP);
      TryPopStep(w.x, w.t, w.t.handlers[..|w.t.handlers| - 1], w.k);
      pc := w.t.pc + 1;
    } else {
      assert Unwind(all, downTo, w.k, w.D).Add(last) == after by {
        assert [] + f.consts + rest.consts == f.consts + rest.consts;
        assert [] + f.code + rest.code + [last] == f.code + (rest.code + [last]);
      }
      Stay(w.x.ch, w.t);
      pc := w.t.pc;
    }
    StandsThen(w.x, pc, f, rest.Add(last), w.k);
  }

  /** What a statement's machine state and surroundings must be. */
  ghost predicate Ready(s: VM, st: Store, S: seq<Scope>, D: Loop) {
    && s.Running? && HandlersFit(s) && s.locals == st.locals && s.out == st.out
    && ScopesFormed(S, |st.locals|) && DepthFits(S, D)
  }

  /** Another address, and the effects of what ran in between, do not matter. */
  lemma ReadyAgain(s: VM, st: Store, S: seq<Scope>, D: Loop, pc: nat, st2: Store)
    requires s.Running? && Ready(s, st, S, D) && |st2.locals| == |st.locals|
    ensures var base := Base(s.stack, s.handlers);
      Ready(base.At(pc, st2), st2, S, D) && s == base.At(s.pc, st) && base.Fits()
  {
  }

  /** A `finally` block on the way out of its scope, with anything on the stack. */
  lemma FinallyOnWay(x: Site, a: VM, w: Way, base: Base, S: seq<Scope>, D: Loop, c: Scope, downTo: nat, last: Instr,
                     st: Store, h: Handler, fuel: nat) returns (pc: nat)
    requires downTo <= |S| && Leaves(w, S + [c], downTo, last) && w.x.ch == x.ch
    requires ScopesFormed(S + [c], |st.locals|) && ScopesFormed(S, |st.locals|)
    requires Goes(x.ch, a, w.t, 0) && w.t.locals == st.locals && w.t.out == st.out
    requires w.t.handlers == Within(base, c, h).handlers
    requires base.Fits() && |w.t.stack| >= |base.stack|
    ensures var f := GenBlock(c.fin, w.k, S, NoLoop);
      var mid := Base(w.t.stack, base.handlers);
      && Stands(w.x, pc + Len(f.code), Unwind(S, downTo, f.Next(w.k), w.D).Add(last), f.Next(w.k))
      && Lands(w.x, a, mid, pc + Len(f.code), S, NoLoop, ExecBlock(c.fin, st, fuel, false, false), fuel)
    decreases fuel, WB(c.fin), 5
  {
    hide Stands, Goes, GenBlock, Bytes, Lands, ExecBlock, Unwind;
    pc := LeavesFirst(w, S, c, downTo, last, |st.locals|);
    var mid := Base(w.t.stack, base.handlers);
    var b := mid.At(pc, st);
    assert c.live ==> w.t.handlers[..|w.t.handlers| - 1] == base.handlers;
    Trans(x.ch, a, w.t, b, 0, 0) by {
      if c.live { Trans(x.ch, w.t, b, b, 1, 0) by { Stay(x.ch, b); } }
    }
    BaseFits(mid, pc, st);
    assert (S + [c])[|S|] == c;
    assert ScopeFormed(c, |st.locals|);
    BlockRuns(w.x, b, st, c.fin, w.k, S, NoLoop, fuel);
    LandsAfter(w.x, a, b, mid, pc + Len(GenBlock(c.fin, w.k, S, NoLoop).code), S, NoLoop,
               ExecBlock(c.fin, st, fuel, false, false), 0, fuel);
  }

  /** What happens above a base other than a normal end happens to the base as well. */
  lemma LandsBelow(y: Site, x: Site, a: VM, mid: Base, base: Base, e: nat, end: nat, S: seq<Scope>, D: Loop,
                   o: Outcome, fuel: nat)
    requires Lands(y, a, mid, e, S, NoLoop, o, fuel) && !o.Normal? && y.ch == x.ch
    requires base.Fits() && mid.handlers == base.handlers
    requires |mid.stack| >= |base.stack| && mid.stack[..|base.stack|] == base.stack
    ensures Lands(x, a, base, end, S, D, o, fuel)
  {
    hide Goes, Leaves;
    if o.Throw? {
      FailAbove(mid.At(0, o.store), base.At(0, o.store), o.value);
    } else if o.Return? {
      var w :| ReturnsVia(w, y.ch, a, mid, S, o.value, o.store);
      assert w.t.stack[..|base.stack|] == w.t.stack[..|mid.stack|][..|base.stack|];
      assert ReturnsVia(w, x.ch, a, base, S, o.value, o.store);
    }
  }

  /** A jump or return out of scope `c`, whose `finally` block runs on the way. */
  lemma AfterScope(x: Site, a: VM, base: Base, c: Scope, h: Handler, end1: nat, end: nat, S: seq<Scope>, D: Loop,
                   o: Outcome, fuel: nat, n: nat)
    requires o.Break? || o.Continue? || o.Return?
    requires Sound(o, n, D.InLoop?) && ScopesFormed(S + [c], n) && ScopesFormed(S, n) && BlockFormed(c.fin, n)
    requires DepthFits(S, D) && base.Fits()
    requires Lands(x, a, Within(base, c, h), end1, S + [c], D, o, fuel)
    ensures Lands(x, a, base, end, S, D, Finally(c.fin, o, fuel, D.InLoop?, false, n), fuel)
    decreases fuel, WB(c.fin), 6
  {
    hide Stands, Goes, GenBlock, Bytes, ExecBlock, Unwind;
    var st := o.store;
    var downTo := if o.Return? then 0 else D.depth;
    var last := if o.Break? then BreakJ else if o.Continue? then ContJ else RETURN;
    var w: Way;
    if o.Break? { w :| JumpsVia(w, x, a, Within(base, c, h), S + [c], D, st, BreakJ); }
    else if o.Continue? { w :| JumpsVia(w, x, a, Within(base, c, h), S + [c], D, st, ContJ); }
    else { w :| ReturnsVia(w, x.ch, a, Within(base, c, h), S + [c], o.value, st); }
    var st2 := Note(Ran(c.fin), st);
    var pc := FinallyOnWay(x, a, w, base, S, D, c, downTo, last, st2, h, fuel);
    var f := GenBlock(c.fin, w.k, S, NoLoop);
    var mid := Base(w.t.stack, base.handlers);
    assert (S + [c])[|S|] == c;
    assert ScopeFormed(c, n);
    ClosedBlock(c.fin, st2, fuel, D.InLoop?);
    var q := ExecBlock(c.fin, st2, fuel, false, false);
    if q.Normal? {
      var w2 := Way(w.x, w.D, f.Next(w.k), mid.At(pc + Len(f.code), q.store));
      assert Leaves(w2, S, downTo, last);
      if o.Break? { assert JumpsVia(w2, x, a, base, S, D, q.store, BreakJ); }
      else if o.Continue? { assert JumpsVia(w2, x, a, base, S, D, q.store, ContJ); }
      else { assert ReturnsVia(w2, x.ch, a, base, S, o.value, q.store); }
    } else {
      LandsBelow(w.x, x, a, mid, base, pc + Len(f.code), end, S, D, q, fuel);
    }
  }

  // ---------------------------------------------------------------- blocks and plain statements

  lemma BlockRuns(x: Site, s: VM, st: Store, b: seq<Stmt>, k: nat, S: seq<Scope>, D: Loop, fuel: nat)
    requires s.Running? && Ready(s, st, S, D) && BlockFormed(b, |st.locals|) && Stands(x, s.pc, GenBlock(b, k, S, D), k)
    ensures Lands(x, s, Base(s.stack, s.handlers), s.pc + Len(GenBlock(b, k, S, D).code), S, D,
                  ExecBlock(b, st, fuel, D.InLoop?, false), fuel)
    decreases fuel, WB(b), 4
  {
    hide Stands, Goes, Lands, GenStmt, Exec, Ready;
    ReadyAgain(s, st, S, D, s.pc, st);
    var base := Base(s.stack, s.handlers);
    if b == [] {
      NormalLands(x, s, base, s.pc, S, D, st, fuel) by { Stay(x.ch, s); }
    } else {
      var f := GenStmt(b[0], k, S, D);
      var g := GenBlock(b[1..], f.Next(k), S, D);
      StandsThen(x, s.pc, f, g, k);
      StmtRuns(x, s, st, b[0], k, S, D, fuel);
      var o := Exec(b[0], st, fuel, D.InLoop?, false);
      var mid, end := s.pc + Len(f.code), s.pc + Len(f.code) + Len(g.code);
      if o.Normal? {
        var t := base.At(mid, o.store);
        ReadyAgain(s, st, S, D, mid, o.store);
        BlockRuns(x, t, o.store, b[1..], f.Next(k), S, D, fuel);
        LandsNormally(x, s, base, mid, S, D, o, fuel);
        LandsAfter(x, s, t, base, end, S, D, ExecBlock(b[1..], o.store, fuel, D.InLoop?, false), 0, fuel);
      } else {
        LandsElsewhere(x, s, base, mid, end, S, D, o, fuel);
      }
    }
  }

  lemma NormalLands(x: Site, a: VM, base: Base, end: nat, S: seq<Scope>, D: Loop, st: Store, fuel: nat)
    requires Goes(x.ch, a, base.At(end, st), 0)
    ensures Lands(x, a, base, end, S, D, Normal(st), fuel)
  {
  }

  lemma LandsNormally(x: Site, a: VM, base: Base, end: nat, S: seq<Scope>, D: Loop, o: Outcome, fuel: nat)
    requires Lands(x, a, base, end, S, D, o, fuel) && o.Normal?
    ensures Goes(x.ch, a, base.At(end, o.store), 0)
  {
  }

  lemma LandsElsewhere(x: Site, a: VM, base: Base, end: nat, end2: nat, S: seq<Scope>, D: Loop, o: Outcome, fuel: nat)
    requires Lands(x, a, base, end, S, D, o, fuel) && !o.Normal?
    ensures Lands(x, a, base, end2, S, D, o, fuel)
  {
    hide Goes, Leaves;
  }

  /** A statement's code, run from its beginning, leads where the statement's meaning says. */
  lemma StmtRuns(x: Site, s: VM, st: Store, c: Stmt, k: nat, S: seq<Scope>, D: Loop, fuel: nat)
    requires s.Running? && Ready(s, st, S, D) && Formed(c, |st.locals|) && Stands(x, s.pc, GenStmt(c, k, S, D), k)
    ensures Lands(x, s, Base(s.stack, s.handlers), s.pc + Len(GenStmt(c, k, S, D).code), S, D,
                  Exec(c, st, fuel, D.InLoop?, false), fuel)
    decreases fuel, W(c), 3
  {
    hide Stands, Goes, Lands, Ready, Bytes, GenBlock, GenWhile, GenTryFinally, GenTryCatch, GenStraight, ExecBlock,
        ExecCatch, Finally;
    match c
    case BreakS => JumpRuns(x, s, st, c, k, S, D, fuel);
    case ContinueS => JumpRuns(x, s, st, c, k, S, D, fuel);
    case ReturnS(_) => ReturnRuns(x, s, st, c, k, S, D, fuel);
    case If(_, _) => IfRuns(x, s, st, c, k, S, D, fuel);
    case IfElse(_, _, _) => IfElseRuns(x, s, st, c, k, S, D, fuel);
    case While(_, _, _) => WhileRuns(x, s, st, c, k, S, D, fuel);
    case Match(_, _) => MatchRuns(x, s, st, c, k, S, D, fuel);
    case TryFinally(_, _) => TryFinallyRuns(x, s, st, c, k, S, D, fuel);
    case TryCatch(_, _, _, _) => TryCatchRuns(x, s, st, c, k, S, D, fuel);
    case BlockS(b) => BlockRuns(x, s, st, b, k, S, D, fuel);
    case Pass => StraightRuns(x, s, st, c, k, S, D, fuel);
    case ExprStmt(_) => StraightRuns(x, s, st, c, k, S, D, fuel);
    case Assign(_, _, _) => StraightRuns(x, s, st, c, k, S, D, fuel);
    case AssignOp(_, _, _) => StraightRuns(x, s, st, c, k, S, D, fuel);
    case AssignCoalesce(_, _) => StraightRuns(x, s, st, c, k, S, D, fuel);
    case Say(_) => StraightRuns(x, s, st, c, k, S, D, fuel);
    case ThrowS(_) => StraightRuns(x, s, st, c, k, S, D, fuel);
  }

  // ---------------------------------------------------------------- break, continue, return

  lemma RuntimeErrorStep(x: Site, s: VM, k: nat)
    requires HandlersFit(s) && Stands(x, s.pc, Frag([RUNTIME_ERROR(k)], [ErrorText]), k)
    ensures Goes(x.ch, s, Fail(s, ErrorText), 0)
  {
    hide Goes, Bytes, Resolve, At;
    var f := Frag([RUNTIME_ERROR(k)], [ErrorText]);
    assert Stands(x, s.pc, One(RUNTIME_ERROR(k)), k);
    OneStep(x, s, RUNTIME_ERROR(k), k);
  }

  lemma JumpRuns(x: Site, s: VM, st: Store, c: Stmt, k: nat, S: seq<Scope>, D: Loop, fuel: nat)
    requires c.BreakS? || c.ContinueS?
    requires s.Running? && Ready(s, st, S, D) && Formed(c, |st.locals|) && Stands(x, s.pc, GenStmt(c, k, S, D), k)
    ensures Lands(x, s, Base(s.stack, s.handlers), s.pc + Len(GenStmt(c, k, S, D).code), S, D,
                  Exec(c, st, fuel, D.InLoop?, false), fuel)
  {
    hide Goes, Stands, Unwind, Bytes;
    if D.NoLoop? {
      RuntimeErrorStep(x, s, k);
    } else {
      var base := Base(s.stack, s.handlers);
      var w := Way(x, D, k, s);
      Stay(x.ch, s);
      assert s == base.At(s.pc, st);
      if c.BreakS? {
        assert JumpsVia(w, x, s, base, S, D, st, BreakJ);
      } else {
        assert JumpsVia(w, x, s, base, S, D, st, ContJ);
      }
    }
  }

  lemma ReturnRuns(x: Site, s: VM, st: Store, c: Stmt, k: nat, S: seq<Scope>, D: Loop, fuel: nat)
    requires c.ReturnS?
    requires s.Running? && Ready(s, st, S, D) && Formed(c, |st.locals|) && Stands(x, s.pc, GenStmt(c, k, S, D), k)
    ensures Lands(x, s, Base(s.stack, s.handlers), s.pc + Len(GenStmt(c, k, S, D).code), S, D,
                  Exec(c, st, fuel, D.InLoop?, false), fuel)
  {
    hide Goes, Stands, Unwind, Bytes, GenExpr;
    var base := Base(s.stack, s.handlers);
    var f := GenExpr(c.e, k);
    var u := Unwind(S, 0, f.Next(k), D);
    assert GenStmt(c, k, S, D) == f.Then(u.Add(RETURN)) by {
      assert f.code + u.code + [RETURN] == f.code + (u.code + [RETURN]);
    }
    StandsThen(x, s.pc, f, u.Add(RETURN), k);
    ExprRuns(x, s, c.e, k);
    var r := Eval(c.e, st.locals);
    assert s == base.At(s.pc, st);
    if r.Val? {
      var t := Pushed(s, Len(f.code), r.value);
      var w := Way(x, D, f.Next(k), t);
      Trans(x.ch, s, t, t, 1, 0) by { Stay(x.ch, t); }
      assert ReturnsVia(w, x.ch, s, base, S, r.value, st);
    } else {
      FailedLands(x, s, base, s.pc + Len(GenStmt(c, k, S, D).code), S, D, r, st, fuel, 1);
    }
  }

  // ---------------------------------------------------------------- if

  /** A condition and what follows it, taken or not. */
  lemma CondLands(x: Site, s: VM, st: Store, c: Expr, invert: bool, k: nat, d: nat, S: seq<Scope>, D: Loop,
                  end: nat, fuel: nat)
    requires s.Running? && Ready(s, st, S, D) && SlotsIn(c, |st.locals|) && Stands(x, s.pc, GenCond(c, invert, k, d), k)
    ensures var r := Test(c, invert, st.locals);
      var to := s.pc + Len(GenCond(c, invert, k, d).code);
      var base := Base(s.stack, s.handlers);
      && (r.Val? ==> Goes(x.ch, s, base.At(if Truthy(r.value) then to else to + d, st), 1))
      && (!r.Val? ==> Lands(x, s, base, end, S, D, Failed(r, st), fuel))
  {
    hide Goes, Stands, Bytes, GenCond, Lands, Test;
    var base := Base(s.stack, s.handlers);
    CondRuns(x, s, c, invert, k, d);
    var r := Test(c, invert, st.locals);
    assert s == base.At(s.pc, st);
    if !r.Val? { FailedLands(x, s, base, end, S, D, r, st, fuel, 1); }
  }

  lemma IfRuns(x: Site, s: VM, st: Store, c: Stmt, k: nat, S: seq<Scope>, D: Loop, fuel: nat)
    requires c.If?
    requires s.Running? && Ready(s, st, S, D) && Formed(c, |st.locals|) && Stands(x, s.pc, GenStmt(c, k, S, D), k)
    ensures Lands(x, s, Base(s.stack, s.handlers), s.pc + Len(GenStmt(c, k, S, D).code), S, D,
                  Exec(c, st, fuel, D.InLoop?, false), fuel)
    decreases fuel, W(c), 2
  {
    hide Goes, Stands, Lands, Bytes, GenCond, GenBlock, ExecBlock, Ready;
    ReadyAgain(s, st, S, D, s.pc, st);
    var base := Base(s.stack, s.handlers);
    var kb := k + |CondConsts(c.c, k)|;
    var g := GenBlock(c.body, kb, S, D);
    var f := GenCond(c.c, false, k, Len(g.code));
    StandsThen(x, s.pc, f, g, k);
    var mid, end := s.pc + Len(f.code), s.pc + Len(f.code) + Len(g.code);
    CondLands(x, s, st, c.c, false, k, Len(g.code), S, D, end, fuel);
    ReadyAgain(s, st, S, D, mid, st);
    var r := Test(c.c, false, st.locals);
    if r.Val? {
      if Truthy(r.value) {
        BlockRuns(x, base.At(mid, st), st, c.body, kb, S, D, fuel);
        LandsAfter(x, s, base.At(mid, st), base, end, S, D, ExecBlock(c.body, st, fuel, D.InLoop?, false), 1, fuel);
      } else {
        Trans(x.ch, s, base.At(end, st), base.At(end, st), 1, 0) by { Stay(x.ch, base.At(end, st)); }
        NormalLands(x, s, base, end, S, D, st, fuel);
      }
    }
  }

  /** Two ways, the first with a jump over the second. */
  lemma IfElseRuns(x: Site, s: VM, st: Store, c: Stmt, k: nat, S: seq<Scope>, D: Loop, fuel: nat)
    requires c.IfElse?
    requires s.Running? && Ready(s, st, S, D) && Formed(c, |st.locals|) && Stands(x, s.pc, GenStmt(c, k, S, D), k)
    ensures Lands(x, s, Base(s.stack, s.handlers), s.pc + Len(GenStmt(c, k, S, D).code), S, D,
                  Exec(c, st, fuel, D.InLoop?, false), fuel)
    decreases fuel, W(c), 2
  {
    hide Goes, Stands, Lands, Bytes, GenCond, GenBlock, ExecBlock, Ready, Exec, GenStmt, Test, CondConsts;
    ReadyAgain(s, st, S, D, s.pc, st);
    var base := Base(s.stack, s.handlers);
    var kb := k + |CondConsts(c.c, k)|;
    var g := GenBlock(c.body, kb, S, D);
    var h := GenStmt(c.alt, g.Next(kb), S, D);
    var d := Len(g.code) + 3;
    var f := GenCond(c.c, false, k, d);
    var j := JUMP(Len(h.code));
    IfElseMeans(c, k, S, D, st, fuel);
    JumpSize(j);
    StandsThen(x, s.pc, f.Then(g).Add(j), h, k);
    StandsAdd(x, s.pc, f.Then(g), j, k);
    StandsThen(x, s.pc, f, g, k);
    var mid := s.pc + Len(f.code);
    var end := mid + d + Len(h.code);
    CondLands(x, s, st, c.c, false, k, d, S, D, end, fuel);
    var r := Test(c.c, false, st.locals);
    if r.Val? {
      if Truthy(r.value) {
        ReadyAgain(s, st, S, D, mid, st);
        BlockRuns(x, base.At(mid, st), st, c.body, kb, S, D, fuel);
        var o := ExecBlock(c.body, st, fuel, D.InLoop?, false);
        JumpOver(x, base.At(mid, st), base, mid + Len(g.code), Len(h.code), f.Then(g).Next(k), S, D, o, fuel);
        LandsAfter(x, s, base.At(mid, st), base, end, S, D, o, 1, fuel);
      } else {
        ReadyAgain(s, st, S, D, mid + d, st);
        StmtRuns(x, base.At(mid + d, st), st, c.alt, g.Next(kb), S, D, fuel);
        LandsAfter(x, s, base.At(mid + d, st), base, end, S, D, Exec(c.alt, st, fuel, D.InLoop?, false), 1, fuel);
      }
    }
  }

  lemma IfElseMeans(c: Stmt, k: nat, S: seq<Scope>, D: Loop, st: Store, fuel: nat)
    requires c.IfElse? && Formed(c, |st.locals|)
    ensures var kb := k + |CondConsts(c.c, k)|;
      var g := GenBlock(c.body, kb, S, D);
      var h := GenStmt(c.alt, g.Next(kb), S, D);
      GenStmt(c, k, S, D) == GenCond(c.c, false, k, Len(g.code) + 3).Then(g).Add(JUMP(Len(h.code))).Then(h)
    ensures var r := Test(c.c, false, st.locals);
      Exec(c, st, fuel, D.InLoop?, false) ==
        if !r.Val? then Failed(r, st)
        else if Truthy(r.value) then ExecBlock(c.body, st, fuel, D.InLoop?, false)
        else Exec(c.alt, st, fuel, D.InLoop?, false)
  {
    hide GenBlock, ExecBlock, GenCond, CondConsts, Bytes;
  }

  /** A jump at the normal end of a run. */
  lemma JumpOver(x: Site, a: VM, base: Base, end: nat, d: nat, k: nat, S: seq<Scope>, D: Loop, o: Outcome, fuel: nat)
    requires Lands(x, a, base, end, S, D, o, fuel) && Stands(x, end, One(JUMP(d)), k)
    ensures Lands(x, a, base, end + 3 + d, S, D, o, fuel)
  {
    hide Goes, Stands, Lands;
    if o.Normal? { JumpStep(x, base.At(end, o.store), d, k); }
    LandsOn(x, a, base, end, end + 3 + d, S, D, o, fuel);
  }

  // ---------------------------------------------------------------- statements without statements

  lemma StraightRuns(x: Site, s: VM, st: Store, c: Stmt, k: nat, S: seq<Scope>, D: Loop, fuel: nat)
    requires Straight(c) && !c.ReturnS?
    requires s.Running? && Ready(s, st, S, D) && Formed(c, |st.locals|) && Stands(x, s.pc, GenStmt(c, k, S, D), k)
    ensures Lands(x, s, Base(s.stack, s.handlers), s.pc + Len(GenStmt(c, k, S, D).code), S, D,
                  Exec(c, st, fuel, D.InLoop?, false), fuel)
  {
    hide Stands, Goes, Lands, Ready, Bytes, GenExpr, GenExprs;
    ReadyAgain(s, st, S, D, s.pc, st);
    match c
    case Pass => NormalLands(x, s, Base(s.stack, s.handlers), s.pc, S, D, st, fuel) by { Stay(x.ch, s); } LenNone();
    case ExprStmt(_) => ExprStmtRuns(x, s, st, c, k, S, D, fuel);
    case Assign(_, _, _) => AssignRuns(x, s, st, c, k, S, D, fuel);
    case AssignOp(_, _, _) => AssignOpRuns(x, s, st, c, k, S, D, fuel);
    case AssignCoalesce(_, _) => AssignCoalesceRuns(x, s, st, c, k, S, D, fuel);
    case Say(_) => SayRuns(x, s, st, c, k, S, D, fuel);
    case ThrowS(_) => ThrowRuns(x, s, st, c, k, S, D, fuel);
  }

  lemma ExprStmtRuns(x: Site, s: VM, st: Store, c: Stmt, k: nat, S: seq<Scope>, D: Loop, fuel: nat)
    requires c.ExprStmt?
    requires s.Running? && Ready(s, st, S, D) && Formed(c, |st.locals|) && Stands(x, s.pc, GenStraight(c, k), k)
    ensures Lands(x, s, Base(s.stack, s.handlers), s.pc + Len(GenStraight(c, k).code), S, D, ExecStraight(c, st), fuel)
  {
    hide Stands, Goes, Bytes, GenExpr;
    var base := Base(s.stack, s.handlers);
    var f := GenExpr(c.e, k);
    StandsAdd(x, s.pc, f, POP, k);
    OpSize(POP);
    ExprRuns(x, s, c.e, k);
    var r := Eval(c.e, st.locals);
    var end := s.pc + Len(f.code) + 1;
    assert s == base.At(s.pc, st);
    if r.Val? {
      var t := Pushed(s, Len(f.code), r.value);
      PopStep(x, s, t, r.value, f.Next(k));
      Trans(x.ch, s, t, base.At(end, st), 1, 1);
      Trans(x.ch, s, base.At(end, st), base.At(end, st), 1, 0) by { Stay(x.ch, base.At(end, st)); }
    } else {
      FailedLands(x, s, base, end, S, D, r, st, fuel, 1);
    }
  }

  /** What a computed value means for the slot it goes to. */
  function Stored(r: EvalResult, st: Store, slot: nat): Outcome
    requires slot < |st.locals|
  {
    match r case Val(v) => Normal(st.(locals := st.locals[slot := v])) case o => Failed(o, st)
  }

  /** Code that computes a value, and a store of it. */
  lemma SetLands(x: Site, s: VM, st: Store, size: nat, r: EvalResult, slot: nat, k: nat, S: seq<Scope>, D: Loop,
                 fuel: nat)
    requires s.Running? && Ready(s, st, S, D) && Computes(x.ch, s, size, r) && slot < |st.locals|
    requires Stands(x, s.pc + size, One(SET_LOCAL(slot)), k)
    ensures Lands(x, s, Base(s.stack, s.handlers), s.pc + size + 3, S, D, Stored(r, st, slot), fuel)
  {
    hide Stands, Goes;
    var base := Base(s.stack, s.handlers);
    assert s == base.At(s.pc, st);
    if r.Val? {
      var t := Pushed(s, size, r.value);
      SetStep(x, s, t, r.value, slot, k);
      var u := base.At(s.pc + size + 3, st.(locals := st.locals[slot := r.value]));
      Trans(x.ch, s, t, u, 1, 1);
      Trans(x.ch, s, u, u, 1, 0) by { Stay(x.ch, u); }
    } else {
      FailedLands(x, s, base, s.pc + size + 3, S, D, r, st, fuel, 1);
    }
  }

  /** A slot, an expression, and an operator on both. */
  lemma SlotOpRuns(x: Site, s: VM, slot: nat, e: Expr, i: Instr, op: BinOp, k: nat)
    requires HandlersFit(s) && slot < |s.locals| && SlotsIn(e, |s.locals|)
    requires i == BINARY(op) || (op == Add && i == ADD_INPLACE)
    requires Stands(x, s.pc, One(GET_LOCAL(slot)).Then(GenExpr(e, k)).Add(i), k)
    ensures var r := Eval(e, s.locals);
      Computes(x.ch, s, Len(One(GET_LOCAL(slot)).Then(GenExpr(e, k)).Add(i).code),
               if r.Val? then Apply(op, s.locals[slot], r.value) else r)
  {
    hide Stands, Goes, Bytes, Encode, GenExpr, Apply, Eval, Perform;
    var f := One(GET_LOCAL(slot));
    var g := GenExpr(e, k);
    JumpSize(GET_LOCAL(slot)); BytesOne(GET_LOCAL(slot));
    StandsAdd(x, s.pc, f.Then(g), i, k);
    StandsThen(x, s.pc, f, g, k);
    GetStep(x, s, slot, k);
    var v := s.locals[slot];
    var t := Pushed(s, 3, v);
    PushedAbove(s, 3, v);
    ExprRuns(x, t, e, k);
    var r := Eval(e, s.locals);
    if r.Val? {
      var u := Pushed(t, Len(g.code), r.value);
      Trans(x.ch, s, t, u, 1, 1);
      Trans(x.ch, s, u, u, 1, 0) by { Stay(x.ch, u); }
      OpSize(i);
      BinaryStep(x, s, u, i, op, v, r.value, f.Then(g).Next(k), 3 + Len(g.code) + Size(i));
    } else if r.Raise? {
      Trans(x.ch, s, t, Fail(t, ErrorText), 1, 1);
    }
  }

  lemma AssignRuns(x: Site, s: VM, st: Store, c: Stmt, k: nat, S: seq<Scope>, D: Loop, fuel: nat)
    requires c.Assign?
    requires s.Running? && Ready(s, st, S, D) && Formed(c, |st.locals|) && Stands(x, s.pc, GenStraight(c, k), k)
    ensures Lands(x, s, Base(s.stack, s.handlers), s.pc + Len(GenStraight(c, k).code), S, D, ExecStraight(c, st), fuel)
  {
    hide Stands, Goes, Bytes, GenExpr, Lands, Encode, Apply;
    var put := SET_LOCAL(c.slot);
    JumpSize(put);
    if !c.isSet && c.e.Infix? && c.e.op == Add && c.e.l == Name(c.slot) {
      var f := One(GET_LOCAL(c.slot)).Then(GenExpr(c.e.r, k)).Add(ADD_INPLACE);
      StandsAdd(x, s.pc, f, put, k);
      SlotOpRuns(x, s, c.slot, c.e.r, ADD_INPLACE, Add, k);
      assert Eval(c.e.l, st.locals) == Val(st.locals[c.slot]);
      SetLands(x, s, st, Len(f.code), Eval(c.e, st.locals), c.slot, f.Next(k), S, D, fuel);
    } else {
      var f := GenExpr(c.e, k);
      StandsAdd(x, s.pc, f, put, k);
      ExprRuns(x, s, c.e, k);
      SetLands(x, s, st, Len(f.code), Eval(c.e, st.locals), c.slot, f.Next(k), S, D, fuel);
    }
  }

  lemma AssignOpRuns(x: Site, s: VM, st: Store, c: Stmt, k: nat, S: seq<Scope>, D: Loop, fuel: nat)
    requires c.AssignOp?
    requires s.Running? && Ready(s, st, S, D) && Formed(c, |st.locals|) && Stands(x, s.pc, GenStraight(c, k), k)
    ensures Lands(x, s, Base(s.stack, s.handlers), s.pc + Len(GenStraight(c, k).code), S, D, ExecStraight(c, st), fuel)
  {
    hide Stands, Goes, Bytes, GenExpr, Lands, Encode, Apply;
    var put := SET_LOCAL(c.slot);
    JumpSize(put);
    var i := if c.op == Add then ADD_INPLACE else BINARY(c.op);
    var f := One(GET_LOCAL(c.slot)).Then(GenExpr(c.e, k)).Add(i);
    StandsAdd(x, s.pc, f, put, k);
    SlotOpRuns(x, s, c.slot, c.e, i, c.op, k);
    var r := Eval(c.e, st.locals);
    SetLands(x, s, st, Len(f.code), if r.Val? then Apply(c.op, st.locals[c.slot], r.value) else r, c.slot,
        f.Next(k), S, D, fuel);
  }

  /** `t ??= e` stores in either case, what was there or what `e` gives. */
  lemma AssignCoalesceRuns(x: Site, s: VM, st: Store, c: Stmt, k: nat, S: seq<Scope>, D: Loop, fuel: nat)
    requires c.AssignCoalesce?
    requires s.Running? && Ready(s, st, S, D) && Formed(c, |st.locals|) && Stands(x, s.pc, GenStraight(c, k), k)
    ensures Lands(x, s, Base(s.stack, s.handlers), s.pc + Len(GenStraight(c, k).code), S, D, ExecStraight(c, st), fuel)
  {
    hide Stands, Goes, Bytes, Lands, Encode;
    var whole := CoalesceE(Name(c.slot), c.e);
    var put := SET_LOCAL(c.slot);
    JumpSize(put);
    var f := GenExpr(whole, k);
    assert GenExpr(Name(c.slot), k) == One(GET_LOCAL(c.slot));
    assert GenStraight(c, k) == f.Add(put);
    StandsAdd(x, s.pc, f, put, k);
    ExprRuns(x, s, whole, k);
    assert Eval(Name(c.slot), st.locals) == Val(st.locals[c.slot]);
    SetLands(x, s, st, Len(f.code), Eval(whole, st.locals), c.slot, f.Next(k), S, D, fuel);
    assert st.locals[c.slot := st.locals[c.slot]] == st.locals;
  }

  lemma ThrowRuns(x: Site, s: VM, st: Store, c: Stmt, k: nat, S: seq<Scope>, D: Loop, fuel: nat)
    requires c.ThrowS?
    requires s.Running? && Ready(s, st, S, D) && Formed(c, |st.locals|) && Stands(x, s.pc, GenStraight(c, k), k)
    ensures Lands(x, s, Base(s.stack, s.handlers), s.pc + Len(GenStraight(c, k).code), S, D, ExecStraight(c, st), fuel)
  {
    hide Stands, Goes, Bytes, GenExpr;
    var base := Base(s.stack, s.handlers);
    var f := GenExpr(c.e, k);
    StandsAdd(x, s.pc, f, THROW_, k);
    ExprRuns(x, s, c.e, k);
    var r := Eval(c.e, st.locals);
    assert s == base.At(s.pc, st);
    if r.Val? {
      var t := Pushed(s, Len(f.code), r.value);
      ThrowStep(x, s, t, r.value, f.Next(k));
      var u := Fail(s, r.value.Text());
      Trans(x.ch, s, t, u, 1, 1);
      Trans(x.ch, s, u, u, 1, 0) by { Stay(x.ch, u); }
    } else {
      FailedLands(x, s, base, s.pc + Len(GenStraight(c, k).code), S, D, r, st, fuel, 1);
    }
  }

  /** Expressions, one after the other. */
  lemma {:induction false} ExprsRun(x: Site, s: VM, es: seq<Expr>, k: nat)
    requires HandlersFit(s) && (forall e :: e in es ==> SlotsIn(e, |s.locals|)) && Stands(x, s.pc, GenExprs(es, k), k)
    ensures ComputesAll(x.ch, s, Len(GenExprs(es, k).code), EvalAll(es, s.locals))
    decreases |es|
  {
    hide Stands, Goes, GenExpr, Bytes, Eval;
    if es == [] {
      Stay(x.ch, s);
      LenNone();
      assert s.stack + [] == s.stack;
    } else {
      var f := GenExpr(es[0], k);
      var g := GenExprs(es[1..], f.Next(k));
      StandsThen(x, s.pc, f, g, k);
      ExprRuns(x, s, es[0], k);
      var r := Eval(es[0], s.locals);
      if r.Val? {
        var t := Pushed(s, Len(f.code), r.value);
        PushedAbove(s, Len(f.code), r.value);
        ExprsRun(x, t, es[1..], f.Next(k));
        OneMore(x.ch, s, Len(f.code), r.value, Len(g.code), EvalAll(es[1..], s.locals));
      } else if r.Raise? {
        Trans(x.ch, s, Fail(s, ErrorText), Fail(s, ErrorText), 1, 0) by { Stay(x.ch, Fail(s, ErrorText)); }
      }
    }
  }

  ghost predicate ComputesAll(ch: Chunk, s: VM, size: nat, r: Evaluated)
    requires s.Running?
  {
    match r
    case Vals(vs) => Goes(ch, s, s.(pc := s.pc + size, stack := s.stack + vs), 0)
    case Bad(q) => q.Raise? ==> Goes(ch, s, Fail(s, ErrorText), 0)
  }

  lemma OneMore(ch: Chunk, s: VM, size: nat, v: Value, more: nat, r: Evaluated)
    requires HandlersFit(s) && Goes(ch, s, Pushed(s, size, v), 1)
    requires ComputesAll(ch, Pushed(s, size, v), more, r)
    ensures ComputesAll(ch, s, size + more, match r case Vals(vs) => Vals([v] + vs) case o => o)
  {
    hide Goes;
    var t := Pushed(s, size, v);
    PushedAbove(s, size, v);
    match r {
      case Vals(vs) =>
        assert t.stack + vs == s.stack + ([v] + vs);
        Trans(ch, s, t, t.(pc := t.pc + more, stack := t.stack + vs), 1, 0);
      case Bad(q) => if q.Raise? { Trans(ch, s, t, Fail(t, ErrorText), 1, 0); }
    }
  }

  lemma SayStep(x: Site, s: VM, t: VM, vs: seq<Value>, k: nat)
    requires s.Running? && t.Running? && t == s.(pc := t.pc, stack := s.stack + vs)
        && Stands(x, t.pc, One(SAY(|vs|)), k)
    ensures Goes(x.ch, t, s.(pc := t.pc + 2, out := s.out + vs), 1)
  {
    hide Stands, Goes;
    OneStep(x, t, SAY(|vs|), k);
    assert t.stack[..|s.stack|] == s.stack && t.stack[|s.stack|..] == vs;
  }

  lemma SayRuns(x: Site, s: VM, st: Store, c: Stmt, k: nat, S: seq<Scope>, D: Loop, fuel: nat)
    requires c.Say?
    requires s.Running? && Ready(s, st, S, D) && Formed(c, |st.locals|) && Stands(x, s.pc, GenStraight(c, k), k)
    ensures Lands(x, s, Base(s.stack, s.handlers), s.pc + Len(GenStraight(c, k).code), S, D, ExecStraight(c, st), fuel)
  {
    hide Stands, Goes, Bytes, GenExprs;
    var base := Base(s.stack, s.handlers);
    var f := GenExprs(c.values, k);
    var i := SAY(|c.values|);
    StandsAdd(x, s.pc, f, i, k);
    ExprsRun(x, s, c.values, k);
    assert s == base.At(s.pc, st);
    match EvalAll(c.values, st.locals) {
      case Vals(vs) =>
        var t := s.(pc := s.pc + Len(f.code), stack := s.stack + vs);
        SayStep(x, s, t, vs, f.Next(k));
        Trans(x.ch, s, t, base.At(t.pc + 2, st.(out := st.out + vs)), 0, 1);
      case Bad(r) => FailedLands(x, s, base, s.pc + Len(GenStraight(c, k).code), S, D, r, st, fuel, 0);
    }
  }

  // ---------------------------------------------------------------- loops

  lemma BreakStep(x: Site, t: VM, k: nat)
    requires t.Running? && Stands(x, t.pc, One(BreakJ), k)
    ensures Goes(x.ch, t, t.(pc := x.brk), 1)
  {
    hide Goes, At;
    var j := JUMP(Gap(x.brk, t.pc + 3));
    BytesOne(BreakJ); JumpSize(BreakJ);
    assert Resolve([BreakJ], t.pc, To(x.cont), To(x.brk)) == [j];
    assert Stands(x, t.pc, One(j), k) by { BytesOne(j); assert Resolve([j], t.pc, To(x.cont), To(x.brk)) == [j]; }
    JumpStep(x, t, j.d, k);
  }

  lemma ContStep(x: Site, t: VM, k: nat)
    requires t.Running? && Stands(x, t.pc, One(ContJ), k)
    ensures Goes(x.ch, t, t.(pc := x.cont), 1)
  {
    hide Goes, At;
    var j := LOOP(Gap(t.pc + 3, x.cont));
    BytesOne(ContJ); JumpSize(ContJ);
    assert Resolve([ContJ], t.pc, To(x.cont), To(x.brk)) == [j];
    assert Stands(x, t.pc, One(j), k) by { BytesOne(j); assert Resolve([j], t.pc, To(x.cont), To(x.brk)) == [j]; }
    LoopStep(x, t, j.d, k);
  }

  /** The rounds of a loop: each brings the machine back to its start, or out. */
  lemma WhileRuns(x: Site, s: VM, st: Store, c: Stmt, k: nat, S: seq<Scope>, D: Loop, fuel: nat)
    requires c.While?
    requires s.Running? && Ready(s, st, S, D) && Formed(c, |st.locals|) && Stands(x, s.pc, GenWhile(c, k, S, D), k)
    ensures Lands(x, s, Base(s.stack, s.handlers), s.pc + Len(GenWhile(c, k, S, D).code), S, D,
                  ExecWhile(c, st, fuel, D.InLoop?, false), fuel)
    decreases fuel, W(c), 2
  {
    hide Goes, Stands, Lands, Bytes, GenCond, GenBlock, ExecBlock, Ready, Resolve, CondConsts, Test;
    ReadyAgain(s, st, S, D, s.pc, st);
    var base := Base(s.stack, s.handlers);
    if fuel == 0 {
      LastsNow(x, s, base, s.pc + Len(GenWhile(c, k, S, D).code), S, D);
    } else {
      var kb := k + |CondConsts(c.c, k)|;
      var g := GenBlock(c.body, kb, S, InLoop(|S|));
      var d := Len(g.code) + 3;
      var f := GenCond(c.c, c.until, k, d);
      var total := Len(f.code) + d;
      var y := x.(cont := s.pc, brk := s.pc + total);
      WhileStands(x, s.pc, c, k, S, D);
      var mid := s.pc + Len(f.code);
      var end := s.pc + total;
      CondLands(x, s, st, c.c, c.until, k, d, S, D, end, fuel);
      var r := Test(c.c, c.until, st.locals);
      if r.Val? {
        if Truthy(r.value) {
          ReadyInside(s, st, S, D, mid);
          BlockRuns(y, base.At(mid, st), st, c.body, kb, S, InLoop(|S|), fuel - 1);
          RoundRuns(x, y, s, st, base.At(mid, st), c, k, S, D, ExecBlock(c.body, st, fuel - 1, true, false), fuel);
        } else {
          Trans(x.ch, s, base.At(end, st), base.At(end, st), 1, 0) by { Stay(x.ch, base.At(end, st)); }
          NormalLands(x, s, base, end, S, D, st, fuel);
        }
      }
    }
  }

  lemma LastsNow(x: Site, s: VM, base: Base, end: nat, S: seq<Scope>, D: Loop)
    requires s.Running?
    ensures Lands(x, s, base, end, S, D, Diverges, 0)
  {
    hide Goes;
    Stay(x.ch, s);
  }

  lemma ReadyInside(s: VM, st: Store, S: seq<Scope>, D: Loop, pc: nat)
    requires Ready(s, st, S, D) && s.Running?
    ensures Ready(Base(s.stack, s.handlers).At(pc, st), st, S, InLoop(|S|))
  {
  }

  /** Where the parts of a loop stand. */
  lemma WhileStands(x: Site, pc: nat, c: Stmt, k: nat, S: seq<Scope>, D: Loop)
    requires c.While? && Stands(x, pc, GenWhile(c, k, S, D), k)
    ensures var kb := k + |CondConsts(c.c, k)|;
      var g := GenBlock(c.body, kb, S, InLoop(|S|));
      var f := GenCond(c.c, c.until, k, Len(g.code) + 3);
      var total := Len(f.code) + Len(g.code) + 3;
      && Stands(x, pc, f, k)
      && Stands(x.(cont := pc, brk := pc + total), pc + Len(f.code), g, kb)
      && Stands(x, pc + Len(f.code) + Len(g.code), One(LOOP(total)), g.Next(kb))
      && Len(GenWhile(c, k, S, D).code) == total
  {
    hide Stands, Bytes, GenCond, GenBlock, Resolve, CondConsts;
    var kb := k + |CondConsts(c.c, k)|;
    var g := GenBlock(c.body, kb, S, InLoop(|S|));
    var f := GenCond(c.c, c.until, k, Len(g.code) + 3);
    var total := Len(f.code) + Len(g.code) + 3;
    var body := Frag(Resolve(g.code, Len(f.code), To(0), To(total)), g.consts);
    ResolveLen(g.code, Len(f.code), To(0), To(total));
    JumpSize(LOOP(total));
    StandsAdd(x, pc, f.Then(body), LOOP(total), k);
    StandsThen(x, pc, f, body, k);
    StandsLoop(x, pc + Len(f.code), g, Len(f.code), total, kb);
  }

  /** A round that ended with `o`, and what follows it. */
  lemma RoundRuns(x: Site, y: Site, s: VM, st: Store, b: VM, c: Stmt, k: nat, S: seq<Scope>, D: Loop, o: Outcome,
                  fuel: nat)
    requires c.While? && fuel > 0 && b.Running?
    requires s.Running? && Ready(s, st, S, D) && Formed(c, |st.locals|) && Stands(x, s.pc, GenWhile(c, k, S, D), k)
    requires Test(c.c, c.until, st.locals).Val? && Truthy(Test(c.c, c.until, st.locals).value)
    requires o == ExecBlock(c.body, st, fuel - 1, true, false)
    requires var kb := k + |CondConsts(c.c, k)|;
      var g := GenBlock(c.body, kb, S, InLoop(|S|));
      var f := GenCond(c.c, c.until, k, Len(g.code) + 3);
      && y == x.(cont := s.pc, brk := s.pc + Len(f.code) + Len(g.code) + 3)
      && b.pc == s.pc + Len(f.code)
      && Lands(y, b, Base(s.stack, s.handlers), b.pc + Len(g.code), S, InLoop(|S|), o, fuel - 1)
    requires Goes(x.ch, s, b, 1)
    ensures Lands(x, s, Base(s.stack, s.handlers), s.pc + Len(GenWhile(c, k, S, D).code), S, D,
                  ExecWhile(c, st, fuel, D.InLoop?, false), fuel)
    decreases fuel, W(c), 1
  {
    hide Goes, Stands, Lands, Bytes, GenCond, GenBlock, ExecBlock, Ready, Resolve, CondConsts, Test, GenWhile;
    WhileStands(x, s.pc, c, k, S, D);
    var base := Base(s.stack, s.handlers);
    var kb := k + |CondConsts(c.c, k)|;
    var g := GenBlock(c.body, kb, S, InLoop(|S|));
    var end := s.pc + Len(GenWhile(c, k, S, D).code);
    if o.Normal? || o.Continue? {
      var t := base.At(s.pc, o.store);
      ReadyAgain(s, st, S, D, s.pc, o.store);
      BackToStart(y, x, b, base, b.pc + Len(g.code), S, o, fuel - 1, g.Next(kb));
      Trans(x.ch, s, b, t, 1, 0);
      WhileRuns(x, t, o.store, c, k, S, D, fuel - 1);
      LandsAfter(x, s, t, base, end, S, D, ExecWhile(c, o.store, fuel - 1, D.InLoop?, false), 1, fuel - 1);
    } else if o.Break? {
      BreakLands(y, b, base, b.pc + Len(g.code), S, o, fuel - 1);
      Trans(x.ch, s, b, base.At(end, o.store), 1, 0);
      NormalLands(x, s, base, end, S, D, o.store, fuel);
    } else {
      LandsOutside(y, x, b, base, b.pc + Len(g.code), end, S, InLoop(|S|), D, o, fuel - 1);
      LandsAfter(x, s, b, base, end, S, D, o, 1, fuel - 1);
    }
  }

  /** The end of a round and `continue` lead to the start of the loop. */
  lemma BackToStart(y: Site, x: Site, b: VM, base: Base, at: nat, S: seq<Scope>, o: Outcome, fuel: nat, k: nat)
    requires Lands(y, b, base, at, S, InLoop(|S|), o, fuel) && (o.Normal? || o.Continue?)
    requires y.cont <= at && Stands(x, at, One(LOOP(at + 3 - y.cont)), k) && x.ch == y.ch
    ensures Goes(y.ch, b, base.At(y.cont, o.store), 0)
  {
    hide Goes, Stands;
    if o.Normal? {
      LoopStep(x, base.At(at, o.store), at + 3 - y.cont, k);
      Trans(y.ch, b, base.At(at, o.store), base.At(y.cont, o.store), 0, 1);
    } else {
      var w :| JumpsVia(w, y, b, base, S, InLoop(|S|), o.store, ContJ);
      assert Unwind(S, |S|, w.k, w.D).Add(ContJ) == One(ContJ);
      ContStep(y, w.t, w.k);
      Trans(y.ch, b, w.t, base.At(y.cont, o.store), 0, 1);
    }
  }

  lemma BreakLands(y: Site, b: VM, base: Base, at: nat, S: seq<Scope>, o: Outcome, fuel: nat)
    requires Lands(y, b, base, at, S, InLoop(|S|), o, fuel) && o.Break?
    ensures Goes(y.ch, b, base.At(y.brk, o.store), 0)
  {
    hide Goes, Stands;
    var w :| JumpsVia(w, y, b, base, S, InLoop(|S|), o.store, BreakJ);
    assert Unwind(S, |S|, w.k, w.D).Add(BreakJ) == One(BreakJ);
    BreakStep(y, w.t, w.k);
    Trans(y.ch, b, w.t, base.At(y.brk, o.store), 0, 1);
  }

  /** What does not end in the loop is the same outside it. */
  lemma LandsOutside(y: Site, x: Site, a: VM, base: Base, e: nat, end: nat, S: seq<Scope>, E: Loop, D: Loop,
                     o: Outcome, fuel: nat)
    requires Lands(y, a, base, e, S, E, o, fuel) && y.ch == x.ch
    requires o.Return? || o.Throw? || !o.Ends()
    ensures Lands(x, a, base, end, S, D, o, fuel)
  {
    hide Goes, Leaves;
  }

  // ---------------------------------------------------------------- match

  /** The comparisons of the subject `v` with the patterns of a branch. */
  lemma {:induction false} PatternsRun(x: Site, s: VM, t: VM, v: Value, ps: seq<Expr>, k: nat, skip: nat)
    requires HandlersFit(s) && Topped(t, s, v) && ps != []
    requires (forall p :: p in ps ==> SlotsIn(p, |s.locals|)) && Stands(x, t.pc, GenPatterns(ps, k, skip), k)
    ensures Branches(x.ch, t, Len(GenPatterns(ps, k, skip).code), skip, AnyEqual(v, ps, s.locals))
    decreases |ps|
  {
    hide Stands, Goes, Bytes, GenExpr, Eval, Bytecode.Apply, Encode;
    var e := GenExpr(ps[0], k);
    var rest := GenPatterns(ps[1..], e.Next(k), skip);
    var test := One(DUP).Then(e).Add(BINARY(Eq));
    var j1, j2 := JUMP_IF_FALSE(if |ps| == 1 then skip else 3), JUMP(Len(rest.code));
    var r := Eval(ps[0], s.locals);
    var q := if r.Val? then Apply(Eq, v, r.value) else r;
    JumpSize(j1); JumpSize(j2);
    if |ps| == 1 {
      assert ps[1..] == [];
      assert GenPatterns(ps, k, skip) == test.Add(j1);
      StandsAdd(x, t.pc, test, j1, k);
      TestRuns(x, s, t, v, ps[0], k);
      if q.Val? {
        var u := Pushed(t, Len(test.code), q.value);
        JumpIfFalseStep(x, t, u, q.value, skip, test.Next(k));
        Trans(x.ch, t, u, t.(pc := u.pc + 3 + if Truthy(q.value) then 0 else skip), 1, 1);
        EqualGivesBool(v, r.value);
      }
    } else {
      assert GenPatterns(ps, k, skip) == test.Add(j1).Add(j2).Then(rest);
      StandsThen(x, t.pc, test.Add(j1).Add(j2), rest, k);
      StandsAdd(x, t.pc, test.Add(j1), j2, k);
      StandsAdd(x, t.pc, test, j1, k);
      TestRuns(x, s, t, v, ps[0], k);
      if q.Val? {
        var u := Pushed(t, Len(test.code), q.value);
        JumpIfFalseStep(x, t, u, q.value, 3, test.Next(k));
        EqualGivesBool(v, r.value);
        if Truthy(q.value) {
          var w := t.(pc := u.pc + 3);
          Trans(x.ch, t, u, w, 1, 1);
          JumpStep(x, w, Len(rest.code), test.Add(j1).Next(k));
          Trans(x.ch, t, w, w.(pc := w.pc + 3 + Len(rest.code)), 1, 1);
        } else {
          var w := t.(pc := u.pc + 6);
          Trans(x.ch, t, u, w, 1, 1);
          PatternsRun(x, s, w, v, ps[1..], e.Next(k), skip);
          BranchesAfter(x, t, w, Len(GenPatterns(ps, k, skip).code), Len(rest.code), skip,
              AnyEqual(v, ps[1..], s.locals));
        }
      }
    }
  }

  lemma EqualGivesBool(v: Value, w: Value)
    ensures Apply(Eq, v, w).Val? ==> Apply(Eq, v, w).value.Bool?
  {
    CompareGivesBool(Eq, v, w);
  }

  lemma BranchesAfter(x: Site, t: VM, w: VM, size: nat, rest: nat, d: nat, r: EvalResult)
    requires t.Running? && w.Running? && w == t.(pc := w.pc) && Goes(x.ch, t, w, 1) && Branches(x.ch, w, rest, d, r)
    requires t.pc + size == w.pc + rest
    ensures Branches(x.ch, t, size, d, r)
  {
    hide Goes;
    match r {
      case Val(v) => Trans(x.ch, t, w, w.(pc := w.pc + rest + if Truthy(v) then 0 else d), 1, 1);
      case Raise => Trans(x.ch, t, w, Fail(w, ErrorText), 1, 1);
      case Outside =>
    }
  }

  /** One comparison, on a copy of the subject. */
  lemma TestRuns(x: Site, s: VM, t: VM, v: Value, p: Expr, k: nat)
    requires HandlersFit(s) && Topped(t, s, v) && SlotsIn(p, |s.locals|)
    requires Stands(x, t.pc, One(DUP).Then(GenExpr(p, k)).Add(BINARY(Eq)), k)
    ensures var r := Eval(p, s.locals);
      Computes(x.ch, t, Len(One(DUP).Then(GenExpr(p, k)).Add(BINARY(Eq)).code),
          if r.Val? then Apply(Eq, v, r.value) else r)
  {
    hide Stands, Goes, Bytes, GenExpr, Encode, Apply, Eval, Perform;
    var f := One(DUP);
    var g := GenExpr(p, k);
    var i := BINARY(Eq);
    BytesOne(DUP); OpSize(DUP); OpSize(i);
    StandsAdd(x, t.pc, f.Then(g), i, k);
    StandsThen(x, t.pc, f, g, k);
    DupStep(x, s, t, v, k);
    FailAbove(t, s, ErrorText);
    var t1 := Pushed(t, 1, v);
    PushedAbove(t, 1, v);
    ExprRuns(x, t1, p, k);
    var r := Eval(p, s.locals);
    if r.Val? {
      var u := Pushed(t1, Len(g.code), r.value);
      Trans(x.ch, t, t1, u, 1, 1);
      Trans(x.ch, t, u, u, 1, 0) by { Stay(x.ch, u); }
      BinaryStep(x, t, u, i, Eq, v, r.value, f.Then(g).Next(k), Len(f.Then(g).Add(i).code));
    } else if r.Raise? {
      Trans(x.ch, t, t1, Fail(t1, ErrorText), 1, 1);
    }
  }

  lemma MatchRuns(x: Site, s: VM, st: Store, c: Stmt, k: nat, S: seq<Scope>, D: Loop, fuel: nat)
    requires c.Match?
    requires s.Running? && Ready(s, st, S, D) && Formed(c, |st.locals|) && Stands(x, s.pc, GenStmt(c, k, S, D), k)
    ensures Lands(x, s, Base(s.stack, s.handlers), s.pc + Len(GenStmt(c, k, S, D).code), S, D,
                  Exec(c, st, fuel, D.InLoop?, false), fuel)
    decreases fuel, W(c), 2
  {
    hide Goes, Stands, Bytes, GenExpr, GenCases, ExecCases, Lands;
    var base := Base(s.stack, s.handlers);
    var f := GenExpr(c.subject, k);
    var g := GenCases(c.cases, f.Next(k), S, D);
    StandsThen(x, s.pc, f, g, k);
    ExprRuns(x, s, c.subject, k);
    var end := s.pc + Len(f.code) + Len(g.code);
    var r := Eval(c.subject, st.locals);
    ReadyAgain(s, st, S, D, s.pc, st);
    if r.Val? {
      var t := Pushed(s, Len(f.code), r.value);
      CasesRun(x, s, t, st, r.value, c.cases, f.Next(k), S, D, fuel);
      LandsAfter(x, s, t, base, end, S, D, ExecCases(r.value, c.cases, st, fuel, D.InLoop?, false), 1, fuel);
    } else {
      FailedLands(x, s, base, end, S, D, r, st, fuel, 1);
    }
  }

  /** The branches, with the subject on the stack above `s`. */
  lemma CasesRun(x: Site, s: VM, t: VM, st: Store, v: Value, cs: seq<Case>, k: nat, S: seq<Scope>, D: Loop, fuel: nat)
    requires s.Running? && Ready(s, st, S, D) && Topped(t, s, v) && CasesFormed(cs, |st.locals|)
    requires Stands(x, t.pc, GenCases(cs, k, S, D), k)
    ensures Lands(x, t, Base(s.stack, s.handlers), t.pc + Len(GenCases(cs, k, S, D).code), S, D,
                  ExecCases(v, cs, st, fuel, D.InLoop?, false), fuel)
    decreases fuel, WC(cs), 4
  {
    hide Goes, Stands, Bytes, GenBlock, ExecBlock, Lands, GenPatterns, PatternConsts;
    var base := Base(s.stack, s.handlers);
    if cs == [] {
      ReadyAgain(s, st, S, D, t.pc + 1, st);
      BytesOne(POP); OpSize(POP);
      PopStep(x, s, t, v, k);
      Trans(x.ch, t, base.At(t.pc + 1, st), base.At(t.pc + 1, st), 1, 0) by { Stay(x.ch, base.At(t.pc + 1, st)); }
      NormalLands(x, t, base, t.pc + 1, S, D, st, fuel);
    } else if cs[0].Default? {
      ChosenRuns(x, s, t, t, st, v, cs, k, S, D, fuel);
    } else {
      BranchRuns(x, s, t, st, v, cs, k, S, D, fuel);
    }
  }

  /** The parts of a branch's code: the body behind the comparisons, and the other branches. */
  lemma CaseStands(x: Site, pc: nat, cs: seq<Case>, k: nat, S: seq<Scope>, D: Loop)
    requires cs != [] && Stands(x, pc, GenCases(cs, k, S, D), k)
    ensures var c := cs[0];
      var kb := if c.Branch? then k + |PatternConsts(c.patterns, k)| else k;
      var g := GenBlock(c.body, kb, S, D);
      var rest := GenCases(cs[1..], g.Next(kb), S, D);
      var tests := if c.Branch? then GenPatterns(c.patterns, k, 4 + Len(g.code)) else NO_CODE;
      var at := pc + Len(tests.code);
      && (c.Branch? ==> Stands(x, pc, tests, k))
      && Stands(x, at, One(POP), kb) && Stands(x, at + 1, g, kb)
      && Stands(x, at + 1 + Len(g.code), One(JUMP(Len(rest.code))), g.Next(kb))
      && Stands(x, at + 4 + Len(g.code), rest, g.Next(kb))
      && Len(GenCases(cs, k, S, D).code) == Len(tests.code) + 4 + Len(g.code) + Len(rest.code)
  {
    hide Stands, Bytes, GenBlock, GenPatterns, PatternConsts;
    var c := cs[0];
    var kb := if c.Branch? then k + |PatternConsts(c.patterns, k)| else k;
    var g := GenBlock(c.body, kb, S, D);
    var rest := GenCases(cs[1..], g.Next(kb), S, D);
    var j := JUMP(Len(rest.code));
    var body := One(POP).Then(g).Add(j);
    JumpSize(j); BytesOne(POP); OpSize(POP); LenNone();
    LenParts(One(POP).Then(g), One(j)); LenParts(One(POP), g); BytesOne(j);
    var at := pc;
    if c.Branch? {
      var tests := GenPatterns(c.patterns, k, Len(body.code));
      StandsThen(x, pc, tests.Then(body), rest, k);
      StandsThen(x, pc, tests, body, k);
      at := pc + Len(tests.code);
    } else {
      StandsThen(x, pc, body, rest, k);
    }
    StandsAdd(x, at, One(POP).Then(g), j, kb);
    StandsThen(x, at, One(POP), g, kb);
  }

  lemma LenParts(f: Frag, g: Frag)
    ensures Len(f.Then(g).code) == Len(f.code) + Len(g.code)
  {
    BytesCat(f.code, g.code);
  }

  /** The body of the chosen branch, from the POP before it. */
  lemma ChosenRuns(x: Site, s: VM, t: VM, u: VM, st: Store, v: Value, cs: seq<Case>, k: nat, S: seq<Scope>, D: Loop,
                   fuel: nat)
    requires s.Running? && Ready(s, st, S, D) && Topped(t, s, v) && cs != [] && CasesFormed(cs, |st.locals|)
    requires Stands(x, t.pc, GenCases(cs, k, S, D), k)
    requires Topped(u, s, v)
    requires u.pc == t.pc + if cs[0].Branch? then
      Len(GenPatterns(cs[0].patterns, k,
          4 + Len(GenBlock(cs[0].body, k + |PatternConsts(cs[0].patterns, k)|, S, D).code)).code) else 0
    ensures Lands(x, u, Base(s.stack, s.handlers), t.pc + Len(GenCases(cs, k, S, D).code), S, D,
                  ExecBlock(cs[0].body, st, fuel, D.InLoop?, false), fuel)
    decreases fuel, WC(cs), 2
  {
    hide Goes, Stands, Bytes, GenBlock, ExecBlock, Lands, GenPatterns, PatternConsts, GenCases, Ready;
    CaseStands(x, t.pc, cs, k, S, D);
    LenNone();
    var base := Base(s.stack, s.handlers);
    var c := cs[0];
    var kb := if c.Branch? then k + |PatternConsts(c.patterns, k)| else k;
    var g := GenBlock(c.body, kb, S, D);
    var rest := GenCases(cs[1..], g.Next(kb), S, D);
    PopStep(x, s, u, v, kb);
    ReadyAgain(s, st, S, D, u.pc + 1, st);
    var b := base.At(u.pc + 1, st);
    assert b == s.(pc := u.pc + 1);
    BlockRuns(x, b, st, c.body, kb, S, D, fuel);
    var o := ExecBlock(c.body, st, fuel, D.InLoop?, false);
    JumpOver(x, b, base, u.pc + 1 + Len(g.code), Len(rest.code), g.Next(kb), S, D, o, fuel);
    LandsAfter(x, u, b, base, u.pc + 4 + Len(g.code) + Len(rest.code), S, D, o, 1, fuel);
  }

  lemma BranchRuns(x: Site, s: VM, t: VM, st: Store, v: Value, cs: seq<Case>, k: nat, S: seq<Scope>, D: Loop, fuel: nat)
    requires s.Running? && Ready(s, st, S, D) && Topped(t, s, v) && cs != [] && cs[0].Branch?
        && CasesFormed(cs, |st.locals|)
    requires Stands(x, t.pc, GenCases(cs, k, S, D), k)
    ensures Lands(x, t, Base(s.stack, s.handlers), t.pc + Len(GenCases(cs, k, S, D).code), S, D,
                  ExecCases(v, cs, st, fuel, D.InLoop?, false), fuel)
    decreases fuel, WC(cs), 3
  {
    hide Goes, Stands, Bytes, GenBlock, ExecBlock, Lands, GenPatterns, PatternConsts, GenCases, AnyEqual;
    CaseStands(x, t.pc, cs, k, S, D);
    ReadyAgain(s, st, S, D, t.pc, st);
    var base := Base(s.stack, s.handlers);
    var c := cs[0];
    var kb := k + |PatternConsts(c.patterns, k)|;
    var g := GenBlock(c.body, kb, S, D);
    var rest := GenCases(cs[1..], g.Next(kb), S, D);
    var skip := 4 + Len(g.code);
    var size := Len(GenPatterns(c.patterns, k, skip).code);
    var end := t.pc + Len(GenCases(cs, k, S, D).code);
    PatternsRun(x, s, t, v, c.patterns, k, skip);
    AnyEqualGivesBool(v, c.patterns, st.locals);
    var r := AnyEqual(v, c.patterns, st.locals);
    if r.Val? {
      if Truthy(r.value) {
        var u := t.(pc := t.pc + size);
        ChosenRuns(x, s, t, u, st, v, cs, k, S, D, fuel);
        LandsAfter(x, t, u, base, end, S, D, ExecBlock(c.body, st, fuel, D.InLoop?, false), 1, fuel);
      } else {
        var u := t.(pc := t.pc + size + skip);
        CasesRun(x, s, u, st, v, cs[1..], g.Next(kb), S, D, fuel);
        LandsAfter(x, t, u, base, end, S, D, ExecCases(v, cs[1..], st, fuel, D.InLoop?, false), 1, fuel);
      }
    } else {
      FailAbove(t, s, ErrorText);
      FailedLands(x, t, base, end, S, D, r, st, fuel, 1);
    }
  }

  lemma {:induction false} AnyEqualGivesBool(v: Value, ps: seq<Expr>, locals: seq<Value>)
    requires forall p :: p in ps ==> SlotsIn(p, |locals|)
    ensures AnyEqual(v, ps, locals).Val? ==> AnyEqual(v, ps, locals).value.Bool?
    decreases |ps|
  {
    if ps != [] { AnyEqualGivesBool(v, ps[1..], locals); }
  }

  // ---------------------------------------------------------------- try

  lemma LandsStuck(x: Site, a: VM, base: Base, base2: Base, e: nat, end: nat, S: seq<Scope>, S2: seq<Scope>,
                   D: Loop, o: Outcome, fuel: nat)
    requires Lands(x, a, base, e, S, D, o, fuel) && !o.Ends()
    ensures Lands(x, a, base2, end, S2, D, o, fuel)
  {
    hide Goes;
  }

  /** Inside a `try`, its handler on top. */
  lemma ReadyWithin(s: VM, st: Store, S: seq<Scope>, D: Loop, c: Scope, pc: nat, catchPc: nat, st2: Store)
    requires s.Running? && Ready(s, st, S, D) && ScopeFormed(c, |st.locals|) && |st2.locals| == |st.locals|
    ensures Ready(Within(Base(s.stack, s.handlers), c, Handler(|s.stack|, catchPc)).At(pc, st2), st2, S + [c], D)
    ensures ScopesFormed(S + [c], |st.locals|)
  {
    assert (S + [c])[|S|] == c;
    assert forall i :: 0 <= i < |S| ==> (S + [c])[i] == S[i];
    assert ScopesFormed(S + [c], |st.locals|);
  }

  /** Above a `try`, the error on the stack. */
  lemma ReadyAbove(s: VM, st: Store, S: seq<Scope>, D: Loop, v: Value, pc: nat, st2: Store)
    requires s.Running? && Ready(s, st, S, D) && |st2.locals| == |st.locals|
    ensures Ready(Base(s.stack + [v], s.handlers).At(pc, st2), st2, S, D)
  {
  }

  /** An error in the body of a `try` arrives at its handler. */
  lemma CaughtAt(base: Base, c: Scope, catchPc: nat, v: Value, st: Store)
    requires c.live
    ensures Within(base, c, Handler(|base.stack|, catchPc)).Thrown(v, st)
         == Base(base.stack + [v], base.handlers).At(catchPc, st)
  {
    var hs := base.handlers + [Handler(|base.stack|, catchPc)];
    assert hs[..|hs| - 1] == base.handlers;
  }

  lemma TryFinallyStands(x: Site, pc: nat, c: Stmt, k: nat, S: seq<Scope>, D: Loop)
    requires c.TryFinally? && Stands(x, pc, GenTryFinally(c, k, S, D), k)
    ensures var g := GenBlock(c.body, k, S + [Scope(c.fin, true)], D);
      var k1 := g.Next(k);
      var f1 := GenBlock(c.fin, k1, S, D);
      var k2 := f1.Next(k1);
      var f2 := GenBlock(c.fin, k2, S, D);
      var at := pc + 4 + Len(g.code);
      && Stands(x, pc, One(TRY_PUSH(Len(g.code) + 4 + Len(f1.code))), k)
      && Stands(x, pc + 3, g, k) && Stands(x, at - 1, One(TRY_POP), k1) && Stands(x, at, f1, k1)
      && Stands(x, at + Len(f1.code), One(JUMP(Len(f2.code) + 1)), k2)
      && Stands(x, at + Len(f1.code) + 3, f2, k2)
      && Stands(x, at + Len(f1.code) + 3 + Len(f2.code), One(THROW_), f2.Next(k2))
      && Len(GenTryFinally(c, k, S, D).code) == 4 + Len(g.code) + Len(f1.code) + 3 + Len(f2.code) + 1
  {
    hide Stands, Bytes, GenBlock;
    WSPush(S, Scope(c.fin, true));
    var g := GenBlock(c.body, k, S + [Scope(c.fin, true)], D);
    var k1 := g.Next(k);
    var f1 := GenBlock(c.fin, k1, S, D);
    var k2 := f1.Next(k1);
    var f2 := GenBlock(c.fin, k2, S, D);
    var a := One(TRY_PUSH(Len(g.code) + 1 + Len(f1.code) + 3));
    var j := JUMP(Len(f2.code) + 1);
    JumpSize(a.code[0]); BytesOne(a.code[0]); JumpSize(j); OpSize(TRY_POP); OpSize(THROW_);
    var b := a.Then(g).Add(TRY_POP).Then(f1);
    StandsAdd(x, pc, b.Add(j).Then(f2), THROW_, k);
    StandsThen(x, pc, b.Add(j), f2, k);
    StandsAdd(x, pc, b, j, k);
    StandsThen(x, pc, a.Then(g).Add(TRY_POP), f1, k);
    StandsAdd(x, pc, a.Then(g), TRY_POP, k);
    StandsThen(x, pc, a, g, k);
  }

  /** `try` with `finally`: whatever the body's outcome, the `finally` block runs. */
  lemma TryFinallyRuns(x: Site, s: VM, st: Store, c: Stmt, k: nat, S: seq<Scope>, D: Loop, fuel: nat)
    requires c.TryFinally?
    requires s.Running? && Ready(s, st, S, D) && Formed(c, |st.locals|) && Stands(x, s.pc, GenTryFinally(c, k, S, D), k)
    ensures Lands(x, s, Base(s.stack, s.handlers), s.pc + Len(GenTryFinally(c, k, S, D).code), S, D,
                  Exec(c, st, fuel, D.InLoop?, false), fuel)
    decreases fuel, W(c), 2
  {
    hide Goes, Stands, Lands, Bytes, GenBlock, ExecBlock, Ready, GenTryFinally, ScopesFormed;
    TryFinallyStands(x, s.pc, c, k, S, D);
    var base := Base(s.stack, s.handlers);
    var scope := Scope(c.fin, true);
    var g := GenBlock(c.body, k, S + [scope], D);
    var f1 := GenBlock(c.fin, g.Next(k), S, D);
    var end := s.pc + Len(GenTryFinally(c, k, S, D).code);
    var catchPc := s.pc + 4 + Len(g.code) + Len(f1.code) + 3;
    var h := Handler(|s.stack|, catchPc);
    ReadyAgain(s, st, S, D, s.pc, st);
    TryPushStep(x, s, Len(g.code) + 4 + Len(f1.code), k);
    var st1 := Note(Opened(c.fin), st);
    var s1 := Within(base, scope, h).At(s.pc + 3, st1);
    ReadyWithin(s, st, S, D, scope, s.pc + 3, catchPc, st1);
    BlockRuns(x, s1, st1, c.body, k, S + [scope], D, fuel);
    var o := ExecBlock(c.body, st1, fuel, D.InLoop?, false);
    var p := Finally(c.fin, o, fuel, D.InLoop?, false, |st.locals|);
    if o.Normal? {
      FinallyAfterBody(x, s, s1, st, c, k, S, D, o, fuel);
    } else if o.Throw? {
      FinallyAfterError(x, s, s1, st, c, k, S, D, o, fuel);
    } else if o.Ends() {
      ReadyScopes(s, st, S, D);
      AfterScope(x, s1, base, scope, h, s.pc + 3 + Len(g.code), end, S, D, o, fuel, |st.locals|);
    } else {
      LandsStuck(x, s1, Within(base, scope, h), base, s.pc + 3 + Len(g.code), end, S + [scope], S, D, o, fuel);
    }
    LandsAfter(x, s, s1, base, end, S, D, p, 1, fuel);
  }

  lemma ReadyScopes(s: VM, st: Store, S: seq<Scope>, D: Loop)
    requires Ready(s, st, S, D)
    ensures ScopesFormed(S, |st.locals|) && DepthFits(S, D)
  {
  }

  /** The body ended normally: drop the handler, run the first copy. */
  lemma FinallyAfterBody(x: Site, s: VM, s1: VM, st: Store, c: Stmt, k: nat, S: seq<Scope>, D: Loop, o: Outcome,
                         fuel: nat)
    requires c.TryFinally? && BlockFormed(c.fin, |st.locals|) && o.Normal? && Sound(o, |st.locals|, D.InLoop?)
    requires s.Running? && Ready(s, st, S, D) && Formed(c, |st.locals|) && Stands(x, s.pc, GenTryFinally(c, k, S, D), k)
    requires var g := GenBlock(c.body, k, S + [Scope(c.fin, true)], D);
      var f1 := GenBlock(c.fin, g.Next(k), S, D);
      Lands(x, s1, Within(Base(s.stack, s.handlers), Scope(c.fin, true),
                          Handler(|s.stack|, s.pc + 4 + Len(g.code) + Len(f1.code) + 3)),
            s.pc + 3 + Len(g.code), S + [Scope(c.fin, true)], D, o, fuel)
    ensures Lands(x, s1, Base(s.stack, s.handlers), s.pc + Len(GenTryFinally(c, k, S, D).code), S, D,
                  Finally(c.fin, o, fuel, D.InLoop?, false, |st.locals|), fuel)
    decreases fuel, W(c), 1
  {
    hide Goes, Stands, Lands, Bytes, GenBlock, ExecBlock, Ready, GenTryFinally;
    TryFinallyStands(x, s.pc, c, k, S, D);
    var base := Base(s.stack, s.handlers);
    var g := GenBlock(c.body, k, S + [Scope(c.fin, true)], D);
    var k1 := g.Next(k);
    var f1 := GenBlock(c.fin, k1, S, D);
    var f2 := GenBlock(c.fin, f1.Next(k1), S, D);
    var h := Handler(|s.stack|, s.pc + 4 + Len(g.code) + Len(f1.code) + 3);
    var end := s.pc + Len(GenTryFinally(c, k, S, D).code);
    PopHandler(x, s1, base, Scope(c.fin, true), h, s.pc + 3 + Len(g.code), k1, S + [Scope(c.fin, true)], D, o, fuel);
    var at := s.pc + 4 + Len(g.code);
    var st1 := Note(Ran(c.fin), o.store);
    var b := base.At(at, st1);
    ReadyAgain(s, st, S, D, at, st1);
    BlockRuns(x, b, st1, c.fin, k1, S, D, fuel);
    var q := ExecBlock(c.fin, st1, fuel, D.InLoop?, false);
    JumpOver(x, b, base, at + Len(f1.code), Len(f2.code) + 1, f1.Next(k1), S, D, q, fuel);
    LandsAfter(x, s1, b, base, end, S, D, q, 0, fuel);
  }

  lemma PopHandler(x: Site, s1: VM, base: Base, c: Scope, h: Handler, at: nat, k: nat, S: seq<Scope>, D: Loop,
                   o: Outcome, fuel: nat)
    requires o.Normal? && c.live && Lands(x, s1, Within(base, c, h), at, S, D, o, fuel)
        && Stands(x, at, One(TRY_POP), k)
    ensures Goes(x.ch, s1, base.At(at + 1, o.store), 0)
  {
    hide Goes, Stands;
    var t := Within(base, c, h).At(at, o.store);
    assert t.handlers[..|t.handlers| - 1] == base.handlers;
    TryPopStep(x, t, base.handlers, k);
    Trans(x.ch, s1, t, base.At(at + 1, o.store), 0, 1);
  }

  /** The body threw: run the second copy, raise the error again. */
  lemma FinallyAfterError(x: Site, s: VM, s1: VM, st: Store, c: Stmt, k: nat, S: seq<Scope>, D: Loop, o: Outcome,
                          fuel: nat)
    requires c.TryFinally? && BlockFormed(c.fin, |st.locals|) && o.Throw? && Sound(o, |st.locals|, D.InLoop?)
    requires s.Running? && Ready(s, st, S, D) && Formed(c, |st.locals|) && Stands(x, s.pc, GenTryFinally(c, k, S, D), k)
    requires var g := GenBlock(c.body, k, S + [Scope(c.fin, true)], D);
      var f1 := GenBlock(c.fin, g.Next(k), S, D);
      Lands(x, s1, Within(Base(s.stack, s.handlers), Scope(c.fin, true),
                          Handler(|s.stack|, s.pc + 4 + Len(g.code) + Len(f1.code) + 3)),
            s.pc + 3 + Len(g.code), S + [Scope(c.fin, true)], D, o, fuel)
    ensures Lands(x, s1, Base(s.stack, s.handlers), s.pc + Len(GenTryFinally(c, k, S, D).code), S, D,
                  Finally(c.fin, o, fuel, D.InLoop?, false, |st.locals|), fuel)
    decreases fuel, W(c), 1
  {
    hide Goes, Stands, Lands, Bytes, GenBlock, ExecBlock, Ready, GenTryFinally;
    TryFinallyStands(x, s.pc, c, k, S, D);
    ReadyAgain(s, st, S, D, s.pc, st);
    var base := Base(s.stack, s.handlers);
    var g := GenBlock(c.body, k, S + [Scope(c.fin, true)], D);
    var k1 := g.Next(k);
    var f1 := GenBlock(c.fin, k1, S, D);
    var k2 := f1.Next(k1);
    var f2 := GenBlock(c.fin, k2, S, D);
    var catchPc := s.pc + 4 + Len(g.code) + Len(f1.code) + 3;
    var h := Handler(|s.stack|, catchPc);
    var end := s.pc + Len(GenTryFinally(c, k, S, D).code);
    var mid := Base(s.stack + [o.value], s.handlers);
    var b := mid.At(catchPc, o.store);
    CaughtAt(base, Scope(c.fin, true), catchPc, o.value, o.store);
    Thrown(x, s1, Within(base, Scope(c.fin, true), h), s.pc + 3 + Len(g.code), S + [Scope(c.fin, true)], D, o, fuel);
    var st1 := Note(Ran(c.fin), o.store);
    ReadyAbove(s, st, S, D, o.value, catchPc, st1);
    BlockRuns(x, b, st1, c.fin, k2, S, D, fuel);
    var q := ExecBlock(c.fin, st1, fuel, D.InLoop?, false);
    ClosedBlock(c.fin, st1, fuel, D.InLoop?);
    var e := catchPc + Len(f2.code);
    LandsAfter(x, s1, b, mid, e, S, D, q, 0, fuel);
    if q.Normal? {
      LandsNormally(x, s1, mid, e, S, D, q, fuel);
      ThrowStep(x, base.At(e, q.store), mid.At(e, q.store), o.value, f2.Next(k2));
      Trans(x.ch, s1, mid.At(e, q.store), base.Thrown(o.value, q.store), 0, 1);
      ThrowLands(x, s1, base, end, S, D, o.value, q.store, fuel);
    } else {
      LandsOutside(x, x, s1, mid, e, e, S, D, NoLoop, q, fuel);
      LandsBelow(x, x, s1, mid, base, e, end, S, D, q, fuel);
    }
  }

  lemma Thrown(x: Site, a: VM, base: Base, e: nat, S: seq<Scope>, D: Loop, o: Outcome, fuel: nat)
    requires Lands(x, a, base, e, S, D, o, fuel) && o.Throw?
    ensures Goes(x.ch, a, base.Thrown(o.value, o.store), 0)
  {
  }

  lemma ThrowLands(x: Site, a: VM, base: Base, e: nat, S: seq<Scope>, D: Loop, v: Value, st: Store, fuel: nat)
    requires Goes(x.ch, a, base.Thrown(v, st), 0)
    ensures Lands(x, a, base, e, S, D, Outcome.Throw(v, st), fuel)
  {
  }

  lemma TryCatchStands(x: Site, pc: nat, c: Stmt, k: nat, S: seq<Scope>, D: Loop)
    requires c.TryCatch? && Stands(x, pc, GenTryCatch(c, k, S, D), k)
    ensures var g := GenBlock(c.body, k, S + [Scope(c.fin, true)], D);
      var k1 := g.Next(k);
      var h := GenBlock(c.catchBody, k1, S + [Scope(c.fin, false)], D);
      var k2 := h.Next(k1);
      var f := GenBlock(c.fin, k2, S, D);
      var at := pc + 7 + Len(g.code);
      && Stands(x, pc, One(TRY_PUSH(Len(g.code) + 4)), k)
      && Stands(x, pc + 3, g, k) && Stands(x, at - 4, One(TRY_POP), k1)
          && Stands(x, at - 3, One(JUMP(3 + Len(h.code))), k1)
      && Stands(x, at, One(SET_LOCAL(c.slot)), k1) && Stands(x, at + 3, h, k1) && Stands(x, at + 3 + Len(h.code), f, k2)
      && Len(GenTryCatch(c, k, S, D).code) == 10 + Len(g.code) + Len(h.code) + Len(f.code)
  {
    hide Stands, Bytes, GenBlock;
    WSPush(S, Scope(c.fin, true)); WSPush(S, Scope(c.fin, false));
    var g := GenBlock(c.body, k, S + [Scope(c.fin, true)], D);
    var k1 := g.Next(k);
    var h := GenBlock(c.catchBody, k1, S + [Scope(c.fin, false)], D);
    var f := GenBlock(c.fin, h.Next(k1), S, D);
    var a := One(TRY_PUSH(Len(g.code) + 4));
    var j, put := JUMP(3 + Len(h.code)), SET_LOCAL(c.slot);
    JumpSize(a.code[0]); BytesOne(a.code[0]); JumpSize(j); OpSize(TRY_POP); JumpSize(put);
    var b := a.Then(g).Add(TRY_POP);
    StandsThen(x, pc, b.Add(j).Add(put).Then(h), f, k);
    StandsThen(x, pc, b.Add(j).Add(put), h, k);
    StandsAdd(x, pc, b.Add(j), put, k);
    StandsAdd(x, pc, b, j, k);
    StandsAdd(x, pc, a.Then(g), TRY_POP, k);
    StandsThen(x, pc, a, g, k);
  }

  lemma PastCatch(c: Stmt, o: Outcome, fuel: nat, loop: bool, n: nat)
    requires c.TryCatch? && Formed(c, n) && Sound(o, n, loop) && !o.Throw?
    ensures ExecCatch(c, o, fuel, loop, false, n) == Finally(c.fin, o, fuel, loop, false, n)
  {
    hide Finally, ExecBlock;
  }

  /** `try` with `catch`: the `finally` block stands where body and catch block meet. */
  lemma TryCatchRuns(x: Site, s: VM, st: Store, c: Stmt, k: nat, S: seq<Scope>, D: Loop, fuel: nat)
    requires c.TryCatch?
    requires s.Running? && Ready(s, st, S, D) && Formed(c, |st.locals|) && Stands(x, s.pc, GenTryCatch(c, k, S, D), k)
    ensures Lands(x, s, Base(s.stack, s.handlers), s.pc + Len(GenTryCatch(c, k, S, D).code), S, D,
                  Exec(c, st, fuel, D.InLoop?, false), fuel)
    decreases fuel, W(c), 2
  {
    hide Goes, Stands, Lands, Bytes, GenBlock, ExecBlock, Ready, GenTryCatch, ScopesFormed;
    TryCatchStands(x, s.pc, c, k, S, D);
    var base := Base(s.stack, s.handlers);
    var scope := Scope(c.fin, true);
    var g := GenBlock(c.body, k, S + [scope], D);
    var end := s.pc + Len(GenTryCatch(c, k, S, D).code);
    var catchPc := s.pc + 7 + Len(g.code);
    var h := Handler(|s.stack|, catchPc);
    ReadyAgain(s, st, S, D, s.pc, st);
    TryPushStep(x, s, Len(g.code) + 4, k);
    var st1 := Note(Opened(c.fin), st);
    var s1 := Within(base, scope, h).At(s.pc + 3, st1);
    ReadyWithin(s, st, S, D, scope, s.pc + 3, catchPc, st1);
    BlockRuns(x, s1, st1, c.body, k, S + [scope], D, fuel);
    var o := ExecBlock(c.body, st1, fuel, D.InLoop?, false);
    AfterGuarded(x, s, s1, st, c, k, S, D, o, fuel);
    LandsAfter(x, s, s1, base, end, S, D, ExecCatch(c, o, fuel, D.InLoop?, false, |st.locals|), 1, fuel);
  }

  /** From the outcome of the guarded body to that of the statement. */
  lemma AfterGuarded(x: Site, s: VM, s1: VM, st: Store, c: Stmt, k: nat, S: seq<Scope>, D: Loop, o: Outcome, fuel: nat)
    requires c.TryCatch? && Sound(o, |st.locals|, D.InLoop?)
    requires s.Running? && Ready(s, st, S, D) && Formed(c, |st.locals|) && Stands(x, s.pc, GenTryCatch(c, k, S, D), k)
    requires var g := GenBlock(c.body, k, S + [Scope(c.fin, true)], D);
      Lands(x, s1, Within(Base(s.stack, s.handlers), Scope(c.fin, true), Handler(|s.stack|, s.pc + 7 + Len(g.code))),
            s.pc + 3 + Len(g.code), S + [Scope(c.fin, true)], D, o, fuel)
    ensures Lands(x, s1, Base(s.stack, s.handlers), s.pc + Len(GenTryCatch(c, k, S, D).code), S, D,
                  ExecCatch(c, o, fuel, D.InLoop?, false, |st.locals|), fuel)
    decreases fuel, W(c), 1
  {
    hide Goes, Stands, Lands, Bytes, GenBlock, ExecBlock, ExecCatch, Ready, GenTryCatch, ScopesFormed, Finally;
    TryCatchStands(x, s.pc, c, k, S, D);
    ReadyAgain(s, st, S, D, s.pc, st);
    var base, scope := Base(s.stack, s.handlers), Scope(c.fin, true);
    var g := GenBlock(c.body, k, S + [scope], D);
    var h := Handler(|s.stack|, s.pc + 7 + Len(g.code));
    var at, end := s.pc + 3 + Len(g.code), s.pc + Len(GenTryCatch(c, k, S, D).code);
    if o.Normal? {
      MergeAfterBody(x, s, s1, st, c, k, S, D, o, fuel);
    } else if o.Throw? {
      CatchRuns(x, s, s1, st, c, k, S, D, o, fuel);
    } else {
      PastCatch(c, o, fuel, D.InLoop?, |st.locals|);
      ReadyScopes(s, st, S, D);
      ReadyWithin(s, st, S, D, scope, s.pc + 3, s.pc + 7 + Len(g.code), st);
      if o.Ends() {
        AfterScope(x, s1, base, scope, h, at, end, S, D, o, fuel, |st.locals|);
      } else {
        StuckStays(c.fin, o, fuel, D.InLoop?, |st.locals|);
        LandsStuck(x, s1, Within(base, scope, h), base, at, end, S + [scope], S, D, o, fuel);
      }
    }
  }

  lemma StuckStays(fin: seq<Stmt>, o: Outcome, fuel: nat, loop: bool, n: nat)
    requires BlockFormed(fin, n) && Sound(o, n, loop) && !o.Ends()
    ensures Finally(fin, o, fuel, loop, false, n) == o
  {
  }

  /** The `finally` block where the paths meet. */
  lemma MergeRuns(x: Site, s: VM, a: VM, st: Store, c: Stmt, k: nat, S: seq<Scope>, D: Loop, o: Outcome, fuel: nat)
    requires c.TryCatch? && BlockFormed(c.fin, |st.locals|) && o.Normal? && Sound(o, |st.locals|, D.InLoop?)
    requires s.Running? && Ready(s, st, S, D) && Formed(c, |st.locals|) && Stands(x, s.pc, GenTryCatch(c, k, S, D), k)
    requires var g := GenBlock(c.body, k, S + [Scope(c.fin, true)], D);
      var h := GenBlock(c.catchBody, g.Next(k), S + [Scope(c.fin, false)], D);
      Goes(x.ch, a, Base(s.stack, s.handlers).At(s.pc + 10 + Len(g.code) + Len(h.code), o.store), 0)
    ensures Lands(x, a, Base(s.stack, s.handlers), s.pc + Len(GenTryCatch(c, k, S, D).code), S, D,
                  Finally(c.fin, o, fuel, D.InLoop?, false, |st.locals|), fuel)
    decreases fuel, W(c), 0, 0
  {
    hide Goes, Stands, Lands, Bytes, GenBlock, ExecBlock, Ready, GenTryCatch;
    TryCatchStands(x, s.pc, c, k, S, D);
    var base := Base(s.stack, s.handlers);
    var g := GenBlock(c.body, k, S + [Scope(c.fin, true)], D);
    var h := GenBlock(c.catchBody, g.Next(k), S + [Scope(c.fin, false)], D);
    var at := s.pc + 10 + Len(g.code) + Len(h.code);
    var st1 := Note(Ran(c.fin), o.store);
    ReadyAgain(s, st, S, D, at, st1);
    BlockRuns(x, base.At(at, st1), st1, c.fin, h.Next(g.Next(k)), S, D, fuel);
    LandsAfter(x, a, base.At(at, st1), base, s.pc + Len(GenTryCatch(c, k, S, D).code), S, D,
               ExecBlock(c.fin, st1, fuel, D.InLoop?, false), 0, fuel);
  }

  lemma MergeAfterBody(x: Site, s: VM, s1: VM, st: Store, c: Stmt, k: nat, S: seq<Scope>, D: Loop, o: Outcome,
                       fuel: nat)
    requires c.TryCatch? && o.Normal? && Sound(o, |st.locals|, D.InLoop?)
    requires s.Running? && Ready(s, st, S, D) && Formed(c, |st.locals|) && Stands(x, s.pc, GenTryCatch(c, k, S, D), k)
    requires var g := GenBlock(c.body, k, S + [Scope(c.fin, true)], D);
      Lands(x, s1, Within(Base(s.stack, s.handlers), Scope(c.fin, true), Handler(|s.stack|, s.pc + 7 + Len(g.code))),
            s.pc + 3 + Len(g.code), S + [Scope(c.fin, true)], D, o, fuel)
    ensures Lands(x, s1, Base(s.stack, s.handlers), s.pc + Len(GenTryCatch(c, k, S, D).code), S, D,
                  ExecCatch(c, o, fuel, D.InLoop?, false, |st.locals|), fuel)
    decreases fuel, W(c), 0, 1
  {
    hide Goes, Stands, Lands, Bytes, GenBlock, ExecBlock, Ready, GenTryCatch;
    TryCatchStands(x, s.pc, c, k, S, D);
    var base := Base(s.stack, s.handlers);
    var g := GenBlock(c.body, k, S + [Scope(c.fin, true)], D);
    var k1 := g.Next(k);
    var h := GenBlock(c.catchBody, k1, S + [Scope(c.fin, false)], D);
    var at := s.pc + 4 + Len(g.code);
    PopHandler(x, s1, base, Scope(c.fin, true), Handler(|s.stack|, s.pc + 7 + Len(g.code)), at - 1, k1,
               S + [Scope(c.fin, true)], D, o, fuel);
    JumpStep(x, base.At(at, o.store), 3 + Len(h.code), k1);
    Trans(x.ch, s1, base.At(at, o.store), base.At(at + 6 + Len(h.code), o.store), 0, 1);
    MergeRuns(x, s, s1, st, c, k, S, D, o, fuel);
  }

  /** The body threw: bind the error, run the catch block; its own errors pass the `finally` by. */
  lemma CatchRuns(x: Site, s: VM, s1: VM, st: Store, c: Stmt, k: nat, S: seq<Scope>, D: Loop, o: Outcome, fuel: nat)
    requires c.TryCatch? && o.Throw? && Sound(o, |st.locals|, D.InLoop?)
    requires s.Running? && Ready(s, st, S, D) && Formed(c, |st.locals|) && Stands(x, s.pc, GenTryCatch(c, k, S, D), k)
    requires var g := GenBlock(c.body, k, S + [Scope(c.fin, true)], D);
      Lands(x, s1, Within(Base(s.stack, s.handlers), Scope(c.fin, true), Handler(|s.stack|, s.pc + 7 + Len(g.code))),
            s.pc + 3 + Len(g.code), S + [Scope(c.fin, true)], D, o, fuel)
    ensures Lands(x, s1, Base(s.stack, s.handlers), s.pc + Len(GenTryCatch(c, k, S, D).code), S, D,
                  ExecCatch(c, o, fuel, D.InLoop?, false, |st.locals|), fuel)
    decreases fuel, W(c), 0, 1
  {
    hide Goes, Stands, Lands, Bytes, GenBlock, ExecBlock, Ready, GenTryCatch, ScopesFormed;
    TryCatchStands(x, s.pc, c, k, S, D);
    ReadyAgain(s, st, S, D, s.pc, st);
    var base := Base(s.stack, s.handlers);
    var dead := Scope(c.fin, false);
    var g := GenBlock(c.body, k, S + [Scope(c.fin, true)], D);
    var k1 := g.Next(k);
    var h := GenBlock(c.catchBody, k1, S + [dead], D);
    var catchPc := s.pc + 7 + Len(g.code);
    var end := s.pc + Len(GenTryCatch(c, k, S, D).code);
    var handler := Handler(|s.stack|, catchPc);
    var t := Base(s.stack + [o.value], s.handlers).At(catchPc, o.store);
    CaughtAt(base, Scope(c.fin, true), catchPc, o.value, o.store);
    Thrown(x, s1, Within(base, Scope(c.fin, true), handler), s.pc + 3 + Len(g.code), S + [Scope(c.fin, true)],
           D, o, fuel);
    var st1 := o.store.(locals := o.store.locals[c.slot := o.value]);
    var b := base.At(catchPc + 3, st1);
    SetStep(x, base.At(catchPc, o.store), t, o.value, c.slot, k1);
    Trans(x.ch, s1, t, b, 0, 1);
    ReadyWithin(s, st, S, D, dead, catchPc + 3, catchPc, st1);
    assert Within(base, dead, handler) == base;
    BlockRuns(x, b, st1, c.catchBody, k1, S + [dead], D, fuel);
    var p := ExecBlock(c.catchBody, st1, fuel, D.InLoop?, false);
    var e := catchPc + 3 + Len(h.code);
    LandsAfter(x, s1, b, base, e, S + [dead], D, p, 0, fuel);
    if p.Normal? {
      LandsNormally(x, s1, base, e, S + [dead], D, p, fuel);
      MergeRuns(x, s, s1, st, c, k, S, D, p, fuel);
    } else if p.Throw? {
      Thrown(x, s1, base, e, S + [dead], D, p, fuel);
      ThrowLands(x, s1, base, end, S, D, p.value, Note(Escaped(c.fin), p.store), fuel);
    } else if p.Ends() {
      ReadyScopes(s, st, S, D);
      AfterScope(x, s1, base, dead, handler, e, end, S, D, p, fuel, |st.locals|);
    } else {
      LandsStuck(x, s1, base, base, e, end, S + [dead], S, D, p, fuel);
    }
  }
}
