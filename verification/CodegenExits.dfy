/** Ways out of a statement, and `finally` blocks on the way. */
module CodegenExits {
  import opened Bytecode
  import opened Tree
  import opened Codegen
  import opened CodegenLayout

  // ---------------------------------------------------------------- closed blocks

  /** A block that stays inside its own loops does not care about loops around it. */
  lemma {:induction false} ClosedBlock(b: seq<Stmt>, st: Store, fuel: nat, loop: bool)
    requires BlockFormed(b, |st.locals|) && Closed(b)
    ensures ExecBlock(b, st, fuel, loop, false) == ExecBlock(b, st, fuel, false, false)
    decreases fuel, WB(b), 4
  {
    hide Exec;
    if b != [] {
      ClosedStmt(b[0], st, fuel, loop);
      var o := Exec(b[0], st, fuel, loop, false);
      if o.Normal? { ClosedBlock(b[1..], o.store, fuel, loop); }
    }
  }

  lemma {:induction false} ClosedFinally(fin: seq<Stmt>, o: Outcome, fuel: nat, loop: bool, n: nat)
    requires BlockFormed(fin, n) && Closed(fin) && Sound(o, n, false)
    ensures Finally(fin, o, fuel, loop, false, n) == Finally(fin, o, fuel, false, false, n)
    decreases fuel, WB(fin), 5
  {
    hide ExecBlock;
    if o.Ends() { ClosedBlock(fin, Note(Ran(fin), o.store), fuel, loop); }
  }

  lemma {:induction false} ClosedStmt(s: Stmt, st: Store, fuel: nat, loop: bool)
    requires Formed(s, |st.locals|) && StaysInside(s)
    ensures Exec(s, st, fuel, loop, false) == Exec(s, st, fuel, false, false)
    decreases fuel, W(s), 3
  {
    hide ExecBlock, ExecWhile, ExecCatch, ExecCases, Finally, ExecStraight;
    var n := |st.locals|;
    match s
    case If(_, b) => ClosedBlock(b, st, fuel, loop);
    case IfElse(_, b, a) => ClosedBlock(b, st, fuel, loop); ClosedStmt(a, st, fuel, loop);
    case While(_, _, _) => ClosedWhile(s, st, fuel, loop);
    case Match(e, cs) => if Eval(e, st.locals).Val? { ClosedCases(Eval(e, st.locals).value, cs, st, fuel, loop); }
    case TryFinally(b, f) =>
      var st1 := Note(Opened(f), st);
      ClosedBlock(b, st1, fuel, loop);
      ClosedFinally(f, ExecBlock(b, st1, fuel, false, false), fuel, loop, n);
    case TryCatch(b, _, _, f) =>
      var st1 := Note(Opened(f), st);
      ClosedBlock(b, st1, fuel, loop);
      ClosedCatch(s, ExecBlock(b, st1, fuel, false, false), fuel, loop, n);
    case BlockS(b) => ClosedBlock(b, st, fuel, loop);
    case _ =>
  }

  lemma {:induction false} ClosedWhile(s: Stmt, st: Store, fuel: nat, loop: bool)
    requires s.While? && Formed(s, |st.locals|)
    ensures ExecWhile(s, st, fuel, loop, false) == ExecWhile(s, st, fuel, false, false)
    decreases fuel, W(s), 2
  {
    hide ExecBlock;
    if fuel > 0 {
      var o := ExecBlock(s.body, st, fuel - 1, true, false);
      if o.Normal? || o.Continue? { ClosedWhile(s, o.store, fuel - 1, loop); }
    }
  }

  lemma {:induction false} ClosedCatch(s: Stmt, o: Outcome, fuel: nat, loop: bool, n: nat)
    requires s.TryCatch? && Formed(s, n) && StaysInside(s) && Sound(o, n, false)
    ensures ExecCatch(s, o, fuel, loop, false, n) == ExecCatch(s, o, fuel, false, false, n)
    decreases fuel, W(s), 2
  {
    hide ExecBlock, Finally;
    if o.Throw? {
      var st1 := o.store.(locals := o.store.locals[s.slot := o.value]);
      ClosedBlock(s.catchBody, st1, fuel, loop);
      ClosedFinally(s.fin, ExecBlock(s.catchBody, st1, fuel, false, false), fuel, loop, n);
    } else {
      ClosedFinally(s.fin, o, fuel, loop, n);
    }
  }

  lemma {:induction false} ClosedCases(v: Value, cs: seq<Case>, st: Store, fuel: nat, loop: bool)
    requires CasesFormed(cs, |st.locals|) && CasesClosed(cs)
    ensures ExecCases(v, cs, st, fuel, loop, false) == ExecCases(v, cs, st, fuel, false, false)
    decreases fuel, WC(cs), 4
  {
    hide ExecBlock;
    if cs != [] {
      ClosedBlock(cs[0].body, st, fuel, loop);
      ClosedCases(v, cs[1..], st, fuel, loop);
    }
  }

  // ---------------------------------------------------------------- and their code

  predicate ScopeFormed(c: Scope, n: nat) { BlockFormed(c.fin, n) && Closed(c.fin) }

  predicate ScopesFormed(S: seq<Scope>, n: nat) { forall i :: 0 <= i < |S| ==> ScopeFormed(S[i], n) }

  lemma {:induction false} ClosedCode(b: seq<Stmt>, k: nat, S: seq<Scope>, D: Loop, n: nat)
    requires Closed(b) && BlockFormed(b, n) && ScopesFormed(S, n)
    ensures GenBlock(b, k, S, D) == GenBlock(b, k, S, NoLoop)
    decreases WB(b) + WS(S), 4, |b|
  {
    hide GenStmt;
    if b != [] {
      ClosedStmtCode(b[0], k, S, D, n);
      ClosedCode(b[1..], GenStmt(b[0], k, S, D).Next(k), S, D, n);
    }
  }

  lemma {:induction false} ClosedUnwind(S: seq<Scope>, downTo: nat, k: nat, D: Loop, n: nat)
    requires ScopesFormed(S, n)
    ensures Unwind(S, downTo, k, D) == Unwind(S, downTo, k, NoLoop)
    decreases WS(S), 0, 0
  {
    hide GenBlock;
    if |S| > downTo {
      var c, rest := S[|S| - 1], S[..|S| - 1];
      ClosedCode(c.fin, k, rest, D, n);
      ClosedUnwind(rest, downTo, GenBlock(c.fin, k, rest, D).Next(k), D, n);
    }
  }

  lemma {:induction false} ClosedStmtCode(s: Stmt, k: nat, S: seq<Scope>, D: Loop, n: nat)
    requires StaysInside(s) && Formed(s, n) && ScopesFormed(S, n)
    ensures GenStmt(s, k, S, D) == GenStmt(s, k, S, NoLoop)
    decreases W(s) + WS(S), 3, 0
  {
    hide GenBlock, GenCond, GenExpr, GenStraight, GenCases, GenWhile, GenTryFinally, GenTryCatch, Unwind, Bytes;
    match s
    case ReturnS(e) => ClosedUnwind(S, 0, GenExpr(e, k).Next(k), D, n);
    case If(c, b) => ClosedCode(b, k + |CondConsts(c, k)|, S, D, n);
    case IfElse(c, b, a) =>
      var kb := k + |CondConsts(c, k)|;
      ClosedCode(b, kb, S, D, n);
      ClosedStmtCode(a, GenBlock(b, kb, S, D).Next(kb), S, D, n);
    case While(_, _, _) => assert GenWhile(s, k, S, D) == GenWhile(s, k, S, NoLoop) by { ClosedWhileCode(s, k, S, D); }
    case Match(e, cs) => ClosedCasesCode(cs, GenExpr(e, k).Next(k), S, D, n);
    case TryFinally(_, _) => ClosedFinallyCode(s, k, S, D, n);
    case TryCatch(_, _, _, _) => ClosedCatchCode(s, k, S, D, n);
    case BlockS(b) => ClosedCode(b, k, S, D, n);
    case _ =>
  }

  lemma ClosedWhileCode(s: Stmt, k: nat, S: seq<Scope>, D: Loop)
    requires s.While?
    ensures GenWhile(s, k, S, D) == GenWhile(s, k, S, NoLoop)
  {
  }

  lemma {:induction false} ClosedFinallyCode(s: Stmt, k: nat, S: seq<Scope>, D: Loop, n: nat)
    requires StaysInside(s) && Formed(s, n) && ScopesFormed(S, n) && s.TryFinally?
    ensures GenTryFinally(s, k, S, D) == GenTryFinally(s, k, S, NoLoop)
    decreases W(s) + WS(S), 2, 0
  {
    hide GenBlock, Bytes, Encode;
    var live := Scope(s.fin, true);
    WSPush(S, live);
    var k1 := GenBlock(s.body, k, S + [live], D).Next(k);
    ClosedCode(s.body, k, S + [live], D, n);
    ClosedCode(s.fin, k1, S, D, n);
    ClosedCode(s.fin, GenBlock(s.fin, k1, S, D).Next(k1), S, D, n);
  }

  lemma {:induction false} ClosedCatchCode(s: Stmt, k: nat, S: seq<Scope>, D: Loop, n: nat)
    requires StaysInside(s) && Formed(s, n) && ScopesFormed(S, n) && s.TryCatch?
    ensures GenTryCatch(s, k, S, D) == GenTryCatch(s, k, S, NoLoop)
    decreases W(s) + WS(S), 2, 0
  {
    hide GenBlock, Bytes, Encode;
    var live, dead := Scope(s.fin, true), Scope(s.fin, false);
    WSPush(S, live); WSPush(S, dead);
    var k1 := GenBlock(s.body, k, S + [live], D).Next(k);
    ClosedCode(s.body, k, S + [live], D, n);
    ClosedCode(s.catchBody, k1, S + [dead], D, n);
    ClosedCode(s.fin, GenBlock(s.catchBody, k1, S + [dead], D).Next(k1), S, D, n);
  }

  lemma {:induction false} ClosedCasesCode(cs: seq<Case>, k: nat, S: seq<Scope>, D: Loop, n: nat)
    requires CasesClosed(cs) && CasesFormed(cs, n) && ScopesFormed(S, n)
    ensures GenCases(cs, k, S, D) == GenCases(cs, k, S, NoLoop)
    decreases WC(cs) + WS(S), 4, |cs|
  {
    hide GenBlock, GenPatterns, Bytes;
    if cs != [] {
      var c := cs[0];
      var kb := if c.Branch? then k + |PatternConsts(c.patterns, k)| else k;
      ClosedCode(c.body, kb, S, D, n);
      ClosedCasesCode(cs[1..], GenBlock(c.body, kb, S, D).Next(kb), S, D, n);
    }
  }
}
