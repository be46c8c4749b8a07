/** When `finally` blocks run. */
module TreeFinally {
  import opened Bytecode
  import opened Tree

  // ---------------------------------------------------------------- the log

  /** The `finally` blocks still owed, innermost last; or one was run that was not the next one owed. */
  datatype Level = Mismatch | Owed(fins: seq<seq<Stmt>>)

  function Marked(a: Level, m: Mark): Level {
    match a
    case Mismatch => Mismatch
    case Owed(fins) =>
      match m
      case Opened(f) => Owed(fins + [f])
      case Ran(f) => if fins != [] && fins[|fins| - 1] == f then Owed(fins[..|fins| - 1]) else Mismatch
      case Escaped(_) => a
  }

  function LevelOf(marks: seq<Mark>): Level {
    if marks == [] then Owed([]) else Marked(LevelOf(marks[..|marks| - 1]), marks[|marks| - 1])
  }

  /** Every `try` that began ran its `finally` exactly once, the innermost first. */
  predicate Nested(marks: seq<Mark>) { LevelOf(marks) == Owed([]) }

  /** How many `catch` blocks threw past their `finally`. */
  function Escapes(marks: seq<Mark>): nat {
    if marks == [] then 0 else Escapes(marks[..|marks| - 1]) + (if marks[|marks| - 1].Escaped? then 1 else 0)
  }

  /** How many more began than were run. */
  function Balance(marks: seq<Mark>): int {
    if marks == [] then 0 else Balance(marks[..|marks| - 1]) + Worth(marks[|marks| - 1])
  }

  function Worth(m: Mark): int { if m.Opened? then 1 else if m.Ran? then -1 else 0 }

  lemma {:induction false} OwedIsBalance(marks: seq<Mark>)
    ensures LevelOf(marks).Owed? ==> |LevelOf(marks).fins| == Balance(marks)
  {
    if marks != [] { OwedIsBalance(marks[..|marks| - 1]); }
  }

  lemma Noted(m: Mark, st: Store)
    ensures var t := Note(m, st);
      if m.fin == [] then t == st
      else
        && LevelOf(t.marks) == Marked(LevelOf(st.marks), m)
        && Escapes(t.marks) == Escapes(st.marks) + (if m.Escaped? then 1 else 0)
        && Balance(t.marks) == Balance(st.marks) + Worth(m)
  {
    assert (st.marks + [m])[..|st.marks|] == st.marks;
  }

  // ---------------------------------------------------------------- a run and its reference

  /** In `o` no more `finally` blocks are owed than catch blocks threw past them. */
  predicate Pays(o: Outcome, st: Store) {
    o.Ends() ==>
      && Escapes(o.store.marks) >= Escapes(st.marks)
      && Balance(o.store.marks) - Balance(st.marks) == Escapes(o.store.marks) - Escapes(st.marks)
  }

  /** In `p` what is owed afterwards is what was owed before. */
  predicate PaysAll(p: Outcome, st: Store) {
    p.Ends() ==>
      && Escapes(p.store.marks) >= Escapes(st.marks)
      && (LevelOf(st.marks).Owed? ==> LevelOf(p.store.marks) == LevelOf(st.marks))
  }

  predicate Calm(o: Outcome, st: Store) { o.Ends() && Escapes(o.store.marks) == Escapes(st.marks) }

  /** A run `o`, and the reference run `p` of the same code in which a `finally` runs on every way out:
      the two are the same unless a catch block throws past a `finally`. */
  predicate Follows(o: Outcome, p: Outcome, st: Store) {
    Pays(o, st) && PaysAll(p, st) && (Calm(o, st) || Calm(p, st) ==> o == p)
  }

  /** After a `try` that began in `st`. */
  lemma FollowsFinally(fin: seq<Stmt>, o: Outcome, p: Outcome, st: Store, fuel: nat, loop: bool, n: nat)
    requires BlockFormed(fin, n) && Sound(o, n, loop) && Sound(p, n, loop) && Follows(o, p, Note(Opened(fin), st))
    ensures Follows(Finally(fin, o, fuel, loop, false, n), Finally(fin, p, fuel, loop, true, n), st)
    decreases fuel, WB(fin), 5
  {
    hide LevelOf, Escapes, Balance, Marked, Worth, ExecBlock, Note;
    if o.Ends() {
      Settled(fin, o, st);
      FollowsBlock(fin, Note(Ran(fin), o.store), fuel, loop);
    }
    if p.Ends() {
      Settled(fin, p, st);
      FollowsBlock(fin, Note(Ran(fin), p.store), fuel, loop);
    }
  }

  /** The `finally` that a `try` owes is settled when it is started. */
  lemma Settled(fin: seq<Stmt>, o: Outcome, st: Store)
    requires o.Ends()
    ensures var t, st1 := Note(Ran(fin), o.store), Note(Opened(fin), st);
      && Escapes(t.marks) == Escapes(o.store.marks) && Escapes(st1.marks) == Escapes(st.marks)
      && Balance(t.marks) - Balance(st.marks) == Balance(o.store.marks) - Balance(st1.marks)
      && (LevelOf(st.marks).Owed? ==>
           && LevelOf(st1.marks).Owed?
           && (LevelOf(o.store.marks) == LevelOf(st1.marks) ==> LevelOf(t.marks) == LevelOf(st.marks)))
  {
    hide LevelOf, Escapes, Balance, Note;
    Noted(Opened(fin), st);
    Noted(Ran(fin), o.store);
  }

  lemma FollowsRun(s: Stmt, st: Store, fuel: nat, loop: bool)
    requires Formed(s, |st.locals|)
    ensures Follows(Exec(s, st, fuel, loop, false), Exec(s, st, fuel, loop, true), st)
    decreases fuel, W(s), 3
  {
    hide LevelOf, Escapes, Balance, Note, ExecBlock, Finally, ExecCatch, ExecWhile, ExecCases, Follows;
    var n := |st.locals|;
    match s
    case If(c, b) => FollowsBlock(b, st, fuel, loop); NothingHappens(Normal(st), st); Fails(Eval(c, st.locals), st);
    case IfElse(c, b, a) => FollowsBlock(b, st, fuel, loop); FollowsRun(a, st, fuel, loop);
        Fails(Eval(c, st.locals), st);
    case While(_, _, _) => FollowsWhile(s, st, fuel, loop);
    case Match(e, cs) =>
      if Eval(e, st.locals).Val? { FollowsCases(Eval(e, st.locals).value, cs, st, fuel, loop); }
      Fails(Eval(e, st.locals), st);
    case BreakS => NothingHappens(Break(st), st); NothingHappens(Throw(ErrorText, st), st);
    case ContinueS => NothingHappens(Continue(st), st); NothingHappens(Throw(ErrorText, st), st);
    case TryFinally(b, f) =>
      var st1 := Note(Opened(f), st);
      FollowsBlock(b, st1, fuel, loop);
      FollowsFinally(f, ExecBlock(b, st1, fuel, loop, false), ExecBlock(b, st1, fuel, loop, true), st, fuel, loop, n);
    case TryCatch(b, _, _, f) =>
      var st1 := Note(Opened(f), st);
      FollowsBlock(b, st1, fuel, loop);
      FollowsCatch(s, ExecBlock(b, st1, fuel, loop, false), ExecBlock(b, st1, fuel, loop, true), st, fuel, loop, n);
    case BlockS(b) => FollowsBlock(b, st, fuel, loop);
    case _ => FollowsStraight(s, st);
  }

  lemma NothingHappens(o: Outcome, st: Store)
    requires o.Ends() ==> o.store.marks == st.marks
    ensures Follows(o, o, st)
  {
  }

  lemma Fails(r: EvalResult, st: Store)
    ensures !r.Val? ==> Follows(Failed(r, st), Failed(r, st), st)
  {
  }

  lemma FollowsStraight(s: Stmt, st: Store)
    requires Straight(s) && Formed(s, |st.locals|)
    ensures var o := ExecStraight(s, st); (o.Ends() ==> o.store.marks == st.marks) && Follows(o, o, st)
  {
    hide Eval, EvalAll, Apply;
    NothingHappens(ExecStraight(s, st), st);
  }

  lemma FollowsCatch(s: Stmt, o: Outcome, p: Outcome, st: Store, fuel: nat, loop: bool, n: nat)
    requires s.TryCatch? && Formed(s, n) && Sound(o, n, loop) && Sound(p, n, loop)
        && Follows(o, p, Note(Opened(s.fin), st))
    ensures Follows(ExecCatch(s, o, fuel, loop, false, n), ExecCatch(s, p, fuel, loop, true, n), st)
    decreases fuel, W(s), 2
  {
    hide LevelOf, Escapes, Balance, Note, ExecBlock, Finally;
    if o.Throw? && Caught(s, o, fuel, loop, false, n).Throw? {
      EscapeOwes(s, o, p, st, fuel, loop, n);
    } else {
      FollowsCaught(s, o, p, Note(Opened(s.fin), st), fuel, loop, n);
      var p1 := if p.Throw? then Thrown(s.fin, Caught(s, p, fuel, loop, true, n)) else p;
      var o1 := if o.Throw? then Caught(s, o, fuel, loop, false, n) else o;
      FollowsFinally(s.fin, o1, p1, st, fuel, loop, n);
    }
  }

  /** The catch block, its slot holding the error. */
  function Caught(s: Stmt, o: Outcome, fuel: nat, loop: bool, std: bool, n: nat): (c: Outcome)
    requires s.TryCatch? && Formed(s, n) && Sound(o, n, loop) && o.Throw?
    ensures Sound(c, n, loop)
  {
    ExecBlock(s.catchBody, o.store.(locals := o.store.locals[s.slot := o.value]), fuel, loop, std)
  }

  /** A catch block's own error is noted. */
  function Thrown(fin: seq<Stmt>, o: Outcome): Outcome {
    if o.Throw? then Throw(o.value, Note(Escaped(fin), o.store)) else o
  }

  lemma ThrownPays(fin: seq<Stmt>, p: Outcome, st: Store)
    requires PaysAll(p, st)
    ensures PaysAll(Thrown(fin, p), st) && (Calm(Thrown(fin, p), st) ==> Calm(p, st) && Thrown(fin, p) == p)
  {
    hide LevelOf, Escapes, Note;
    if p.Throw? { Noted(Escaped(fin), p.store); }
  }

  /** The reference run up to its `finally`. */
  lemma ReferenceCatch(s: Stmt, p: Outcome, st: Store, fuel: nat, loop: bool, n: nat)
    requires s.TryCatch? && Formed(s, n) && Sound(p, n, loop) && PaysAll(p, st)
    ensures var p1 := if p.Throw? then Thrown(s.fin, Caught(s, p, fuel, loop, true, n)) else p;
      && PaysAll(p1, st) && Sound(p1, n, loop)
      && (Calm(p1, st) ==> Calm(p, st) && (p.Throw? ==> p1 == Caught(s, p, fuel, loop, true, n)))
    decreases fuel, W(s), 0
  {
    hide LevelOf, Escapes, Balance, Note, ExecBlock;
    if p.Throw? {
      var st2 := p.store.(locals := p.store.locals[s.slot := p.value]);
      FollowsBlock(s.catchBody, st2, fuel, loop);
      ThrownPays(s.fin, Caught(s, p, fuel, loop, true, n), st2);
    }
  }

  lemma FollowsCaught(s: Stmt, o: Outcome, p: Outcome, st: Store, fuel: nat, loop: bool, n: nat)
    requires s.TryCatch? && Formed(s, n) && Sound(o, n, loop) && Sound(p, n, loop) && Follows(o, p, st)
    requires o.Throw? ==> !Caught(s, o, fuel, loop, false, n).Throw?
    ensures var p1 := if p.Throw? then Thrown(s.fin, Caught(s, p, fuel, loop, true, n)) else p;
      var o1 := if o.Throw? then Caught(s, o, fuel, loop, false, n) else o;
      Follows(o1, p1, st)
    decreases fuel, W(s), 1
  {
    hide LevelOf, Escapes, Balance, Note, ExecBlock;
    ReferenceCatch(s, p, st, fuel, loop, n);
    if o.Throw? {
      FollowsBlock(s.catchBody, o.store.(locals := o.store.locals[s.slot := o.value]), fuel, loop);
    }
  }

  /** The catch block threw: that `finally` stays owed. */
  lemma EscapeOwes(s: Stmt, o: Outcome, p: Outcome, st: Store, fuel: nat, loop: bool, n: nat)
    requires s.TryCatch? && Formed(s, n) && Sound(o, n, loop) && Sound(p, n, loop)
        && Follows(o, p, Note(Opened(s.fin), st))
    requires o.Throw? && Caught(s, o, fuel, loop, false, n).Throw?
    ensures Follows(ExecCatch(s, o, fuel, loop, false, n), ExecCatch(s, p, fuel, loop, true, n), st)
    decreases fuel, W(s), 1
  {
    hide LevelOf, Escapes, Balance, Note, ExecBlock, Finally;
    var st1 := Note(Opened(s.fin), st);
    var p1 := if p.Throw? then Thrown(s.fin, Caught(s, p, fuel, loop, true, n)) else p;
    ReferenceCatch(s, p, st1, fuel, loop, n);
    ReferenceFinally(s.fin, p1, st, fuel, loop, n);
    var st2 := o.store.(locals := o.store.locals[s.slot := o.value]);
    var c := Caught(s, o, fuel, loop, false, n);
    FollowsBlock(s.catchBody, st2, fuel, loop);
    Noted(Opened(s.fin), st);
    Noted(Escaped(s.fin), c.store);
    NoFinally(p1, fuel, loop, n);
    var q, r := ExecCatch(s, o, fuel, loop, false, n), ExecCatch(s, p, fuel, loop, true, n);
    assert q == Thrown(s.fin, c) && r == Finally(s.fin, p1, fuel, loop, true, n);
    assert Pays(q, st);
    if Calm(r, st) || Calm(q, st) {
      assert o == p;
      assert s.fin == [];
    }
  }

  lemma NoFinally(p: Outcome, fuel: nat, loop: bool, n: nat)
    requires Sound(p, n, loop)
    ensures Finally([], p, fuel, loop, true, n) == p
  {
  }

  lemma ReferenceFinally(fin: seq<Stmt>, p: Outcome, st: Store, fuel: nat, loop: bool, n: nat)
    requires BlockFormed(fin, n) && Sound(p, n, loop) && PaysAll(p, Note(Opened(fin), st))
    ensures PaysAll(Finally(fin, p, fuel, loop, true, n), st)
    ensures Calm(Finally(fin, p, fuel, loop, true, n), st) ==> Calm(p, Note(Opened(fin), st))
    decreases fuel, WB(fin), 5
  {
    hide LevelOf, Escapes, Balance, Marked, Worth, ExecBlock, Note;
    if p.Ends() {
      Settled(fin, p, st);
      FollowsBlock(fin, Note(Ran(fin), p.store), fuel, loop);
    }
  }

  lemma FollowsWhile(s: Stmt, st: Store, fuel: nat, loop: bool)
    requires s.While? && Formed(s, |st.locals|)
    ensures Follows(ExecWhile(s, st, fuel, loop, false), ExecWhile(s, st, fuel, loop, true), st)
    decreases fuel, W(s), 2
  {
    hide ExecBlock, Eval, Follows, AfterRound;
    Fails(Test(s.c, s.until, st.locals), st);
    NothingHappens(Normal(st), st);
    NothingHappens(Diverges, st);
    if fuel > 0 {
      FollowsBlock(s.body, st, fuel - 1, true);
      var o, p := ExecBlock(s.body, st, fuel - 1, true, false), ExecBlock(s.body, st, fuel - 1, true, true);
      FollowsRound(s, o, fuel - 1, loop, |st.locals|);
      FollowsRound(s, p, fuel - 1, loop, |st.locals|);
      Onward(o, p, st, AfterRound(s, o, fuel - 1, loop, false, |st.locals|),
          AfterRound(s, o, fuel - 1, loop, true, |st.locals|),
             AfterRound(s, p, fuel - 1, loop, false, |st.locals|), AfterRound(s, p, fuel - 1, loop, true, |st.locals|));
      WhileRound(s, st, fuel, loop, false);
      WhileRound(s, st, fuel, loop, true);
    }
  }

  /** What the loop makes of a round's outcome. */
  function AfterRound(s: Stmt, o: Outcome, fuel: nat, loop: bool, std: bool, n: nat): Outcome
    requires s.While? && Formed(s, n) && Sound(o, n, true)
  {
    match o
    case Normal(st) => ExecWhile(s, st, fuel, loop, std)
    case Continue(st) => ExecWhile(s, st, fuel, loop, std)
    case Break(st) => Normal(st)
    case _ => o
  }

  lemma WhileRound(s: Stmt, st: Store, fuel: nat, loop: bool, std: bool)
    requires s.While? && Formed(s, |st.locals|) && fuel > 0
    ensures var v := Test(s.c, s.until, st.locals);
      v.Val? && Truthy(v.value) ==>
        ExecWhile(s, st, fuel, loop, std) ==
          AfterRound(s, ExecBlock(s.body, st, fuel - 1, true, std), fuel - 1, loop, std, |st.locals|)
  {
    hide ExecBlock, Eval;
  }

  lemma FollowsRound(s: Stmt, o: Outcome, fuel: nat, loop: bool, n: nat)
    requires s.While? && Formed(s, n) && Sound(o, n, true)
    ensures var a, b := AfterRound(s, o, fuel, loop, false, n), AfterRound(s, o, fuel, loop, true, n);
      if o.Ends() then Follows(a, b, o.store) else a == b == o
    decreases fuel, W(s), 3
  {
    hide ExecWhile, Follows;
    if o.Normal? || o.Continue? {
      FollowsWhile(s, o.store, fuel, loop);
    } else if o.Break? {
      NothingHappens(Normal(o.store), o.store);
    } else if o.Ends() {
      NothingHappens(o, o.store);
    }
  }

  /** Runs that keep together, each going on in a way that keeps together. */
  lemma Onward(o: Outcome, p: Outcome, st: Store, o2: Outcome, op: Outcome, po: Outcome, p2: Outcome)
    requires Follows(o, p, st) && (o == p ==> o2 == po && op == p2)
    requires if o.Ends() then Follows(o2, op, o.store) else o2 == op == o
    requires if p.Ends() then Follows(po, p2, p.store) else po == p2 == p
    ensures Follows(o2, p2, st)
  {
    hide LevelOf, Escapes, Balance;
  }

  lemma FollowsBlock(b: seq<Stmt>, st: Store, fuel: nat, loop: bool)
    requires BlockFormed(b, |st.locals|)
    ensures Follows(ExecBlock(b, st, fuel, loop, false), ExecBlock(b, st, fuel, loop, true), st)
    decreases fuel, WB(b), 4
  {
    hide LevelOf, Escapes, Balance, Exec;
    if b != [] {
      FollowsRun(b[0], st, fuel, loop);
      var o, p := Exec(b[0], st, fuel, loop, false), Exec(b[0], st, fuel, loop, true);
      if o.Normal? { FollowsBlock(b[1..], o.store, fuel, loop); }
      if p.Normal? { FollowsBlock(b[1..], p.store, fuel, loop); }
    }
  }

  lemma FollowsCases(v: Value, cs: seq<Case>, st: Store, fuel: nat, loop: bool)
    requires CasesFormed(cs, |st.locals|)
    ensures Follows(ExecCases(v, cs, st, fuel, loop, false), ExecCases(v, cs, st, fuel, loop, true), st)
    decreases fuel, WC(cs), 4
  {
    hide LevelOf, Escapes, Balance, ExecBlock, AnyEqual;
    if cs != [] {
      FollowsBlock(cs[0].body, st, fuel, loop);
      FollowsCases(v, cs[1..], st, fuel, loop);
    }
  }

  /** Every `finally` runs exactly once, innermost first: always in the reference run; in a run if and
      only if it is the reference run, that is, if and only if in the reference run no catch block
      throws past a `finally`. */
  lemma NestedExactly(b: seq<Stmt>, locals: seq<Value>, fuel: nat)
    requires BlockFormed(b, |locals|)
    ensures var o := ExecBlock(b, Store(locals, [], []), fuel, false, false);
      var p := ExecBlock(b, Store(locals, [], []), fuel, false, true);
      && (p.Ends() ==> Nested(p.store.marks))
      && (o.Ends() ==> (Nested(o.store.marks) <==> o == p))
      && (p.Ends() ==> (o == p <==> Escapes(p.store.marks) == 0))
  {
    hide ExecBlock;
    FollowsBlock(b, Store(locals, [], []), fuel, false);
    var o := ExecBlock(b, Store(locals, [], []), fuel, false, false);
    if o.Ends() { OwedIsBalance(o.store.marks); }
  }

  // ---------------------------------------------------------------- blocks that cannot throw

  /** Expressions that raise nothing. */
  predicate Harmless(e: Expr) {
    match e
    case Prefix(op, a) => op == Not && Harmless(a)
    case Infix(op, l, r) => (op == Eq || op == Ne) && Harmless(l) && Harmless(r)
    case AndE(l, r) => Harmless(l) && Harmless(r)
    case OrE(l, r) => Harmless(l) && Harmless(r)
    case CoalesceE(l, r) => Harmless(l) && Harmless(r)
    case Conditional(c, t, f) => Harmless(c) && Harmless(t) && Harmless(f)
    case _ => true
  }

  /** Statements that end without throwing, seen in their text: nothing in them raises outside a `try`
      whose catch block does not, and `break` and `continue` stand in loops. */
  predicate Quiet(s: Stmt, loop: bool)
    decreases W(s), 0
  {
    match s
    case Pass => true
    case ExprStmt(e) => Harmless(e)
    case Assign(_, e, _) => Harmless(e)
    case AssignOp(_, op, e) => (op == Eq || op == Ne) && Harmless(e)
    case AssignCoalesce(_, e) => Harmless(e)
    case Say(vs) => forall v :: v in vs ==> Harmless(v)
    case ThrowS(_) => false
    case If(c, b) => Harmless(c) && QuietBlock(b, loop)
    case IfElse(c, b, a) => Harmless(c) && QuietBlock(b, loop) && Quiet(a, loop)
    case While(_, c, b) => Harmless(c) && QuietBlock(b, true)
    case Match(e, cs) => Harmless(e) && QuietCases(cs, loop)
    case BreakS => loop
    case ContinueS => loop
    case ReturnS(e) => Harmless(e)
    case TryFinally(b, f) => QuietBlock(b, loop) && QuietBlock(f, loop)
    case TryCatch(_, _, c, f) => QuietBlock(c, loop) && QuietBlock(f, loop)
    case BlockS(b) => QuietBlock(b, loop)
  }

  predicate QuietBlock(b: seq<Stmt>, loop: bool)
    decreases WB(b), 1
  {
    b != [] ==> Quiet(b[0], loop) && QuietBlock(b[1..], loop)
  }

  predicate QuietCases(cs: seq<Case>, loop: bool)
    decreases WC(cs), 1
  {
    cs != [] ==>
      && (cs[0].Branch? ==> forall p :: p in cs[0].patterns ==> Harmless(p))
      && QuietBlock(cs[0].body, loop) && QuietCases(cs[1..], loop)
  }

  /** Every catch block in front of a non-empty `finally` is quiet. */
  predicate Covered(s: Stmt, loop: bool)
    decreases W(s), 0
  {
    match s
    case If(_, b) => CoveredBlock(b, loop)
    case IfElse(_, b, a) => CoveredBlock(b, loop) && Covered(a, loop)
    case While(_, _, b) => CoveredBlock(b, true)
    case Match(_, cs) => CoveredCases(cs, loop)
    case TryFinally(b, f) => CoveredBlock(b, loop) && CoveredBlock(f, loop)
    case TryCatch(b, _, c, f) =>
      CoveredBlock(b, loop) && CoveredBlock(c, loop) && CoveredBlock(f, loop) && (f == [] || QuietBlock(c, loop))
    case BlockS(b) => CoveredBlock(b, loop)
    case _ => true
  }

  predicate CoveredBlock(b: seq<Stmt>, loop: bool)
    decreases WB(b), 1
  {
    b != [] ==> Covered(b[0], loop) && CoveredBlock(b[1..], loop)
  }

  predicate CoveredCases(cs: seq<Case>, loop: bool)
    decreases WC(cs), 1
  {
    cs != [] ==> CoveredBlock(cs[0].body, loop) && CoveredCases(cs[1..], loop)
  }

  lemma {:induction false} HarmlessEval(e: Expr, locals: seq<Value>)
    requires SlotsIn(e, |locals|) && Harmless(e)
    ensures !Eval(e, locals).Raise?
  {
    hide IntOp;
    match e
    case Prefix(_, a) => HarmlessEval(a, locals);
    case Infix(_, l, r) => HarmlessEval(l, locals); HarmlessEval(r, locals);
    case AndE(l, r) => HarmlessEval(l, locals); HarmlessEval(r, locals);
    case OrE(l, r) => HarmlessEval(l, locals); HarmlessEval(r, locals);
    case CoalesceE(l, r) => HarmlessEval(l, locals); HarmlessEval(r, locals);
    case Conditional(c, t, f) => HarmlessEval(c, locals); HarmlessEval(t, locals); HarmlessEval(f, locals);
    case _ =>
  }

  lemma {:induction false} HarmlessAll(es: seq<Expr>, locals: seq<Value>)
    requires forall e :: e in es ==> SlotsIn(e, |locals|) && Harmless(e)
    ensures EvalAll(es, locals).Bad? ==> !EvalAll(es, locals).r.Raise?
  {
    if es != [] {
      HarmlessEval(es[0], locals);
      HarmlessAll(es[1..], locals);
    }
  }

  lemma {:induction false} HarmlessPatterns(v: Value, ps: seq<Expr>, locals: seq<Value>)
    requires forall p :: p in ps ==> SlotsIn(p, |locals|) && Harmless(p)
    ensures !AnyEqual(v, ps, locals).Raise?
  {
    if ps != [] {
      HarmlessEval(ps[0], locals);
      HarmlessPatterns(v, ps[1..], locals);
    }
  }

  lemma QuietStraight(s: Stmt, st: Store)
    requires Straight(s) && Formed(s, |st.locals|) && Quiet(s, false)
    ensures !ExecStraight(s, st).Throw?
  {
    hide Eval, EvalAll, IntOp;
    match s
    case ExprStmt(e) => HarmlessEval(e, st.locals);
    case Assign(_, e, _) => HarmlessEval(e, st.locals);
    case AssignOp(_, _, e) => HarmlessEval(e, st.locals);
    case AssignCoalesce(_, e) => HarmlessEval(e, st.locals);
    case Say(vs) => HarmlessAll(vs, st.locals);
    case ReturnS(e) => HarmlessEval(e, st.locals);
    case _ =>
  }

  /** What is quiet by its text does not throw. */
  lemma {:induction false} QuietRuns(s: Stmt, st: Store, fuel: nat, loop: bool, std: bool)
    requires Formed(s, |st.locals|) && Quiet(s, loop)
    ensures !Exec(s, st, fuel, loop, std).Throw?
    decreases fuel, W(s), 3
  {
    hide Eval, ExecBlock, ExecCases, ExecWhile, Finally, ExecStraight;
    match s
    case If(c, b) => HarmlessEval(c, st.locals); QuietBlockRuns(b, st, fuel, loop, std);
    case IfElse(c, b, a) =>
      HarmlessEval(c, st.locals); QuietBlockRuns(b, st, fuel, loop, std); QuietRuns(a, st, fuel, loop, std);
    case While(_, _, _) => QuietWhile(s, st, fuel, loop, std);
    case Match(e, cs) =>
      HarmlessEval(e, st.locals);
      if Eval(e, st.locals).Val? { QuietCasesRun(Eval(e, st.locals).value, cs, st, fuel, loop, std); }
    case TryFinally(b, f) =>
      var st1 := Note(Opened(f), st);
      QuietBlockRuns(b, st1, fuel, loop, std);
      QuietFinally(f, ExecBlock(b, st1, fuel, loop, std), fuel, loop, std, |st.locals|);
    case TryCatch(b, k, c, f) =>
      var o := ExecBlock(b, Note(Opened(f), st), fuel, loop, std);
      if o.Throw? {
        var st2 := o.store.(locals := o.store.locals[k := o.value]);
        QuietBlockRuns(c, st2, fuel, loop, std);
        QuietFinally(f, ExecBlock(c, st2, fuel, loop, std), fuel, loop, std, |st.locals|);
      } else {
        QuietFinally(f, o, fuel, loop, std, |st.locals|);
      }
    case BlockS(b) => QuietBlockRuns(b, st, fuel, loop, std);
    case BreakS =>
    case ContinueS =>
    case _ => QuietStraight(s, st);
  }

  lemma {:induction false} QuietFinally(fin: seq<Stmt>, o: Outcome, fuel: nat, loop: bool, std: bool, n: nat)
    requires BlockFormed(fin, n) && QuietBlock(fin, loop) && Sound(o, n, loop) && !o.Throw?
    ensures !Finally(fin, o, fuel, loop, std, n).Throw?
    decreases fuel, WB(fin), 5
  {
    hide ExecBlock;
    if o.Ends() { QuietBlockRuns(fin, Note(Ran(fin), o.store), fuel, loop, std); }
  }

  lemma {:induction false} QuietWhile(s: Stmt, st: Store, fuel: nat, loop: bool, std: bool)
    requires s.While? && Formed(s, |st.locals|) && Harmless(s.c) && QuietBlock(s.body, true)
    ensures !ExecWhile(s, st, fuel, loop, std).Throw?
    decreases fuel, W(s), 2
  {
    hide ExecBlock;
    if fuel > 0 {
      HarmlessEval(s.c, st.locals);
      QuietBlockRuns(s.body, st, fuel - 1, true, std);
      var o := ExecBlock(s.body, st, fuel - 1, true, std);
      if o.Normal? || o.Continue? { QuietWhile(s, o.store, fuel - 1, loop, std); }
    }
  }

  lemma {:induction false} QuietBlockRuns(b: seq<Stmt>, st: Store, fuel: nat, loop: bool, std: bool)
    requires BlockFormed(b, |st.locals|) && QuietBlock(b, loop)
    ensures !ExecBlock(b, st, fuel, loop, std).Throw?
    decreases fuel, WB(b), 4
  {
    hide Exec;
    if b != [] {
      QuietRuns(b[0], st, fuel, loop, std);
      var o := Exec(b[0], st, fuel, loop, std);
      if o.Normal? { QuietBlockRuns(b[1..], o.store, fuel, loop, std); }
    }
  }

  lemma {:induction false} QuietCasesRun(v: Value, cs: seq<Case>, st: Store, fuel: nat, loop: bool, std: bool)
    requires CasesFormed(cs, |st.locals|) && QuietCases(cs, loop)
    ensures !ExecCases(v, cs, st, fuel, loop, std).Throw?
    decreases fuel, WC(cs), 4
  {
    hide ExecBlock, AnyEqual;
    if cs != [] {
      QuietBlockRuns(cs[0].body, st, fuel, loop, std);
      QuietCasesRun(v, cs[1..], st, fuel, loop, std);
      if cs[0].Branch? { HarmlessPatterns(v, cs[0].patterns, st.locals); }
    }
  }

  // ---------------------------------------------------------------- covered code

  /** Nothing escapes from covered code, and it runs as the reference run does. */
  lemma {:induction false} CoveredRun(s: Stmt, st: Store, fuel: nat, loop: bool, std: bool)
    requires Formed(s, |st.locals|) && Covered(s, loop)
    ensures var o := Exec(s, st, fuel, loop, std); (o.Ends() ==> Calm(o, st)) && o == Exec(s, st, fuel, loop, true)
    decreases fuel, W(s), 3
  {
    hide Escapes, Note, Eval, ExecBlock, ExecCases, ExecWhile, ExecCatch, Finally, ExecStraight;
    var n := |st.locals|;
    match s
    case If(_, b) => CoveredBlockRun(b, st, fuel, loop, std);
    case IfElse(_, b, a) => CoveredBlockRun(b, st, fuel, loop, std); CoveredRun(a, st, fuel, loop, std);
    case While(_, _, _) => CoveredWhile(s, st, fuel, loop, std);
    case Match(e, cs) =>
      if Eval(e, st.locals).Val? { CoveredCasesRun(Eval(e, st.locals).value, cs, st, fuel, loop, std); }
    case TryFinally(b, f) =>
      var st1 := Note(Opened(f), st);
      Noted(Opened(f), st);
      CoveredBlockRun(b, st1, fuel, loop, std);
      CoveredFinally(f, ExecBlock(b, st1, fuel, loop, std), fuel, loop, std, n);
    case TryCatch(b, _, _, f) =>
      var st1 := Note(Opened(f), st);
      Noted(Opened(f), st);
      CoveredBlockRun(b, st1, fuel, loop, std);
      CoveredCatch(s, ExecBlock(b, st1, fuel, loop, std), fuel, loop, std, n);
    case BlockS(b) => CoveredBlockRun(b, st, fuel, loop, std);
    case BreakS =>
    case ContinueS =>
    case _ => FollowsStraight(s, st);
  }

  lemma {:induction false} CoveredFinally(fin: seq<Stmt>, o: Outcome, fuel: nat, loop: bool, std: bool, n: nat)
    requires BlockFormed(fin, n) && CoveredBlock(fin, loop) && Sound(o, n, loop)
    ensures var p := Finally(fin, o, fuel, loop, std, n);
      (p.Ends() ==> o.Ends() && Calm(p, o.store)) && p == Finally(fin, o, fuel, loop, true, n)
    decreases fuel, WB(fin), 5
  {
    hide Escapes, Note, ExecBlock;
    if o.Ends() {
      Noted(Ran(fin), o.store);
      CoveredBlockRun(fin, Note(Ran(fin), o.store), fuel, loop, std);
    }
  }

  lemma {:induction false} CoveredCatch(s: Stmt, o: Outcome, fuel: nat, loop: bool, std: bool, n: nat)
    requires s.TryCatch? && Formed(s, n) && Covered(s, loop) && Sound(o, n, loop)
    ensures var p := ExecCatch(s, o, fuel, loop, std, n);
      (p.Ends() ==> o.Ends() && Calm(p, o.store)) && p == ExecCatch(s, o, fuel, loop, true, n)
    decreases fuel, W(s), 2
  {
    hide Escapes, Note, ExecBlock, Finally;
    if o.Throw? {
      var st2 := o.store.(locals := o.store.locals[s.slot := o.value]);
      CoveredBlockRun(s.catchBody, st2, fuel, loop, std);
      var c := ExecBlock(s.catchBody, st2, fuel, loop, std);
      if c.Throw? {
        if s.fin != [] { QuietBlockRuns(s.catchBody, st2, fuel, loop, std); }
        Noted(Escaped(s.fin), c.store);
        NoFinally(c, fuel, loop, n);
      }
      CoveredFinally(s.fin, c, fuel, loop, std, n);
    } else {
      CoveredFinally(s.fin, o, fuel, loop, std, n);
    }
  }

  lemma {:induction false} CoveredWhile(s: Stmt, st: Store, fuel: nat, loop: bool, std: bool)
    requires s.While? && Formed(s, |st.locals|) && CoveredBlock(s.body, true)
    ensures var o := ExecWhile(s, st, fuel, loop, std);
      (o.Ends() ==> Calm(o, st)) && o == ExecWhile(s, st, fuel, loop, true)
    decreases fuel, W(s), 2
  {
    hide Escapes, ExecBlock;
    if fuel > 0 {
      CoveredBlockRun(s.body, st, fuel - 1, true, std);
      var o := ExecBlock(s.body, st, fuel - 1, true, std);
      if o.Normal? || o.Continue? { CoveredWhile(s, o.store, fuel - 1, loop, std); }
    }
  }

  lemma {:induction false} CoveredBlockRun(b: seq<Stmt>, st: Store, fuel: nat, loop: bool, std: bool)
    requires BlockFormed(b, |st.locals|) && CoveredBlock(b, loop)
    ensures var o := ExecBlock(b, st, fuel, loop, std);
      (o.Ends() ==> Calm(o, st)) && o == ExecBlock(b, st, fuel, loop, true)
    decreases fuel, WB(b), 4
  {
    hide Escapes, Exec;
    if b != [] {
      CoveredRun(b[0], st, fuel, loop, std);
      var o := Exec(b[0], st, fuel, loop, std);
      if o.Normal? { CoveredBlockRun(b[1..], o.store, fuel, loop, std); }
    }
  }

  lemma {:induction false} CoveredCasesRun(v: Value, cs: seq<Case>, st: Store, fuel: nat, loop: bool, std: bool)
    requires CasesFormed(cs, |st.locals|) && CoveredCases(cs, loop)
    ensures var o := ExecCases(v, cs, st, fuel, loop, std);
      (o.Ends() ==> Calm(o, st)) && o == ExecCases(v, cs, st, fuel, loop, true)
    decreases fuel, WC(cs), 4
  {
    hide Escapes, ExecBlock, AnyEqual;
    if cs != [] {
      CoveredBlockRun(cs[0].body, st, fuel, loop, std);
      CoveredCasesRun(v, cs[1..], st, fuel, loop, std);
    }
  }

  /** Code whose catch blocks in front of a `finally` cannot throw, by their text, runs every `finally`
      exactly once, whatever the inputs. */
  lemma CoveredNests(b: seq<Stmt>, locals: seq<Value>, fuel: nat)
    requires BlockFormed(b, |locals|) && CoveredBlock(b, false)
    ensures var o := ExecBlock(b, Store(locals, [], []), fuel, false, false);
      o == ExecBlock(b, Store(locals, [], []), fuel, false, true) && (o.Ends() ==> Nested(o.store.marks))
  {
    hide ExecBlock;
    CoveredBlockRun(b, Store(locals, [], []), fuel, false, false);
    NestedExactly(b, locals, fuel);
  }
}
