/** The syntax trees of function bodies and what they mean.

 Names are already resolved to slots of the function's frame.  A block is a list of statements; a
 `try` without a `finally` has an empty one. */
module Tree {
  import opened Bytecode

  datatype Expr =
    | IntLit(n: int)
    | BoolLit(b: bool)
    | NullLit
    | Name(slot: nat)
    | Prefix(pop: PrefixOp, e: Expr)
    | Infix(op: BinOp, l: Expr, r: Expr)
    | AndE(l: Expr, r: Expr)
    | OrE(l: Expr, r: Expr)
    | CoalesceE(l: Expr, r: Expr)
    | Conditional(c: Expr, t: Expr, f: Expr)

  /** `Assign` covers `set x = e` and `x = e`; `isSet` tells them apart. */
  datatype Stmt =
    | Pass
    | ExprStmt(e: Expr)
    | Assign(slot: nat, e: Expr, isSet: bool)
    | AssignOp(slot: nat, op: BinOp, e: Expr)
    | AssignCoalesce(slot: nat, e: Expr)
    | Say(values: seq<Expr>)
    | ThrowS(e: Expr)
    | If(c: Expr, body: seq<Stmt>)
    | IfElse(c: Expr, body: seq<Stmt>, alt: Stmt)
    | While(until: bool, c: Expr, body: seq<Stmt>)
    | Match(subject: Expr, cases: seq<Case>)
    | BreakS
    | ContinueS
    | ReturnS(e: Expr)
    | TryFinally(body: seq<Stmt>, fin: seq<Stmt>)
    | TryCatch(body: seq<Stmt>, slot: nat, catchBody: seq<Stmt>, fin: seq<Stmt>)
    | BlockS(body: seq<Stmt>)

  datatype Case = Default(body: seq<Stmt>) | Branch(patterns: seq<Expr>, body: seq<Stmt>)

  // ---------------------------------------------------------------- sizes

  function WE(e: Expr): (w: nat)
    ensures w >= 1
  {
    match e
    case Prefix(_, a) => 1 + WE(a)
    case Infix(_, l, r) => 1 + WE(l) + WE(r)
    case AndE(l, r) => 1 + WE(l) + WE(r)
    case OrE(l, r) => 1 + WE(l) + WE(r)
    case CoalesceE(l, r) => 1 + WE(l) + WE(r)
    case Conditional(c, t, f) => 1 + WE(c) + WE(t) + WE(f)
    case _ => 1
  }

  function W(s: Stmt): (w: nat)
    ensures w >= 1
  {
    match s
    case If(_, b) => 1 + WB(b)
    case IfElse(_, b, a) => 1 + WB(b) + W(a)
    case While(_, _, b) => 1 + WB(b)
    case Match(_, cs) => 1 + WC(cs)
    case TryFinally(b, f) => 2 + WB(b) + 2 * WB(f)
    case TryCatch(b, _, c, f) => 2 + WB(b) + WB(c) + 2 * WB(f)
    case BlockS(b) => 1 + WB(b)
    case _ => 1
  }

  function WB(b: seq<Stmt>): nat {
    if b == [] then 0 else W(b[0]) + WB(b[1..])
  }

  function WC(cs: seq<Case>): nat {
    if cs == [] then 0 else 1 + WB(cs[0].body) + WC(cs[1..])
  }

  // ---------------------------------------------------------------- well-formedness

  predicate SlotsIn(e: Expr, n: nat) {
    match e
    case Name(s) => s < n
    case Prefix(_, a) => SlotsIn(a, n)
    case Infix(_, l, r) => SlotsIn(l, n) && SlotsIn(r, n)
    case AndE(l, r) => SlotsIn(l, n) && SlotsIn(r, n)
    case OrE(l, r) => SlotsIn(l, n) && SlotsIn(r, n)
    case CoalesceE(l, r) => SlotsIn(l, n) && SlotsIn(r, n)
    case Conditional(c, t, f) => SlotsIn(c, n) && SlotsIn(t, n) && SlotsIn(f, n)
    case _ => true
  }

  /** `break` and `continue` stay inside the loops of the block itself. */
  predicate Closed(b: seq<Stmt>)
    decreases WB(b), 1
  {
    b != [] ==> StaysInside(b[0]) && Closed(b[1..])
  }

  predicate StaysInside(s: Stmt)
    decreases W(s), 0
  {
    match s
    case BreakS => false
    case ContinueS => false
    case If(_, b) => Closed(b)
    case IfElse(_, b, a) => Closed(b) && StaysInside(a)
    case Match(_, cs) => CasesClosed(cs)
    case TryFinally(b, f) => Closed(b) && Closed(f)
    case TryCatch(b, _, c, f) => Closed(b) && Closed(c) && Closed(f)
    case BlockS(b) => Closed(b)
    case _ => true
  }

  predicate CasesClosed(cs: seq<Case>)
    decreases WC(cs), 1
  {
    cs != [] ==> Closed(cs[0].body) && CasesClosed(cs[1..])
  }

  /** What the parser and the slot collection provide: slots lie in a frame of `n`, a branch of a
      `match` has a pattern.  Besides, no `finally` breaks or continues a loop around it. */
  predicate Formed(s: Stmt, n: nat)
    decreases W(s), 0
  {
    match s
    case Pass => true
    case ExprStmt(e) => SlotsIn(e, n)
    case Assign(k, e, _) => k < n && SlotsIn(e, n)
    case AssignOp(k, _, e) => k < n && SlotsIn(e, n)
    case AssignCoalesce(k, e) => k < n && SlotsIn(e, n)
    case Say(vs) => forall v :: v in vs ==> SlotsIn(v, n)
    case ThrowS(e) => SlotsIn(e, n)
    case If(c, b) => SlotsIn(c, n) && BlockFormed(b, n)
    case IfElse(c, b, a) => SlotsIn(c, n) && BlockFormed(b, n) && Formed(a, n)
    case While(_, c, b) => SlotsIn(c, n) && BlockFormed(b, n)
    case Match(e, cs) => SlotsIn(e, n) && CasesFormed(cs, n)
    case BreakS => true
    case ContinueS => true
    case ReturnS(e) => SlotsIn(e, n)
    case TryFinally(b, f) => BlockFormed(b, n) && BlockFormed(f, n) && Closed(f)
    case TryCatch(b, k, c, f) => k < n && BlockFormed(b, n) && BlockFormed(c, n) && BlockFormed(f, n) && Closed(f)
    case BlockS(b) => BlockFormed(b, n)
  }

  predicate BlockFormed(b: seq<Stmt>, n: nat)
    decreases WB(b), 1
  {
    b != [] ==> Formed(b[0], n) && BlockFormed(b[1..], n)
  }

  predicate CasesFormed(cs: seq<Case>, n: nat)
    decreases WC(cs), 1
  {
    cs != [] ==>
      && (cs[0].Branch? ==> cs[0].patterns != [] && forall p :: p in cs[0].patterns ==> SlotsIn(p, n))
      && BlockFormed(cs[0].body, n) && CasesFormed(cs[1..], n)
  }

  // ---------------------------------------------------------------- expressions

  function Eval(e: Expr, locals: seq<Value>): EvalResult
    requires SlotsIn(e, |locals|)
  {
    match e
    case IntLit(n) => Val(Int(n))
    case BoolLit(b) => Val(Bool(b))
    case NullLit => Val(Null)
    case Name(s) => Val(locals[s])
    case Prefix(op, a) =>
      (match Eval(a, locals) case Val(v) => ApplyPrefix(op, v) case o => o)
    case Infix(op, l, r) =>
      (match Eval(l, locals)
       case Val(a) => (match Eval(r, locals) case Val(b) => Apply(op, a, b) case o => o)
       case o => o)
    case AndE(l, r) =>
      (match Eval(l, locals) case Val(a) => if Truthy(a) then Eval(r, locals) else Val(a) case o => o)
    case OrE(l, r) =>
      (match Eval(l, locals) case Val(a) => if Truthy(a) then Val(a) else Eval(r, locals) case o => o)
    case CoalesceE(l, r) =>
      (match Eval(l, locals) case Val(a) => if a != Null then Val(a) else Eval(r, locals) case o => o)
    case Conditional(c, t, f) =>
      (match Eval(c, locals) case Val(v) => if Truthy(v) then Eval(t, locals) else Eval(f, locals) case o => o)
  }

  /** Whether a branch is taken: the condition's truth, or its opposite. */
  function Test(c: Expr, invert: bool, locals: seq<Value>): EvalResult
    requires SlotsIn(c, |locals|)
  {
    match Eval(c, locals) case Val(v) => Val(Bool(Truthy(v) != invert)) case o => o
  }

  // ---------------------------------------------------------------- statements

  /** A log of non-empty `finally` blocks: their `try` began, they were started, or the `catch` block
      before them threw. */
  datatype Mark = Opened(fin: seq<Stmt>) | Ran(fin: seq<Stmt>) | Escaped(fin: seq<Stmt>)

  /** What statements change: the frame's slots, and what was said.  The marks are no part of what a
      program can see. */
  datatype Store = Store(locals: seq<Value>, out: seq<Value>, marks: seq<Mark>)

  function Note(m: Mark, st: Store): (t: Store)
    ensures t.locals == st.locals && t.out == st.out
  {
    if m.fin == [] then st else st.(marks := st.marks + [m])
  }

  /** `Diverges`: the fuel ran out.  `Unmodelled`: an operation on texts. */
  datatype Outcome =
    | Normal(store: Store)
    | Break(store: Store)
    | Continue(store: Store)
    | Return(value: Value, store: Store)
    | Throw(value: Value, store: Store)
    | Diverges
    | Unmodelled
  {
    predicate Ends() { !Diverges? && !Unmodelled? }
  }

  /** The outcome of an expression that did not give a value. */
  function Failed(r: EvalResult, st: Store): Outcome
    requires !r.Val?
  {
    if r.Raise? then Throw(ErrorText, st) else Unmodelled
  }

  predicate Sound(o: Outcome, n: nat, loop: bool) {
    && (o.Ends() ==> |o.store.locals| == n)
    && (o.Throw? ==> o.value.IsText())
    && (o.Break? || o.Continue? ==> loop)
  }

  /** A `finally` block after outcome `o`: it has the last word unless it ends normally. */
  function Finally(fin: seq<Stmt>, o: Outcome, fuel: nat, loop: bool, std: bool, n: nat): (p: Outcome)
    requires BlockFormed(fin, n) && Sound(o, n, loop)
    ensures Sound(p, n, loop)
    decreases fuel, WB(fin), 5
  {
    if !o.Ends() then o
    else match ExecBlock(fin, Note(Ran(fin), o.store), fuel, loop, std)
      case Normal(st) => o.(store := st)
      case p => p
  }

  /** The statements without statements in them, outside `break` and `continue`. */
  predicate Straight(s: Stmt) {
    s.Pass? || s.ExprStmt? || s.Assign? || s.AssignOp? || s.AssignCoalesce? || s.Say? || s.ThrowS? || s.ReturnS?
  }

  function ExecStraight(s: Stmt, st: Store): (o: Outcome)
    requires Straight(s) && Formed(s, |st.locals|)
    ensures Sound(o, |st.locals|, false)
  {
    match s
    case Pass => Normal(st)
    case ExprStmt(e) => (match Eval(e, st.locals) case Val(_) => Normal(st) case r => Failed(r, st))
    case Assign(k, e, _) =>
      (match Eval(e, st.locals) case Val(v) => Normal(st.(locals := st.locals[k := v])) case r => Failed(r, st))
    case AssignOp(k, op, e) =>
      (match Eval(e, st.locals)
       case Val(v) =>
         (match Apply(op, st.locals[k], v)
          case Val(w) => Normal(st.(locals := st.locals[k := w]))
          case r => Failed(r, st))
       case r => Failed(r, st))
    case AssignCoalesce(k, e) =>
      if st.locals[k] != Null then Normal(st)
      else (match Eval(e, st.locals) case Val(v) => Normal(st.(locals := st.locals[k := v])) case r => Failed(r, st))
    case Say(vs) =>
      (match EvalAll(vs, st.locals)
       case Vals(all) => Normal(st.(out := st.out + all))
       case Bad(r) => Failed(r, st))
    case ThrowS(e) => (match Eval(e, st.locals) case Val(v) => Throw(v.Text(), st) case r => Failed(r, st))
    case ReturnS(e) => (match Eval(e, st.locals) case Val(v) => Return(v, st) case r => Failed(r, st))
  }

  /** A statement under `fuel` rounds of its loops, inside a loop or not.  With `std` a `finally` runs
      on every way out of its `try`; without, not when the `catch` block throws. */
  function Exec(s: Stmt, st: Store, fuel: nat, loop: bool, std: bool): (o: Outcome)
    requires Formed(s, |st.locals|)
    ensures Sound(o, |st.locals|, loop)
    decreases fuel, W(s), 3
  {
    match s
    case If(c, b) =>
      (match Eval(c, st.locals)
       case Val(v) => if Truthy(v) then ExecBlock(b, st, fuel, loop, std) else Normal(st)
       case r => Failed(r, st))
    case IfElse(c, b, a) =>
      (match Eval(c, st.locals)
       case Val(v) => if Truthy(v) then ExecBlock(b, st, fuel, loop, std) else Exec(a, st, fuel, loop, std)
       case r => Failed(r, st))
    case While(_, _, _) => ExecWhile(s, st, fuel, loop, std)
    case Match(e, cs) =>
      (match Eval(e, st.locals)
       case Val(v) => ExecCases(v, cs, st, fuel, loop, std)
       case r => Failed(r, st))
    case BreakS => if loop then Break(st) else Throw(ErrorText, st)
    case ContinueS => if loop then Continue(st) else Throw(ErrorText, st)
    case TryFinally(b, f) =>
      Finally(f, ExecBlock(b, Note(Opened(f), st), fuel, loop, std), fuel, loop, std, |st.locals|)
    case TryCatch(_, _, _, _) =>
      ExecCatch(s, ExecBlock(s.body, Note(Opened(s.fin), st), fuel, loop, std), fuel, loop, std, |st.locals|)
    case BlockS(b) => ExecBlock(b, st, fuel, loop, std)
    case _ => ExecStraight(s, st)
  }

  /** A loop: its condition decides whether there is a round, the round's outcome whether there is
      another. */
  function ExecWhile(s: Stmt, st: Store, fuel: nat, loop: bool, std: bool): (o: Outcome)
    requires s.While? && Formed(s, |st.locals|)
    ensures Sound(o, |st.locals|, loop)
    decreases fuel, W(s), 2
  {
    if fuel == 0 then Diverges
    else
      match Test(s.c, s.until, st.locals)
      case Val(v) =>
        if !Truthy(v) then Normal(st)
        else
          (match ExecBlock(s.body, st, fuel - 1, true, std)
           case Normal(st') => ExecWhile(s, st', fuel - 1, loop, std)
           case Continue(st') => ExecWhile(s, st', fuel - 1, loop, std)
           case Break(st') => Normal(st')
           case o => o)
      case r => Failed(r, st)
  }

  /** What follows the body of a `try` with a `catch`, whose outcome was `o`. */
  function ExecCatch(s: Stmt, o: Outcome, fuel: nat, loop: bool, std: bool, n: nat): (p: Outcome)
    requires s.TryCatch? && Formed(s, n) && Sound(o, n, loop)
    ensures Sound(p, n, loop)
    decreases fuel, W(s), 2
  {
    if !o.Throw? then Finally(s.fin, o, fuel, loop, std, n)
    else
      var caught := ExecBlock(s.catchBody, o.store.(locals := o.store.locals[s.slot := o.value]), fuel, loop, std);
      if !caught.Throw? then Finally(s.fin, caught, fuel, loop, std, n)
      else
        var escaped := Throw(caught.value, Note(Escaped(s.fin), caught.store));
        if std then Finally(s.fin, escaped, fuel, loop, std, n) else escaped
  }

  function ExecBlock(b: seq<Stmt>, st: Store, fuel: nat, loop: bool, std: bool): (o: Outcome)
    requires BlockFormed(b, |st.locals|)
    ensures Sound(o, |st.locals|, loop)
    decreases fuel, WB(b), 4
  {
    if b == [] then Normal(st)
    else match Exec(b[0], st, fuel, loop, std)
      case Normal(st') => ExecBlock(b[1..], st', fuel, loop, std)
      case o => o
  }

  /** The first branch with a pattern equal to `v`, or the first default, whichever comes first. */
  function ExecCases(v: Value, cs: seq<Case>, st: Store, fuel: nat, loop: bool, std: bool): (o: Outcome)
    requires CasesFormed(cs, |st.locals|)
    ensures Sound(o, |st.locals|, loop)
    decreases fuel, WC(cs), 4
  {
    if cs == [] then Normal(st)
    else if cs[0].Default? then ExecBlock(cs[0].body, st, fuel, loop, std)
    else match AnyEqual(v, cs[0].patterns, st.locals)
      case Val(found) =>
        if found == Bool(true) then ExecBlock(cs[0].body, st, fuel, loop, std)
        else ExecCases(v, cs[1..], st, fuel, loop, std)
      case r => Failed(r, st)
  }

  /** Whether `v` equals one of the patterns, tried from the left and no further than needed. */
  function AnyEqual(v: Value, ps: seq<Expr>, locals: seq<Value>): (r: EvalResult)
    requires forall p :: p in ps ==> SlotsIn(p, |locals|)
  {
    if ps == [] then Val(Bool(false))
    else match Eval(ps[0], locals)
      case Val(w) =>
        (match Apply(Eq, v, w)
         case Val(same) => if same == Bool(true) then Val(Bool(true)) else AnyEqual(v, ps[1..], locals)
         case r => r)
      case r => r
  }

  datatype Evaluated = Vals(values: seq<Value>) | Bad(r: EvalResult)

  function EvalAll(es: seq<Expr>, locals: seq<Value>): (r: Evaluated)
    requires forall e :: e in es ==> SlotsIn(e, |locals|)
    ensures r.Bad? ==> !r.r.Val?
    ensures r.Vals? ==> |r.values| == |es|
  {
    if es == [] then Vals([])
    else match Eval(es[0], locals)
      case Val(v) =>
        (match EvalAll(es[1..], locals) case Vals(rest) => Vals([v] + rest) case o => o)
      case r => Bad(r)
  }
}
