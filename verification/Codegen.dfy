/** The code the compiler emits for a syntax tree.

 A fragment of code does not depend on where it will stand, except that jumps out of it - `break` and
 `continue` - are left as such, and that its constants are numbered from a given index on. */
module Codegen {
  import opened Bytecode
  import opened Tree

  datatype Frag = Frag(code: seq<Instr>, consts: seq<Value>) {
    function Then(g: Frag): Frag { Frag(code + g.code, consts + g.consts) }
    function Add(i: Instr): Frag { Frag(code + [i], consts) }
    function Next(k: nat): nat { k + |consts| }
  }

  const NO_CODE := Frag([], [])

  function One(i: Instr): Frag { Frag([i], []) }

  function Len(code: seq<Instr>): nat { |Bytes(code)| }

  // ---------------------------------------------------------------- expressions

  predicate IsSmall(e: Expr) { e.IntLit? && FitsImmediate(e.n) }

  function GenExpr(e: Expr, k: nat): Frag
    decreases e, 0
  {
    match e
    case IntLit(n) => Frag([CONST(k)], [Int(n)])
    case BoolLit(b) => One(if b then TRUE_ else FALSE_)
    case NullLit => One(NIL)
    case Name(s) => One(GET_LOCAL(s))
    case Prefix(op, a) => GenExpr(a, k).Add(PREFIX(op))
    case Infix(op, l, r) =>
      if IsSmall(r) && HasImmediate(op) then
        if l.Name? && op in {BinOp.Add, BinOp.Sub} then One(LGET_I(op, l.slot, r.n))
        else GenExpr(l, k).Add(BINARY_I(op, r.n))
      else if l.Name? && r.Name? then One(LGET2(l.slot, r.slot)).Add(BINARY(op))
      else
        var f := GenExpr(l, k);
        f.Then(GenExpr(r, f.Next(k))).Add(BINARY(op))
    case AndE(l, r) =>
      var f := GenExpr(l, k);
      var g := GenExpr(r, f.Next(k));
      f.Add(AND_KEEP(Len(g.code))).Then(g)
    case OrE(l, r) =>
      var f := GenExpr(l, k);
      var g := GenExpr(r, f.Next(k));
      f.Add(OR_KEEP(Len(g.code))).Then(g)
    case CoalesceE(l, r) =>
      var f := GenExpr(l, k);
      var g := GenExpr(r, f.Next(k));
      f.Add(COALESCE(Len(g.code))).Then(g)
    case Conditional(c, t, f) =>
      var kt := k + |CondConsts(c, k)|;
      var gt := GenExpr(t, kt);
      var gf := GenExpr(f, gt.Next(kt));
      GenCond(c, false, k, Len(gt.code) + 3).Then(gt).Add(JUMP(Len(gf.code))).Then(gf)
  }

  /** A condition, and a jump over `d` bytes when it does not hold (or when it holds, if inverted). */
  function GenCond(c: Expr, invert: bool, k: nat, d: nat): (f: Frag)
    ensures f.consts == CondConsts(c, k)
    decreases c, 2
  {
    if c.Infix? && IsCompare(c.op) then
      var op := if invert then Inverse(c.op) else c.op;
      var f := GenExpr(c.l, k);
      if IsSmall(c.r) then f.Add(COMPARE_I_JF(op, c.r.n, d))
      else f.Then(GenExpr(c.r, f.Next(k))).Add(COMPARE_JF(op, d))
    else if invert then GenExpr(c, k).Add(PREFIX(Not)).Add(JUMP_IF_FALSE(d))
    else GenExpr(c, k).Add(JUMP_IF_FALSE(d))
  }

  /** The constants of a condition, whatever its jump. */
  function CondConsts(c: Expr, k: nat): seq<Value>
    decreases c, 1
  {
    if c.Infix? && IsCompare(c.op) then
      var f := GenExpr(c.l, k);
      if IsSmall(c.r) then f.consts else f.consts + GenExpr(c.r, f.Next(k)).consts
    else GenExpr(c, k).consts
  }

  function GenExprs(es: seq<Expr>, k: nat): Frag {
    if es == [] then NO_CODE
    else
      var f := GenExpr(es[0], k);
      f.Then(GenExprs(es[1..], f.Next(k)))
  }

  // ---------------------------------------------------------------- jumps out of a fragment

  datatype Target = Later | To(addr: nat)

  function Gap(a: nat, b: nat): nat { if a >= b then a - b else 0 }

  /** Instruction `i` at address `at`, its target known. */
  function Settle(i: Instr, at: nat, cont: Target, brk: Target): Instr {
    if i.BreakJ? && brk.To? then JUMP(Gap(brk.addr, at + 3))
    else if i.ContJ? && cont.To? then LOOP(Gap(at + 3, cont.addr))
    else i
  }

  function Resolve(code: seq<Instr>, at: nat, cont: Target, brk: Target): (r: seq<Instr>)
    ensures |r| == |code|
  {
    if code == [] then [] else [Settle(code[0], at, cont, brk)] + Resolve(code[1..], at + Size(code[0]), cont, brk)
  }

  // ---------------------------------------------------------------- statements

  /** An enclosing `try`: its `finally` block, and whether its handler is installed. */
  datatype Scope = Scope(fin: seq<Stmt>, live: bool)

  /** The enclosing loop: how many scopes were open where it starts. */
  datatype Loop = NoLoop | InLoop(depth: nat)

  function WS(S: seq<Scope>): nat {
    if S == [] then 0 else WB(S[|S| - 1].fin) + 1 + WS(S[..|S| - 1])
  }

  lemma WSPush(S: seq<Scope>, c: Scope)
    ensures WS(S + [c]) == WB(c.fin) + 1 + WS(S)
  {
    assert (S + [c])[..|S|] == S;
  }

  /** The code on the way out of the scopes above `downTo`, innermost first: drop the handler, run the
      `finally` block. */
  function Unwind(S: seq<Scope>, downTo: nat, k: nat, D: Loop): Frag
    decreases WS(S), 0, 0
  {
    if |S| <= downTo then NO_CODE
    else
      var c, rest := S[|S| - 1], S[..|S| - 1];
      var f := GenBlock(c.fin, k, rest, D);
      (if c.live then One(TRY_POP) else NO_CODE).Then(f).Then(Unwind(rest, downTo, f.Next(k), D))
  }

  function GenStmt(s: Stmt, k: nat, S: seq<Scope>, D: Loop): Frag
    decreases W(s) + WS(S), 3, 0
  {
    match s
    case BreakS =>
      if D.NoLoop? then Frag([RUNTIME_ERROR(k)], [ErrorText]) else Unwind(S, D.depth, k, D).Add(BreakJ)
    case ContinueS =>
      if D.NoLoop? then Frag([RUNTIME_ERROR(k)], [ErrorText]) else Unwind(S, D.depth, k, D).Add(ContJ)
    case ReturnS(e) =>
      var f := GenExpr(e, k);
      f.Then(Unwind(S, 0, f.Next(k), D)).Add(RETURN)
    case If(c, b) =>
      var g := GenBlock(b, k + |CondConsts(c, k)|, S, D);
      GenCond(c, false, k, Len(g.code)).Then(g)
    case IfElse(c, b, a) =>
      var kb := k + |CondConsts(c, k)|;
      var g := GenBlock(b, kb, S, D);
      var h := GenStmt(a, g.Next(kb), S, D);
      GenCond(c, false, k, Len(g.code) + 3).Then(g).Add(JUMP(Len(h.code))).Then(h)
    case While(until, c, b) => GenWhile(s, k, S, D)
    case Match(e, cs) =>
      var f := GenExpr(e, k);
      f.Then(GenCases(cs, f.Next(k), S, D))
    case TryFinally(b, fin) => GenTryFinally(s, k, S, D)
    case TryCatch(b, _, _, fin) => GenTryCatch(s, k, S, D)
    case BlockS(b) => GenBlock(b, k, S, D)
    case _ => GenStraight(s, k)
  }

  function GenStraight(s: Stmt, k: nat): Frag {
    match s
    case ExprStmt(e) => GenExpr(e, k).Add(POP)
    case Assign(x, e, isSet) =>
      if !isSet && e.Infix? && e.op == BinOp.Add && e.l == Name(x) then
        One(GET_LOCAL(x)).Then(GenExpr(e.r, k)).Add(ADD_INPLACE).Add(SET_LOCAL(x))
      else GenExpr(e, k).Add(SET_LOCAL(x))
    case AssignOp(x, op, e) =>
      One(GET_LOCAL(x)).Then(GenExpr(e, k)).Add(if op == BinOp.Add then ADD_INPLACE else BINARY(op)).Add(SET_LOCAL(x))
    case AssignCoalesce(x, e) =>
      var f := GenExpr(e, k);
      One(GET_LOCAL(x)).Add(COALESCE(Len(f.code))).Then(f).Add(SET_LOCAL(x))
    case Say(vs) => GenExprs(vs, k).Add(SAY(|vs|))
    case ThrowS(e) => GenExpr(e, k).Add(THROW_)
    case _ => NO_CODE
  }

  function GenBlock(b: seq<Stmt>, k: nat, S: seq<Scope>, D: Loop): Frag
    decreases WB(b) + WS(S), 4, |b|
  {
    if b == [] then NO_CODE
    else
      var f := GenStmt(b[0], k, S, D);
      f.Then(GenBlock(b[1..], f.Next(k), S, D))
  }

  /** Condition, body, a jump back; `break` leads behind it and `continue` to the condition. */
  function GenWhile(s: Stmt, k: nat, S: seq<Scope>, D: Loop): Frag
    requires s.While?
    decreases W(s) + WS(S), 2, 0
  {
    var g := GenBlock(s.body, k + |CondConsts(s.c, k)|, S, InLoop(|S|));
    var f := GenCond(s.c, s.until, k, Len(g.code) + 3);
    var total := Len(f.code) + Len(g.code) + 3;
    f.Then(Frag(Resolve(g.code, Len(f.code), To(0), To(total)), g.consts)).Add(LOOP(total))
  }

  /** The branches of a `match`, its subject on the stack.  A branch ends with a jump over the rest. */
  function GenCases(cs: seq<Case>, k: nat, S: seq<Scope>, D: Loop): Frag
    decreases WC(cs) + WS(S), 4, |cs|
  {
    if cs == [] then One(POP)
    else
      var c := cs[0];
      var kb := if c.Branch? then k + |PatternConsts(c.patterns, k)| else k;
      var g := GenBlock(c.body, kb, S, D);
      var rest := GenCases(cs[1..], g.Next(kb), S, D);
      var body := One(POP).Then(g).Add(JUMP(Len(rest.code)));
      if c.Default? then body.Then(rest)
      else GenPatterns(c.patterns, k, Len(body.code)).Then(body).Then(rest)
  }

  /** Compares the subject with the patterns; behind the last one, `skip` bytes are jumped over when
      none is equal. */
  function GenPatterns(ps: seq<Expr>, k: nat, skip: nat): (f: Frag)
    ensures f.consts == PatternConsts(ps, k)
  {
    if ps == [] then NO_CODE
    else
      var e := GenExpr(ps[0], k);
      var rest := GenPatterns(ps[1..], e.Next(k), skip);
      var branch := if |ps| == 1 then [JUMP_IF_FALSE(skip)] else [JUMP_IF_FALSE(3), JUMP(Len(rest.code))];
      Frag([DUP] + e.code + [BINARY(Eq)] + branch + rest.code, e.consts + rest.consts)
  }

  function PatternConsts(ps: seq<Expr>, k: nat): seq<Value> {
    if ps == [] then []
    else
      var e := GenExpr(ps[0], k);
      e.consts + PatternConsts(ps[1..], e.Next(k))
  }

  /** The `finally` block stands twice: behind the body, and for errors, which it raises again. */
  function GenTryFinally(s: Stmt, k: nat, S: seq<Scope>, D: Loop): Frag
    requires s.TryFinally?
    decreases W(s) + WS(S), 2, 0
  {
    WSPush(S, Scope(s.fin, true));
    var g := GenBlock(s.body, k, S + [Scope(s.fin, true)], D);
    var k1 := g.Next(k);
    var f1 := GenBlock(s.fin, k1, S, D);
    var f2 := GenBlock(s.fin, f1.Next(k1), S, D);
    One(TRY_PUSH(Len(g.code) + 1 + Len(f1.code) + 3)).Then(g).Add(TRY_POP).Then(f1)
      .Add(JUMP(Len(f2.code) + 1)).Then(f2).Add(THROW_)
  }

  function GenTryCatch(s: Stmt, k: nat, S: seq<Scope>, D: Loop): Frag
    requires s.TryCatch?
    decreases W(s) + WS(S), 2, 0
  {
    WSPush(S, Scope(s.fin, true));
    WSPush(S, Scope(s.fin, false));
    var g := GenBlock(s.body, k, S + [Scope(s.fin, true)], D);
    var k1 := g.Next(k);
    var h := GenBlock(s.catchBody, k1, S + [Scope(s.fin, false)], D);
    var f := GenBlock(s.fin, h.Next(k1), S, D);
    One(TRY_PUSH(Len(g.code) + 4)).Then(g).Add(TRY_POP).Add(JUMP(3 + Len(h.code)))
      .Add(SET_LOCAL(s.slot)).Then(h).Then(f)
  }

  /** A function body, and the implicit `return null` behind it. */
  function GenFunction(body: seq<Stmt>): Frag {
    GenBlock(body, 0, [], NoLoop).Add(NIL).Add(RETURN)
  }
}
