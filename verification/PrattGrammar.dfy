/** Expressions as the precedence table reads them: tokens, trees, and which trees the table allows.

 Trees keep the parentheses; `Strip` drops those that only group. */
module PrattGrammar {

  datatype Op = OrOp | AndOp | EqOp | NeOp | LtOp | GtOp | LeOp | GeOp | InOp | IsOp | Range | Coalesce
    | Pipe | Caret | Amp | ShiftL | ShiftR | Plus | Minus | Star | Slash | SlashSlash | Percent | Power

  /** Values, operators, and any other token that neither starts nor continues an expression. */
  datatype Token = Value(n: nat) | Operator(op: Op) | NotKw | TildeTok | IfKw | ElseKw | LParen | RParen | Comma | Other

  datatype Unary = Negate | Complement | Not

  datatype Tree =
    | Leaf(n: nat)
    | Bin(l: Tree, op: Op, r: Tree)
    | Pre(q: Unary, e: Tree)
    | Cond(t: Tree, c: Tree, f: Tree)
    | Group(e: Tree)
    | Tuple(items: seq<Tree>, trailing: bool)
    | Call(f: Tree, args: seq<Tree>)

  /** What the parser builds: grouping parentheses leave no node. */
  datatype Ast =
    | Literal(n: nat)
    | Infix(op: Op, l: Ast, r: Ast)
    | Prefix(q: Unary, e: Ast)
    | Conditional(t: Ast, c: Ast, f: Ast)
    | TupleLit(items: seq<Ast>)
    | CallExpr(f: Ast, args: seq<Ast>)

  function Strip(t: Tree): Ast {
    match t
    case Leaf(n) => Literal(n)
    case Bin(l, op, r) => Infix(op, Strip(l), Strip(r))
    case Pre(q, e) => Prefix(q, Strip(e))
    case Cond(t, c, f) => Conditional(Strip(t), Strip(c), Strip(f))
    case Group(e) => Strip(e)
    case Tuple(items, _) => TupleLit(StripAll(items))
    case Call(f, args) => CallExpr(Strip(f), StripAll(args))
  }

  function StripAll(ts: seq<Tree>): seq<Ast> {
    if ts == [] then [] else [Strip(ts[0])] + StripAll(ts[1..])
  }

  // ---------------------------------------------------------------- the table

  const LOWEST := 1
  const TERNARY := 2
  const P_AND := 5
  const PREFIX := 15
  const CALL := 17

  function Binding(op: Op): nat {
    match op
    case Coalesce => 3
    case OrOp => 4
    case AndOp => 5
    case EqOp => 6 case NeOp => 6
    case LtOp => 7 case GtOp => 7 case LeOp => 7 case GeOp => 7 case InOp => 7 case IsOp => 7
    case Range => 8
    case Pipe => 9
    case Caret => 10
    case Amp => 11
    case ShiftL => 12 case ShiftR => 12
    case Plus => 13 case Minus => 13
    case Star => 14 case Slash => 14 case SlashSlash => 14 case Percent => 14
    case Power => 16
  }

  /** How strongly an operator must bind to belong to the right operand of `op`: only `**` takes its own
      kind there. */
  function RightLevel(op: Op): nat { if op == Power then Binding(op) - 1 else Binding(op) }

  /** The same for prefix operators: `not` is looser than comparisons. */
  function PrefixLevel(q: Unary): nat { if q == Not then P_AND else PREFIX }

  function TokenBinding(t: Token): nat {
    match t
    case Operator(op) => Binding(op)
    case IfKw => TERNARY
    case LParen => CALL
    case _ => LOWEST
  }

  /** How strongly the next token binds to what stands before it. */
  function PeekBinding(ts: seq<Token>): nat { if ts == [] then LOWEST else TokenBinding(ts[0]) }

  // ---------------------------------------------------------------- yield

  function PrefixToken(q: Unary): Token {
    match q case Negate => Operator(Minus) case Complement => TildeTok case Not => NotKw
  }

  function Yield(t: Tree): (ts: seq<Token>)
    ensures |ts| > 0
  {
    match t
    case Leaf(n) => [Value(n)]
    case Bin(l, op, r) => Yield(l) + [Operator(op)] + Yield(r)
    case Pre(q, e) => [PrefixToken(q)] + Yield(e)
    case Cond(t, c, f) => Yield(t) + [IfKw] + Yield(c) + [ElseKw] + Yield(f)
    case Group(e) => [LParen] + Yield(e) + [RParen]
    case Tuple(items, trailing) => [LParen] + YieldAll(items) + (if trailing then [Comma] else []) + [RParen]
    case Call(f, args) => Yield(f) + [LParen] + YieldAll(args) + [RParen]
  }

  /** The items, commas between them. */
  function YieldAll(ts: seq<Tree>): seq<Token> {
    if ts == [] then [] else Yield(ts[0]) + YieldMore(ts[1..])
  }

  function YieldMore(ts: seq<Tree>): seq<Token> {
    if ts == [] then [] else [Comma] + Yield(ts[0]) + YieldMore(ts[1..])
  }

  // ---------------------------------------------------------------- trees the table allows

  const MAX_EXPR_DEPTH := 200
  const MAX_EXPR_CHAIN := 10000

  /** No operator looser than this may follow the tree: an operand on its right edge would take it. */
  function Edge(t: Tree): nat {
    match t
    case Bin(_, op, r) => Min(RightLevel(op), Edge(r))
    case Pre(q, e) => Min(PrefixLevel(q), Edge(e))
    case Cond(_, _, f) => Min(LOWEST, Edge(f))
    case _ => 100
  }

  function Min(a: nat, b: nat): nat { if a < b then a else b }

  /** Operators along the left edge. */
  function Chain(t: Tree): nat {
    match t
    case Bin(l, _, _) => Chain(l) + 1
    case Cond(t, _, _) => Chain(t) + 1
    case Call(f, _) => Chain(f) + 1
    case _ => 0
  }

  /** The tree respects the table as an operand that takes operators stronger than `p`: operators along
      its left edge are stronger, what stands left of an operator would not rather take it, right
      operands fit in turn.  `d` is how deep expressions are nested here; nesting and chains have
      limits. */
  predicate Fits(t: Tree, p: nat, d: nat) {
    && d <= MAX_EXPR_DEPTH && Chain(t) <= MAX_EXPR_CHAIN
    && match t
       case Leaf(_) => true
       case Bin(l, op, r) => Binding(op) > p && Fits(l, p, d) && Binding(op) <= Edge(l)
         && Fits(r, RightLevel(op), d + 1)
       case Pre(q, e) => Fits(e, PrefixLevel(q), d + 1)
       case Cond(t, c, f) =>
         TERNARY > p && Fits(t, p, d) && TERNARY <= Edge(t) && Fits(c, LOWEST, d + 1) && Fits(f, LOWEST, d + 1)
       case Group(e) => Fits(e, LOWEST, d + 1)
       case Tuple(items, trailing) => TupleShape(items, trailing) && FitAll(items, d + 1)
       case Call(f, args) => CALL > p && Fits(f, p, d) && CALL <= Edge(f) && FitAll(args, d + 1)
  }

  /** `()`, `(a,)`, `(a, b)`, `(a, b,)`. */
  predicate TupleShape(items: seq<Tree>, trailing: bool) {
    (items == [] ==> !trailing) && (|items| == 1 ==> trailing)
  }

  predicate FitAll(ts: seq<Tree>, d: nat) {
    ts == [] || (Fits(ts[0], LOWEST, d) && FitAll(ts[1..], d))
  }
}
