/** The parser as functions on the tokens that are left, and what they find. */
module PrattSpec {
  import opened PrattGrammar

  /** A tree and the tokens behind it, or a syntax error. */
  datatype Parsed = Bad | Good(t: Tree, rest: seq<Token>)
  datatype ParsedAll = BadList | GoodList(ts: seq<Tree>, trailing: bool, rest: seq<Token>)

  /** An expression that takes operators stronger than `p`, at nesting depth `d`. */
  function ParseExpr(ts: seq<Token>, p: nat, d: nat): (r: Parsed)
    requires p >= LOWEST
    ensures r.Good? ==> |r.rest| < |ts|
    decreases |ts|, 3
  {
    if d > MAX_EXPR_DEPTH then Bad
    else match ParsePrefix(ts, d)
      case Bad => Bad
      case Good(t, rest) => Loop(t, rest, p, d, 0)
  }

  /** Operators that belong to `left`; `c` of them so far. */
  function Loop(left: Tree, ts: seq<Token>, p: nat, d: nat, c: nat): (r: Parsed)
    requires p >= LOWEST
    ensures r.Good? ==> |r.rest| <= |ts|
    decreases |ts|, 2
  {
    if ts == [] || PeekBinding(ts) <= p then Good(left, ts)
    else if c + 1 > MAX_EXPR_CHAIN then Bad
    else match Extend(left, ts, d)
      case Bad => Bad
      case Good(t, rest) => Loop(t, rest, p, d, c + 1)
  }

  /** One operator, ternary or call. */
  function Extend(left: Tree, ts: seq<Token>, d: nat): (r: Parsed)
    requires PeekBinding(ts) > LOWEST
    ensures r.Good? ==> |r.rest| < |ts|
    decreases |ts|, 1
  {
    match ts[0]
    case Operator(op) =>
      (match ParseExpr(ts[1..], RightLevel(op), d + 1)
       case Good(r, rest) => Good(Bin(left, op, r), rest)
       case Bad => Bad)
    case IfKw =>
      (match ParseExpr(ts[1..], LOWEST, d + 1)
       case Good(c, rest) =>
         if rest == [] || rest[0] != ElseKw then Bad
         else (match ParseExpr(rest[1..], LOWEST, d + 1)
               case Good(f, rest2) => Good(Cond(left, c, f), rest2)
               case Bad => Bad)
       case Bad => Bad)
    case LParen =>
      (match ParseArgs(ts[1..], d)
       case GoodList(args, _, rest) => Good(Call(left, args), rest)
       case BadList => Bad)
    case _ => assert false; Bad
  }

  function ParsePrefix(ts: seq<Token>, d: nat): (r: Parsed)
    ensures r.Good? ==> |r.rest| < |ts|
    decreases |ts|, 1
  {
    if ts == [] then Bad
    else match ts[0]
      case Value(n) => Good(Leaf(n), ts[1..])
      case NotKw => ParseUnary(Not, ts[1..], d)
      case TildeTok => ParseUnary(Complement, ts[1..], d)
      case Operator(op) => if op == Minus then ParseUnary(Negate, ts[1..], d) else Bad
      case LParen => ParseGroup(ts[1..], d)
      case _ => Bad
  }

  function ParseUnary(q: Unary, ts: seq<Token>, d: nat): (r: Parsed)
    ensures r.Good? ==> |r.rest| < |ts|
    decreases |ts|, 4
  {
    match ParseExpr(ts, PrefixLevel(q), d + 1)
    case Good(e, rest) => Good(Pre(q, e), rest)
    case Bad => Bad
  }

  /** Behind an opening parenthesis: a tuple, or an expression in parentheses. */
  function ParseGroup(ts: seq<Token>, d: nat): (r: Parsed)
    ensures r.Good? ==> |r.rest| < |ts|
    decreases |ts|, 5
  {
    if ts == [] then Bad
    else if ts[0] == RParen then Good(Tuple([], false), ts[1..])
    else match ParseExpr(ts, LOWEST, d + 1)
      case Bad => Bad
      case Good(e, rest) =>
        if rest == [] then Bad
        else if rest[0] == Comma then
          (match ParseItems([e], rest, d)
           case GoodList(items, trailing, rest2) => if rest2 != []
             && rest2[0] == RParen then Good(Tuple(items, trailing), rest2[1..]) else Bad
           case BadList => Bad)
        else if rest[0] == RParen then Good(Group(e), rest[1..])
        else Bad
  }

  /** Further items of a tuple; a comma may be the last thing in it. */
  function ParseItems(items: seq<Tree>, ts: seq<Token>, d: nat): (r: ParsedAll)
    ensures r.GoodList? ==> |r.rest| <= |ts|
    decreases |ts|, 4
  {
    if ts == [] || ts[0] != Comma then GoodList(items, false, ts)
    else if |ts| > 1 && ts[1] == RParen then GoodList(items, true, ts[1..])
    else match ParseExpr(ts[1..], LOWEST, d + 1)
      case Good(e, rest) => ParseItems(items + [e], rest, d)
      case Bad => BadList
  }

  /** Behind the parenthesis of a call. */
  function ParseArgs(ts: seq<Token>, d: nat): (r: ParsedAll)
    ensures r.GoodList? ==> |r.rest| < |ts|
    decreases |ts|, 5
  {
    if ts == [] then BadList
    else if ts[0] == RParen then GoodList([], false, ts[1..])
    else match ParseExpr(ts, LOWEST, d + 1)
      case Good(e, rest) => ParseMoreArgs([e], rest, d)
      case Bad => BadList
  }

  function ParseMoreArgs(args: seq<Tree>, ts: seq<Token>, d: nat): (r: ParsedAll)
    ensures r.GoodList? ==> |r.rest| < |ts|
    decreases |ts|, 4
  {
    if ts == [] then BadList
    else if ts[0] == Comma then
      (match ParseExpr(ts[1..], LOWEST, d + 1)
       case Good(e, rest) => ParseMoreArgs(args + [e], rest, d)
       case Bad => BadList)
    else if ts[0] == RParen then GoodList(args, false, ts[1..])
    else BadList
  }

  // ---------------------------------------------------------------- one step of each function

  lemma ExprIs(ts: seq<Token>, p: nat, d: nat)
    requires p >= LOWEST
    ensures ParseExpr(ts, p, d) ==
      if d > MAX_EXPR_DEPTH then Bad
      else match ParsePrefix(ts, d) case Bad => Bad case Good(t, rest) => Loop(t, rest, p, d, 0)
  {
  }

  lemma LoopIs(left: Tree, ts: seq<Token>, p: nat, d: nat, c: nat)
    requires p >= LOWEST
    ensures Loop(left, ts, p, d, c) ==
      if ts == [] || PeekBinding(ts) <= p then Good(left, ts)
      else if c + 1 > MAX_EXPR_CHAIN then Bad
      else match Extend(left, ts, d) case Bad => Bad case Good(t, rest) => Loop(t, rest, p, d, c + 1)
  {
  }

  lemma ArgsIs(ts: seq<Token>, d: nat)
    ensures ParseArgs(ts, d) ==
      if ts == [] then BadList
      else if ts[0] == RParen then GoodList([], false, ts[1..])
      else match ParseExpr(ts, LOWEST, d + 1) case Good(e, rest) => ParseMoreArgs([e], rest, d) case Bad => BadList
  {
  }

  lemma MoreArgsIs(args: seq<Tree>, ts: seq<Token>, d: nat)
    ensures ParseMoreArgs(args, ts, d) ==
      if ts == [] then BadList
      else if ts[0] == Comma then
        (match ParseExpr(ts[1..], LOWEST, d + 1)
         case Good(e, rest) => ParseMoreArgs(args + [e], rest, d)
         case Bad => BadList)
      else if ts[0] == RParen then GoodList(args, false, ts[1..])
      else BadList
  {
  }

  lemma ItemsIs(items: seq<Tree>, ts: seq<Token>, d: nat)
    ensures ParseItems(items, ts, d) ==
      if ts == [] || ts[0] != Comma then GoodList(items, false, ts)
      else if |ts| > 1 && ts[1] == RParen then GoodList(items, true, ts[1..])
      else
        match ParseExpr(ts[1..], LOWEST, d + 1)
        case Good(e, rest) => ParseItems(items + [e], rest, d)
        case Bad => BadList
  {
  }
}
