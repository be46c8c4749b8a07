/** The parser as it runs: a cursor over the tokens, a depth counter, a list of errors. */
module PrattParser {
  import opened PrattGrammar
  import opened PrattSpec
  import opened Options
  import PrattAst

  class Parser {
    const tokens: seq<Token>
    /** The current token; the next one is the one peeked at. */
    var pos: nat
    var exprDepth: nat
    /** Where errors were reported. */
    var errorList: seq<nat>

    constructor (ts: seq<Token>)
      ensures tokens == ts && pos == 0 && exprDepth == 0 && errorList == []
    {
      tokens := ts;
      pos, exprDepth, errorList := 0, 0, [];
    }

    function From(k: nat): seq<Token> { if k <= |tokens| then tokens[k..] else [] }

    /** Behind the last token there are only others. */
    function TokenAt(k: nat): Token { if k < |tokens| then tokens[k] else Other }

    function Peek(): Token
      reads this
    {
      TokenAt(pos + 1)
    }

    lemma FromFirst(k: nat)
      ensures From(k) != [] <==> k < |tokens|
      ensures k < |tokens| ==> From(k)[0] == tokens[k] && From(k)[1..] == From(k + 1)
      ensures |From(k)| == if k <= |tokens| then |tokens| - k else 0
      ensures PeekBinding(From(k)) == TokenBinding(TokenAt(k))
    {
    }

    lemma HowMuchIsLeft()
      ensures forall k: nat :: |From(k)| == if k <= |tokens| then |tokens| - k else 0
    {
    }

    /** Less is left further on. */
    lemma Ahead(a: nat, b: nat)
      requires |From(b)| < |From(a)| && b <= |tokens|
      ensures b > a
    {
    }

    /** Result `e` of parsing what `r` says. */
    ghost predicate Result(e: Option<Ast>, r: Parsed, depth: nat, errors: seq<nat>)
      reads this
    {
      && exprDepth == depth
      && match r
         case Bad => e.None? && |errorList| > |errors|
         case Good(t, rest) => e == Some(Strip(t)) && errorList == errors && From(pos + 1) == rest && pos < |tokens|
    }

    /** What the tokens say: a tree is returned that they write from `start` up to the current one, and
        none only if they write none. */
    ghost predicate Answers(e: Option<Ast>, start: nat, p: nat, d: nat)
      reads this
    {
      match e
      case Some(tree) =>
        start <= pos < |tokens| && PrattAst.ReadsAs(tokens[start..], pos + 1 - start, tree, p, d)
      case None => forall n: nat, tree :: !PrattAst.ReadsAs(From(start), n, tree, p, d)
    }

    lemma Answered(e: Option<Ast>, start: nat, p: nat, d: nat)
      requires p >= LOWEST
      requires e.None? ==> ParseExpr(From(start), p, d).Bad?
      requires e.Some? ==>
        var r := ParseExpr(From(start), p, d);
        r.Good? && e.value == Strip(r.t) && From(pos + 1) == r.rest && pos < |tokens|
      ensures Answers(e, start, p, d)
    {
      hide ParseExpr, PrattAst.Spells;
      match e
      case Some(tree) =>
        FromFirst(start);
        assert |From(pos + 1)| < |From(start)|;
        assert tokens[start..][pos + 1 - start..] == From(pos + 1);
        PrattAst.ParsesAst(From(start), p, d, pos + 1 - start, tree);
      case None =>
        forall n: nat, tree ensures !PrattAst.ReadsAs(From(start), n, tree, p, d) {
          if n <= |From(start)| { PrattAst.ParsesAst(From(start), p, d, n, tree); }
        }
    }

    method NextParserToken()
      modifies this`pos
      ensures pos == old(pos) + 1
    {
      pos := pos + 1;
    }

    method AddError(at: nat)
      modifies this`errorList
      ensures |errorList| > |old(errorList)|
    {
      errorList := errorList + [at];
    }

    method ExpectPeek(t: Token) returns (ok: bool)
      modifies this`pos, this`errorList
      ensures ok <==> TokenAt(old(pos) + 1) == t
      ensures ok ==> pos == old(pos) + 1 && errorList == old(errorList)
      ensures !ok ==> |errorList| > |old(errorList)|
    {
      if Peek() == t { NextParserToken(); return true; }
      AddError(pos + 1);
      return false;
    }

    /** An expression from the current token on; afterwards its last token is current. */
    method ParseExpression(precedence: nat) returns (e: Option<Ast>)
      requires precedence >= LOWEST
      modifies this
      ensures Result(e, ParseExpr(From(old(pos)), precedence, old(exprDepth) + 1), old(exprDepth), old(errorList))
      ensures Answers(e, old(pos), precedence, old(exprDepth) + 1)
      decreases |From(pos)|, 4
    {
      hide Answers, From, ParseExpr, Strip;
      ghost var start, d := pos, exprDepth + 1;
      exprDepth := exprDepth + 1;
      if exprDepth > MAX_EXPR_DEPTH {
        ExprIs(From(pos), precedence, exprDepth);
        AddError(pos);
        exprDepth := exprDepth - 1;
        Answered(None, start, precedence, d);
        return None;
      }
      e := ParseChain(precedence);
      exprDepth := exprDepth - 1;
      Answered(e, start, precedence, d);
    }

    /** An expression and its chain of operators, inside the depth limit. */
    method ParseChain(precedence: nat) returns (e: Option<Ast>)
      requires precedence >= LOWEST && exprDepth <= MAX_EXPR_DEPTH
      modifies this
      ensures Result(e, ParseExpr(From(old(pos)), precedence, old(exprDepth)), old(exprDepth), old(errorList))
      decreases |From(pos)|, 3
    {
      hide Answers, From, ParseExpr, Loop, ParsePrefix, Extend, Strip;
      ghost var start, d, errors := pos, exprDepth, errorList;
      ghost var whole := ParseExpr(From(start), precedence, d);
      ExprIs(From(start), precedence, d);
      e := ParsePrefixAt();
      if e.None? { return; }
      var leftExp := e.value;
      ghost var left := ParsePrefix(From(start), d).t;
      var chainLen := 0;
      Ahead(start, pos + 1);
      FromFirst(pos + 1);
      while pos + 1 < |tokens| && precedence < TokenBinding(Peek())
        invariant start <= pos < |tokens| && exprDepth == d && errorList == errors && leftExp == Strip(left)
            && chainLen >= 0
        invariant whole == Loop(left, From(pos + 1), precedence, d, chainLen)
        decreases |From(pos + 1)|
      {
        FromFirst(pos + 1);
        LoopIs(left, From(pos + 1), precedence, d, chainLen);
        chainLen := chainLen + 1;
        if chainLen > MAX_EXPR_CHAIN {
          AddError(pos);
          return None;
        }
        ghost var at := pos + 1;
        ghost var r := Extend(left, From(at), d);
        NextParserToken();
        e := ExtendAt(leftExp, left);
        if e.None? { return; }
        Ahead(at, pos + 1);
        left := r.t;
        leftExp := e.value;
      }
      FromFirst(pos + 1);
      LoopIs(left, From(pos + 1), precedence, d, chainLen);
      e := Some(leftExp);
    }

    /** The operator at the current token, and its right side. */
    method ExtendAt(leftExp: Ast, ghost left: Tree) returns (e: Option<Ast>)
      requires leftExp == Strip(left) && pos < |tokens| && TokenBinding(tokens[pos]) > LOWEST
      requires PeekBinding(From(pos)) > LOWEST
      modifies this
      ensures Result(e, Extend(left, From(old(pos)), old(exprDepth)), old(exprDepth), old(errorList))
      decreases |From(pos)|, 1
    {
      hide Answers, From, ParseExpr, ParseArgs;
      ghost var start := pos;
      FromFirst(pos);
      match tokens[pos] {
        case Operator(op) =>
          NextParserToken();
          e := ParseExpression(RightLevel(op));
          if e.Some? { e := Some(Infix(op, leftExp, e.value)); }
        case IfKw => e := ParseConditional(leftExp, left);
        case LParen =>
          var args;
          args := ParseCallArguments();
          e := if args.None? then None else Some(CallExpr(leftExp, args.value));
      }
    }

    method ParseConditional(thenExp: Ast, ghost left: Tree) returns (e: Option<Ast>)
      requires thenExp == Strip(left) && pos < |tokens| && tokens[pos] == IfKw && PeekBinding(From(pos)) > LOWEST
      modifies this
      ensures Result(e, Extend(left, From(old(pos)), old(exprDepth)), old(exprDepth), old(errorList))
      decreases |From(pos)|, 0
    {
      hide Answers, From, ParseExpr, ParseArgs;
      ghost var start := pos;
      FromFirst(pos);
      NextParserToken();
      var c := ParseExpression(LOWEST);
      if c.None? { return None; }
      Ahead(start, pos + 1);
      FromFirst(pos + 1);
      var ok := ExpectPeek(ElseKw);
      if !ok { return None; }
      NextParserToken();
      var f := ParseExpression(LOWEST);
      if f.None? { return None; }
      e := Some(Conditional(thenExp, c.value, f.value));
    }

    /** The arguments of a call, the parenthesis being current. */
    method ParseCallArguments() returns (args: Option<seq<Ast>>)
      requires pos < |tokens|
      modifies this
      ensures ListResult(args, ParseArgs(From(old(pos) + 1), old(exprDepth)), old(exprDepth), old(errorList))
      decreases |From(pos)|, 0
    {
      hide Answers, From, ParseExpr, ParseMoreArgs, StripAll;
      ghost var start, d, errors := pos, exprDepth, errorList;
      FromFirst(pos); FromFirst(pos + 1); FromFirst(pos + 2);
      ArgsIs(From(pos + 1), d);
      NoStrips();
      if Peek() == RParen {
        NextParserToken();
        return Some([]);
      }
      NextParserToken();
      var first := ParseExpression(LOWEST);
      if first.None? {
        FromFirst(start + 1);
        return None;
      }
      ghost var t := ParseExpr(From(start + 1), LOWEST, d + 1).t;
      Ahead(start + 1, pos + 1);
      FromFirst(pos);
      args := ParseMoreArguments(first.value, t);
    }

    method ParseMoreArguments(first: Ast, ghost t: Tree) returns (args: Option<seq<Ast>>)
      requires pos < |tokens| && first == Strip(t)
      modifies this
      ensures ListResult(args, ParseMoreArgs([t], From(old(pos) + 1), old(exprDepth)), old(exprDepth), old(errorList))
      decreases |From(pos)|, 1
    {
      hide Answers, From, ParseExpr, ParseMoreArgs, StripAll;
      ghost var start, d, errors := pos, exprDepth, errorList;
      var list := [first];
      ghost var trees := [t];
      ghost var whole := ParseMoreArgs([t], From(pos + 1), d);
      StripOne(t);
      while Peek() == Comma
        invariant start <= pos < |tokens| && exprDepth == d && errorList == errors && list == StripAll(trees)
        invariant whole == ParseMoreArgs(trees, From(pos + 1), d)
        decreases |From(pos)|
      {
        FromFirst(pos + 1); FromFirst(pos);
        MoreArgsIs(trees, From(pos + 1), d);
        NextParserToken();
        var arg;
        ghost var u;
        arg, u := ParseNext();
        if arg.None? { return None; }
        FromFirst(pos);
        StripSnoc(trees, u);
        trees := trees + [u];
        list := list + [arg.value];
      }
      FromFirst(pos + 1);
      MoreArgsIs(trees, From(pos + 1), d);
      var ok := ExpectPeek(RParen);
      if !ok { return None; }
      args := Some(list);
    }

    /** The expression behind the current comma. */
    method ParseNext() returns (e: Option<Ast>, ghost t: Tree)
      requires pos < |tokens|
      modifies this
      ensures exprDepth == old(exprDepth)
      ensures var r := ParseExpr(From(old(pos) + 1), LOWEST, old(exprDepth) + 1);
        match r
        case Bad => e.None? && |errorList| > |old(errorList)|
        case Good(u, rest) =>
          e == Some(Strip(u)) && t == u && errorList == old(errorList) && From(pos + 1) == rest
          && old(pos) < pos < |tokens|
      decreases |From(pos)|, 0
    {
      hide Answers, From, ParseExpr;
      FromFirst(pos); FromFirst(pos + 1);
      ghost var at := pos + 1;
      ghost var r := ParseExpr(From(at), LOWEST, exprDepth + 1);
      NextParserToken();
      e := ParseExpression(LOWEST);
      t := if r.Good? then r.t else Leaf(0);
      if e.Some? { Ahead(at, pos + 1); }
    }

    ghost predicate ListResult(e: Option<seq<Ast>>, r: ParsedAll, depth: nat, errors: seq<nat>)
      reads this
    {
      && exprDepth == depth
      && match r
         case BadList => e.None? && |errorList| > |errors|
         case GoodList(ts, _, rest) =>
           e == Some(StripAll(ts)) && errorList == errors && From(pos + 1) == rest && pos < |tokens|
    }

    /** An expression's first part. */
    method ParsePrefixAt() returns (e: Option<Ast>)
      modifies this
      ensures Result(e, ParsePrefix(From(old(pos)), old(exprDepth)), old(exprDepth), old(errorList))
      decreases |From(pos)|, 2
    {
      FromFirst(pos);
      match TokenAt(pos) {
        case Value(n) => e := Some(Literal(n));
        case NotKw => e := ParseUnaryAt(Not);
        case TildeTok => e := ParseUnaryAt(Complement);
        case Operator(op) =>
          if op == Minus { e := ParseUnaryAt(Negate); } else { AddError(pos); e := None; }
        case LParen => e := ParseGroupedExpression();
        case _ => AddError(pos); e := None;
      }
    }

    method ParseUnaryAt(q: Unary) returns (e: Option<Ast>)
      requires pos < |tokens|
      modifies this
      ensures Result(e, ParseUnary(q, From(old(pos) + 1), old(exprDepth)), old(exprDepth), old(errorList))
      decreases |From(pos)|, 0
    {
      hide Answers, From, ParseExpr;
      FromFirst(pos); FromFirst(pos + 1);
      NextParserToken();
      e := ParseExpression(PrefixLevel(q));
      if e.Some? { e := Some(Prefix(q, e.value)); }
    }

    /** `()`, `(e)`, or a tuple. */
    method ParseGroupedExpression() returns (e: Option<Ast>)
      requires pos < |tokens|
      modifies this
      ensures Result(e, ParseGroup(From(old(pos) + 1), old(exprDepth)), old(exprDepth), old(errorList))
      decreases |From(pos)|, 1
    {
      hide Answers, From, ParseExpr, ParseItems, StripAll;
      ghost var start, d := pos, exprDepth;
      FromFirst(pos); FromFirst(pos + 1); FromFirst(pos + 2);
      if Peek() == RParen {
        NextParserToken();
        NoStrips();
        return Some(TupleLit([]));
      }
      NextParserToken();
      e := ParseExpression(LOWEST);
      if e.None? { return; }
      ghost var t := ParseExpr(From(start + 1), LOWEST, d + 1).t;
      Ahead(start + 1, pos + 1);
      FromFirst(pos + 1); FromFirst(pos);
      if Peek() == Comma {
        StripOne(t);
        e := ParseTupleRest(e.value, t);
        return;
      }
      var ok := ExpectPeek(RParen);
      if !ok { return None; }
    }

    /** The rest of a tuple, its first item being parsed and a comma next. */
    method ParseTupleRest(first: Ast, ghost t: Tree) returns (e: Option<Ast>)
      requires pos < |tokens| && Peek() == Comma && first == Strip(t)
      modifies this
      ensures var l := ParseItems([t], From(old(pos) + 1), old(exprDepth));
        Result(e, if l.GoodList? && l.rest != [] && l.rest[0] == RParen
                  then Good(Tuple(l.ts, l.trailing), l.rest[1..]) else Bad,
               old(exprDepth), old(errorList))
      decreases |From(pos)|, 1
    {
      hide From, ParseItems, StripAll, Strip;
      ghost var l := ParseItems([t], From(pos + 1), exprDepth);
      var items := ParseTupleItems(first, t);
      if items.None? { return None; }
      FromFirst(pos + 1); FromFirst(pos + 2);
      var ok := ExpectPeek(RParen);
      if !ok { return None; }
      StripTuple(l.ts, l.trailing);
      e := Some(TupleLit(items.value));
    }

    /** Commas and further items; a comma in front of the closing parenthesis ends them. */
    method ParseTupleItems(first: Ast, ghost t: Tree) returns (all: Option<seq<Ast>>)
      requires pos < |tokens| && Peek() == Comma && first == Strip(t)
      modifies this
      ensures ListResult(all, ParseItems([t], From(old(pos) + 1), old(exprDepth)), old(exprDepth), old(errorList))
      decreases |From(pos)|, 0
    {
      hide Answers, From, ParseExpr, ParseItems, StripAll, Strip;
      ghost var start, d, errors := pos, exprDepth, errorList;
      var items := [first];
      ghost var trees := [t];
      ghost var whole := ParseItems([t], From(pos + 1), d);
      StripOne(t);
      HowMuchIsLeft();
      while Peek() == Comma
        invariant start <= pos < |tokens| && exprDepth == d && errorList == errors && items == StripAll(trees)
        invariant whole == ParseItems(trees, From(pos + 1), d)
        decreases |From(pos)|
      {
        FromFirst(pos + 1); FromFirst(pos + 2);
        ItemsIs(trees, From(pos + 1), d);
        NextParserToken();
        if Peek() == RParen { return Some(items); }
        var elem;
        ghost var u;
        elem, u := ParseNext();
        if elem.None? { return None; }
        StripSnoc(trees, u);
        trees := trees + [u];
        items := items + [elem.value];
      }
      FromFirst(pos + 1);
      ItemsIs(trees, From(pos + 1), d);
      all := Some(items);
    }
  }

  lemma StripTuple(ts: seq<Tree>, trailing: bool)
    ensures Strip(Tuple(ts, trailing)) == TupleLit(StripAll(ts))
  {
    hide StripAll;
  }

  lemma StripOne(t: Tree)
    ensures StripAll([t]) == [Strip(t)]
  {
    assert [t][1..] == [];
  }

  lemma NoStrips()
    ensures StripAll([]) == []
  {
  }

  lemma {:induction false} StripSnoc(ts: seq<Tree>, t: Tree)
    ensures StripAll(ts + [t]) == StripAll(ts) + [Strip(t)]
  {
    if ts == [] {
      assert [t][1..] == [];
    } else {
      assert (ts + [t])[1..] == ts[1..] + [t];
      StripSnoc(ts[1..], t);
    }
  }
}
