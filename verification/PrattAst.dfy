/** Which tokens write which of the parser's trees: a grammar with binding strengths, and that the parser
 returns a tree exactly if this grammar has it. */
module PrattAst {
  import opened PrattGrammar
  import opened PrattSpec
  import opened PrattProofs

  // ---------------------------------------------------------------- tokens that write a tree

  /** Where an expression stands: it takes operators that bind more strongly than `low`, what comes
      behind it binds as strongly as `next`, it is nested this deep, and so many operators may still
      follow each other on its left edge. */
  datatype Place = Place(low: nat, next: nat, depth: nat, chain: nat)

  /** A place of its own: inside parentheses, between commas, between `if` and `else`. */
  function Alone(depth: nat): Place { Place(LOWEST, LOWEST, depth, MAX_EXPR_CHAIN) }

  predicate InParentheses(ts: seq<Token>) { |ts| >= 2 && ts[0] == LParen && ts[|ts| - 1] == RParen }

  /** In this place these tokens write this tree: its parts in order, its operators between them, and
      parentheses around any part. */
  ghost predicate Spells(ts: seq<Token>, e: Ast, at: Place)
    decreases |ts|, 1
  {
    && at.depth <= MAX_EXPR_DEPTH
    && (|| (InParentheses(ts) && Spells(ts[1..|ts| - 1], e, Alone(at.depth + 1)))
        || match e
           case Literal(n) => ts == [Value(n)]
           case Infix(op, l, r) => exists k: nat :: InfixAt(ts, k, op, l, r, at)
           case Prefix(q, x) =>
             && ts != []
             && ts[0] == (match q case Negate => Operator(Minus) case Complement => TildeTok case Not => NotKw)
             && at.next <= PrefixLevel(q)
             && Spells(ts[1..], x, Place(PrefixLevel(q), at.next, at.depth + 1, MAX_EXPR_CHAIN))
           case Conditional(t, c, f) => exists j: nat, k: nat :: ConditionalAt(ts, j, k, t, c, f, at)
           case TupleLit(items) =>
             && InParentheses(ts)
             && ((|items| != 1 && Lists(ts[1..|ts| - 1], items, at.depth + 1))
                 || (items != [] && |ts| > 2 && ts[|ts| - 2] == Comma && Lists(ts[1..|ts| - 2], items, at.depth + 1)))
           case CallExpr(f, args) => exists k: nat :: CallAt(ts, k, f, args, at))
  }

  /** The operator stands at `k`. Both neighbours of an operand may want it: the left operand goes to
      this operator only if nothing in it binds more loosely, the right one takes what binds more
      strongly than this operator's right side asks for. */
  ghost predicate InfixAt(ts: seq<Token>, k: nat, op: Op, l: Ast, r: Ast, at: Place)
    decreases |ts|, 0
  {
    && k < |ts| && ts[k] == Operator(op)
    && Binding(op) > at.low && at.next <= RightLevel(op) && at.chain > 0
    && Spells(ts[..k], l, Place(at.low, Binding(op), at.depth, at.chain - 1))
    && Spells(ts[k + 1..], r, Place(RightLevel(op), at.next, at.depth + 1, MAX_EXPR_CHAIN))
  }

  /** `t if c else f`, the `if` at `j` and the `else` at `k`. */
  ghost predicate ConditionalAt(ts: seq<Token>, j: nat, k: nat, t: Ast, c: Ast, f: Ast, at: Place)
    decreases |ts|, 0
  {
    && j < k < |ts| && ts[j] == IfKw && ts[k] == ElseKw
    && TERNARY > at.low && at.next <= LOWEST && at.chain > 0
    && Spells(ts[..j], t, Place(at.low, TERNARY, at.depth, at.chain - 1))
    && Spells(ts[j + 1..k], c, Alone(at.depth + 1))
    && Spells(ts[k + 1..], f, Place(LOWEST, at.next, at.depth + 1, MAX_EXPR_CHAIN))
  }

  /** The parenthesis of the call stands at `k`. */
  ghost predicate CallAt(ts: seq<Token>, k: nat, f: Ast, args: seq<Ast>, at: Place)
    decreases |ts|, 0
  {
    && k < |ts| && InParentheses(ts[k..])
    && CALL > at.low && at.chain > 0
    && Spells(ts[..k], f, Place(at.low, CALL, at.depth, at.chain - 1))
    && Lists(ts[k + 1..|ts| - 1], args, at.depth + 1)
  }

  /** Trees with commas between them. */
  ghost predicate Lists(ts: seq<Token>, es: seq<Ast>, depth: nat)
    decreases |ts|, 3
  {
    if es == [] then ts == []
    else if |es| == 1 then Spells(ts, es[0], Alone(depth))
    else exists k: nat :: ListAt(ts, k, es, depth)
  }

  ghost predicate ListAt(ts: seq<Token>, k: nat, es: seq<Ast>, depth: nat)
    requires es != []
    decreases |ts|, 2
  {
    k < |ts| && ts[k] == Comma && Spells(ts[..k], es[0], Alone(depth)) && Lists(ts[k + 1..], es[1..], depth)
  }

  // ---------------------------------------------------------------- what the parser finds is spelled

  lemma {:induction false} TreeSpells(t: Tree, at: Place)
    requires Fits(t, at.low, at.depth) && Chain(t) <= at.chain && at.next <= Edge(t)
    ensures Spells(Yield(t), Strip(t), at)
    decreases t, 1
  {
    match t
    case Leaf(_) =>
    case Bin(_, _, _) => BinSpells(t, at);
    case Pre(q, e) =>
      assert Yield(t)[1..] == Yield(e);
      TreeSpells(e, Place(PrefixLevel(q), at.next, at.depth + 1, MAX_EXPR_CHAIN));
    case Cond(_, _, _) => CondSpells(t, at);
    case Group(e) =>
      assert Yield(t)[1..|Yield(t)| - 1] == Yield(e);
      EdgeLow(e);
      TreeSpells(e, Alone(at.depth + 1));
    case Tuple(_, _) => TupleSpells(t, at);
    case Call(_, _) => CallSpells(t, at);
  }

  lemma {:induction false} BinSpells(t: Tree, at: Place)
    requires t.Bin? && Fits(t, at.low, at.depth) && Chain(t) <= at.chain && at.next <= Edge(t)
    ensures Spells(Yield(t), Strip(t), at)
    decreases t, 0
  {
    hide Spells, Yield, Strip;
    TreeSpells(t.l, Place(at.low, Binding(t.op), at.depth, at.chain - 1));
    TreeSpells(t.r, Place(RightLevel(t.op), at.next, at.depth + 1, MAX_EXPR_CHAIN));
    BinYield(t.l, t.op, t.r);
    StripBin(t.l, t.op, t.r);
    var ts, k := Yield(t), |Yield(t.l)|;
    assert ts[..k] == Yield(t.l) && ts[k + 1..] == Yield(t.r);
    SpellsInfix(ts, k, t.op, Strip(t.l), Strip(t.r), at);
  }

  lemma SpellsInfix(ts: seq<Token>, k: nat, op: Op, l: Ast, r: Ast, at: Place)
    requires at.depth <= MAX_EXPR_DEPTH && InfixAt(ts, k, op, l, r, at)
    ensures Spells(ts, Infix(op, l, r), at)
  {
  }

  lemma StripBin(l: Tree, op: Op, r: Tree)
    ensures Strip(Bin(l, op, r)) == Infix(op, Strip(l), Strip(r))
  {
  }

  lemma {:induction false} CondSpells(t: Tree, at: Place)
    requires t.Cond? && Fits(t, at.low, at.depth) && Chain(t) <= at.chain && at.next <= Edge(t)
    ensures Spells(Yield(t), Strip(t), at)
    decreases t, 0
  {
    hide Spells, Yield, Strip;
    TreeSpells(t.t, Place(at.low, TERNARY, at.depth, at.chain - 1));
    EdgeLow(t.c);
    TreeSpells(t.c, Alone(at.depth + 1));
    TreeSpells(t.f, Place(LOWEST, at.next, at.depth + 1, MAX_EXPR_CHAIN));
    CondParts(t.t, t.c, t.f);
    var ts, j := Yield(t), |Yield(t.t)|;
    var k := j + 1 + |Yield(t.c)|;
    FiveParts(Yield(t.t), IfKw, Yield(t.c), ElseKw, Yield(t.f), ts);
    SpellsConditional(ts, j, k, Strip(t.t), Strip(t.c), Strip(t.f), at);
  }

  lemma FiveParts(a: seq<Token>, x: Token, b: seq<Token>, y: Token, c: seq<Token>, ts: seq<Token>)
    requires ts == a + [x] + b + [y] + c
    ensures var j, k := |a|, |a| + 1 + |b|;
      && |ts| == k + 1 + |c| && ts[..j] == a && ts[j] == x && ts[j + 1..k] == b && ts[k] == y && ts[k + 1..] == c
  {
  }

  lemma CondParts(t: Tree, c: Tree, f: Tree)
    ensures Yield(Cond(t, c, f)) == Yield(t) + [IfKw] + Yield(c) + [ElseKw] + Yield(f)
    ensures Strip(Cond(t, c, f)) == Conditional(Strip(t), Strip(c), Strip(f))
  {
  }

  lemma SpellsConditional(ts: seq<Token>, j: nat, k: nat, t: Ast, c: Ast, f: Ast, at: Place)
    requires at.depth <= MAX_EXPR_DEPTH && ConditionalAt(ts, j, k, t, c, f, at)
    ensures Spells(ts, Conditional(t, c, f), at)
  {
  }

  lemma {:induction false} TupleSpells(t: Tree, at: Place)
    requires t.Tuple? && Fits(t, at.low, at.depth)
    ensures Spells(Yield(t), Strip(t), at)
    decreases t, 0
  {
    var ts := Yield(t);
    TreesSpell(t.items, at.depth + 1);
    if t.trailing {
      assert ts[1..|ts| - 2] == YieldAll(t.items);
      if t.items != [] { assert |YieldAll(t.items)| > 0; }
    } else {
      assert ts[1..|ts| - 1] == YieldAll(t.items);
    }
  }

  lemma {:induction false} CallSpells(t: Tree, at: Place)
    requires t.Call? && Fits(t, at.low, at.depth) && Chain(t) <= at.chain && at.next <= Edge(t)
    ensures Spells(Yield(t), Strip(t), at)
    decreases t, 0
  {
    TreeSpells(t.f, Place(at.low, CALL, at.depth, at.chain - 1));
    TreesSpell(t.args, at.depth + 1);
    var ts, k := Yield(t), |Yield(t.f)|;
    assert ts[..k] == Yield(t.f) && ts[k + 1..|ts| - 1] == YieldAll(t.args);
    assert CallAt(ts, k, Strip(t.f), StripAll(t.args), at);
  }

  lemma {:induction false} TreesSpell(trees: seq<Tree>, depth: nat)
    requires FitAll(trees, depth)
    ensures Lists(YieldAll(trees), StripAll(trees), depth) && |StripAll(trees)| == |trees|
    decreases trees
  {
    if trees != [] {
      EdgeLow(trees[0]);
      TreeSpells(trees[0], Alone(depth));
      TreesSpell(trees[1..], depth);
      var ts, k, es := YieldAll(trees), |Yield(trees[0])|, StripAll(trees);
      if |trees| == 1 {
        assert trees[1..] == [] && ts == Yield(trees[0]);
      } else {
        assert YieldMore(trees[1..]) == [Comma] + YieldAll(trees[1..]);
        assert ts[..k] == Yield(trees[0]) && ts[k + 1..] == YieldAll(trees[1..]) && es[1..] == StripAll(trees[1..]);
        assert ListAt(ts, k, es, depth);
      }
    }
  }

  // ---------------------------------------------------------------- what is spelled has its tree

  /** The tree, with the parentheses as they stand in the tokens. */
  ghost predicate TreeOf(t: Tree, ts: seq<Token>, e: Ast, at: Place) {
    && Yield(t) == ts && Strip(t) == e
    && Fits(t, at.low, at.depth) && Chain(t) <= at.chain && at.next <= Edge(t)
  }

  predicate Placed(at: Place) { at.next <= CALL && at.chain <= MAX_EXPR_CHAIN }

  lemma {:induction false} SpelledTree(ts: seq<Token>, e: Ast, at: Place) returns (t: Tree)
    requires Spells(ts, e, at) && Placed(at)
    ensures TreeOf(t, ts, e, at)
    decreases |ts|, 1
  {
    if InParentheses(ts) && Spells(ts[1..|ts| - 1], e, Alone(at.depth + 1)) {
      var x := SpelledTree(ts[1..|ts| - 1], e, Alone(at.depth + 1));
      t := Group(x);
      assert Yield(t) == ts;
    } else {
      match e
      case Literal(n) => t := Leaf(n);
      case Infix(op, l, r) => var k: nat :| InfixAt(ts, k, op, l, r, at); t := InfixTree(ts, k, op, l, r, at);
      case Prefix(q, x) =>
        var y := SpelledTree(ts[1..], x, Place(PrefixLevel(q), at.next, at.depth + 1, MAX_EXPR_CHAIN));
        t := Pre(q, y);
        assert Yield(t) == ts;
      case Conditional(c1, c2, c3) =>
        var j: nat, k: nat :| ConditionalAt(ts, j, k, c1, c2, c3, at);
        t := ConditionalTree(ts, j, k, c1, c2, c3, at);
      case TupleLit(items) => t := ItemsTree(ts, items, at);
      case CallExpr(f, args) => var k: nat :| CallAt(ts, k, f, args, at); t := CallTree(ts, k, f, args, at);
    }
  }

  lemma {:induction false} InfixTree(ts: seq<Token>, k: nat, op: Op, l: Ast, r: Ast, at: Place) returns (t: Tree)
    requires InfixAt(ts, k, op, l, r, at) && Placed(at) && at.depth <= MAX_EXPR_DEPTH
    ensures TreeOf(t, ts, Infix(op, l, r), at)
    decreases |ts|, 0
  {
    hide TreeOf, Spells;
    var left, right := Place(at.low, Binding(op), at.depth, at.chain - 1),
        Place(RightLevel(op), at.next, at.depth + 1, MAX_EXPR_CHAIN);
    var x := SpelledTree(ts[..k], l, left);
    var y := SpelledTree(ts[k + 1..], r, right);
    t := Bin(x, op, y);
    BinOf(x, y, op, ts[..k], ts[k + 1..], l, r, left, right, at);
    assert ts == ts[..k] + [Operator(op)] + ts[k + 1..];
  }

  lemma BinOf(x: Tree, y: Tree, op: Op, a: seq<Token>, b: seq<Token>, l: Ast, r: Ast, left: Place, right: Place,
              at: Place)
    requires Placed(at) && at.depth <= MAX_EXPR_DEPTH && at.chain > 0
    requires Binding(op) > at.low && at.next <= RightLevel(op)
    requires left == Place(at.low, Binding(op), at.depth, at.chain - 1) && TreeOf(x, a, l, left)
    requires right == Place(RightLevel(op), at.next, at.depth + 1, MAX_EXPR_CHAIN) && TreeOf(y, b, r, right)
    ensures TreeOf(Bin(x, op, y), a + [Operator(op)] + b, Infix(op, l, r), at)
  {
  }

  lemma {:induction false} ConditionalTree(ts: seq<Token>, j: nat, k: nat, c1: Ast, c2: Ast, c3: Ast, at: Place)
    returns (t: Tree)
    requires ConditionalAt(ts, j, k, c1, c2, c3, at) && Placed(at) && at.depth <= MAX_EXPR_DEPTH
    ensures TreeOf(t, ts, Conditional(c1, c2, c3), at)
    decreases |ts|, 0
  {
    hide TreeOf, Spells;
    var left, right := Place(at.low, TERNARY, at.depth, at.chain - 1),
        Place(LOWEST, at.next, at.depth + 1, MAX_EXPR_CHAIN);
    var x := SpelledTree(ts[..j], c1, left);
    var y := SpelledTree(ts[j + 1..k], c2, Alone(at.depth + 1));
    var z := SpelledTree(ts[k + 1..], c3, right);
    t := Cond(x, y, z);
    CondOf(x, y, z, [ts[..j], ts[j + 1..k], ts[k + 1..]], [c1, c2, c3], left, right, at);
    assert ts == ts[..j] + [IfKw] + ts[j + 1..k] + [ElseKw] + ts[k + 1..];
  }

  lemma CondOf(x: Tree, y: Tree, z: Tree, parts: seq<seq<Token>>, es: seq<Ast>, left: Place, right: Place, at: Place)
    requires Placed(at) && at.depth <= MAX_EXPR_DEPTH && at.chain > 0 && |parts| == |es| == 3
    requires TERNARY > at.low && at.next <= LOWEST
    requires left == Place(at.low, TERNARY, at.depth, at.chain - 1) && TreeOf(x, parts[0], es[0], left)
    requires TreeOf(y, parts[1], es[1], Alone(at.depth + 1))
    requires right == Place(LOWEST, at.next, at.depth + 1, MAX_EXPR_CHAIN) && TreeOf(z, parts[2], es[2], right)
    ensures TreeOf(Cond(x, y, z), parts[0] + [IfKw] + parts[1] + [ElseKw] + parts[2],
        Conditional(es[0], es[1], es[2]), at)
  {
  }

  lemma {:induction false} ItemsTree(ts: seq<Token>, items: seq<Ast>, at: Place) returns (t: Tree)
    requires at.depth <= MAX_EXPR_DEPTH && InParentheses(ts) && Placed(at)
    requires || (|items| != 1 && Lists(ts[1..|ts| - 1], items, at.depth + 1))
          || (items != [] && |ts| > 2 && ts[|ts| - 2] == Comma && Lists(ts[1..|ts| - 2], items, at.depth + 1))
    ensures TreeOf(t, ts, TupleLit(items), at)
    decreases |ts|, 0
  {
    if |items| != 1 && Lists(ts[1..|ts| - 1], items, at.depth + 1) {
      var trees := ListedTrees(ts[1..|ts| - 1], items, at.depth + 1);
      t := Tuple(trees, false);
      assert Yield(t) == ts;
    } else {
      var trees := ListedTrees(ts[1..|ts| - 2], items, at.depth + 1);
      t := Tuple(trees, true);
      assert Yield(t) == ts;
    }
  }

  lemma {:induction false} CallTree(ts: seq<Token>, k: nat, f: Ast, args: seq<Ast>, at: Place) returns (t: Tree)
    requires CallAt(ts, k, f, args, at) && Placed(at) && at.depth <= MAX_EXPR_DEPTH
    ensures TreeOf(t, ts, CallExpr(f, args), at)
    decreases |ts|, 0
  {
    var x := SpelledTree(ts[..k], f, Place(at.low, CALL, at.depth, at.chain - 1));
    var trees := ListedTrees(ts[k + 1..|ts| - 1], args, at.depth + 1);
    t := Call(x, trees);
    assert Yield(t) == ts;
  }

  lemma {:induction false} ListedTrees(ts: seq<Token>, es: seq<Ast>, depth: nat) returns (trees: seq<Tree>)
    requires Lists(ts, es, depth)
    ensures TreesOf(trees, ts, es, depth)
    decreases |ts|, 2
  {
    hide TreeOf, TreesOf, Spells;
    if es == [] {
      trees := [];
      NoTrees(depth);
    } else if |es| == 1 {
      var x := SpelledTree(ts, es[0], Alone(depth));
      trees := [x];
      OneTree(x, ts, es[0], depth);
      assert es == [es[0]];
    } else {
      var k: nat :| ListAt(ts, k, es, depth);
      var x := SpelledTree(ts[..k], es[0], Alone(depth));
      var more := ListedTrees(ts[k + 1..], es[1..], depth);
      trees := [x] + more;
      MoreTrees(x, more, ts[..k], ts[k + 1..], es[0], es[1..], depth);
      assert es == [es[0]] + es[1..] && ts == ts[..k] + [Comma] + ts[k + 1..];
    }
  }

  ghost predicate TreesOf(trees: seq<Tree>, ts: seq<Token>, es: seq<Ast>, depth: nat) {
    YieldAll(trees) == ts && StripAll(trees) == es && FitAll(trees, depth) && |trees| == |es|
  }

  lemma NoTrees(depth: nat)
    ensures TreesOf([], [], [], depth)
  {
  }

  lemma OneTree(x: Tree, ts: seq<Token>, e: Ast, depth: nat)
    requires TreeOf(x, ts, e, Alone(depth))
    ensures TreesOf([x], ts, [e], depth)
  {
    assert [x][1..] == [];
    assert YieldAll([x]) == Yield(x) + YieldMore([]);
  }

  lemma MoreTrees(x: Tree, more: seq<Tree>, a: seq<Token>, b: seq<Token>, e: Ast, es: seq<Ast>, depth: nat)
    requires TreeOf(x, a, e, Alone(depth)) && TreesOf(more, b, es, depth) && es != []
    ensures TreesOf([x] + more, a + [Comma] + b, [e] + es, depth)
  {
    hide Yield, Strip, Fits;
    var all := [x] + more;
    assert all[0] == x && all[1..] == more;
    assert YieldMore(more) == [Comma] + YieldAll(more);
  }

  // ---------------------------------------------------------------- the main results

  /** The first `n` tokens write this tree where operators stronger than `p` are taken, and what follows
      does not belong to it. */
  ghost predicate ReadsAs(ts: seq<Token>, n: nat, e: Ast, p: nat, d: nat) {
    && n <= |ts| && PeekBinding(ts[n..]) <= p
    && Spells(ts[..n], e, Place(p, PeekBinding(ts[n..]), d, MAX_EXPR_CHAIN))
  }

  /** The parser returns a tree exactly if the tokens write it. */
  lemma ParsesAst(ts: seq<Token>, p: nat, d: nat, n: nat, e: Ast)
    requires p >= LOWEST && n <= |ts|
    ensures ReadsAs(ts, n, e, p, d) <==>
      var r := ParseExpr(ts, p, d); r.Good? && r.rest == ts[n..] && Strip(r.t) == e
  {
    hide ParseExpr, Spells;
    var at := Place(p, PeekBinding(ts[n..]), d, MAX_EXPR_CHAIN);
    var r := ParseExpr(ts, p, d);
    ExprSound(ts, p, d);
    if r.Good? && r.rest == ts[n..] && Strip(r.t) == e {
      assert ts == ts[..n] + ts[n..];
      assert Yield(r.t) == ts[..n];
      TreeSpells(r.t, at);
    }
    if ReadsAs(ts, n, e, p, d) {
      var t := SpelledTree(ts[..n], e, at);
      assert Yield(t) + ts[n..] == ts;
      ExprRead(t, ts[n..], p, d);
    }
  }

  /** So no tokens write two trees, and there is never a second place to stop. */
  lemma AstIsUnique(ts: seq<Token>, p: nat, d: nat, n1: nat, e1: Ast, n2: nat, e2: Ast)
    requires p >= LOWEST && ReadsAs(ts, n1, e1, p, d) && ReadsAs(ts, n2, e2, p, d)
    ensures n1 == n2 && e1 == e2
  {
    ParsesAst(ts, p, d, n1, e1);
    ParsesAst(ts, p, d, n2, e2);
    assert |ts[n1..]| == |ts| - n1 && |ts[n2..]| == |ts| - n2;
  }

  // ---------------------------------------------------------------- the order of the operators

  /** From the loosest to the tightest. */
  const LADDER: seq<set<Op>> := [
    {Coalesce}, {OrOp}, {AndOp}, {EqOp, NeOp}, {LtOp, GtOp, LeOp, GeOp, InOp, IsOp}, {Range}, {Pipe}, {Caret}, {Amp},
    {ShiftL, ShiftR}, {Plus, Minus}, {Star, Slash, SlashSlash, Percent}, {Power}]

  predicate OnRung(op: Op, i: nat) { i < |LADDER| && op in LADDER[i] }

  ghost predicate Tighter(op2: Op, op1: Op) { exists i: nat, j: nat :: i < j && OnRung(op1, i) && OnRung(op2, j) }

  /** `a op1 b op2 c`: the tighter operator takes `b`, and on one rung the first, but for `**` the second. */
  lemma ThreeOperands(a: nat, op1: Op, b: nat, op2: Op, c: nat)
    ensures var r := ParseExpr([Value(a), Operator(op1), Value(b), Operator(op2), Value(c)], LOWEST, 1);
      && r.Good? && r.rest == []
      && Strip(r.t) ==
        if Tighter(op2, op1) || (op1 == Power && op2 == Power)
        then Infix(op1, Literal(a), Infix(op2, Literal(b), Literal(c)))
        else Infix(op2, Infix(op1, Literal(a), Literal(b)), Literal(c))
  {
    hide ParseExpr, Yield, Fits, Tighter, RightLevel;
    ThreeLeaves(a, op1, b, op2, c);
    TighterBinds(op2, op1);
    PowerAlone(op1, op2);
    var x, y, z := Leaf(a), Leaf(b), Leaf(c);
    StripBin(x, op1, Bin(y, op2, z));
    StripBin(y, op2, z);
    StripBin(Bin(x, op1, y), op2, z);
    StripBin(x, op1, y);
    assert Strip(x) == Literal(a) && Strip(y) == Literal(b) && Strip(z) == Literal(c);
  }

  /** Only `**` takes its own kind on its right. */
  lemma PowerAlone(op1: Op, op2: Op)
    ensures Binding(op2) > RightLevel(op1) <==> Binding(op2) > Binding(op1) || (op1 == Power && op2 == Power)
  {
  }

  lemma ThreeLeaves(a: nat, op1: Op, b: nat, op2: Op, c: nat)
    ensures var x, y, z := Leaf(a), Leaf(b), Leaf(c);
      ParseExpr([Value(a), Operator(op1), Value(b), Operator(op2), Value(c)], LOWEST, 1) == Good(
        if Binding(op2) > RightLevel(op1) then Bin(x, op1, Bin(y, op2, z)) else Bin(Bin(x, op1, y), op2, z), [])
  {
    hide ParseExpr;
    Neighbours(Leaf(a), op1, Leaf(b), op2, Leaf(c), [], LOWEST, 1);
    assert Yield(Leaf(a)) + [Operator(op1)] + (Yield(Leaf(b)) + [Operator(op2)] + Yield(Leaf(c))) + []
        == [Value(a), Operator(op1), Value(b), Operator(op2), Value(c)];
  }

  lemma TighterBinds(op2: Op, op1: Op)
    ensures Tighter(op2, op1) <==> Binding(op2) > Binding(op1)
  {
    OneRung(op1);
    OneRung(op2);
    assert OnRung(op1, Rung(op1)) && OnRung(op2, Rung(op2));
  }

  function Rung(op: Op): nat { if op == Power then 12 else Binding(op) - 3 }

  lemma OneRung(op: Op)
    ensures forall i: nat :: OnRung(op, i) <==> i == Rung(op)
  {
    forall i: nat ensures OnRung(op, i) <==> i == Rung(op) { OnlyRung(op, i); }
  }

  lemma OnlyRung(op: Op, i: nat)
    ensures OnRung(op, i) <==> i == Rung(op)
  {
    hide OnRung, Rung;
    if i < 4 { LooseRungs(op, i); } else if i < 9 { MiddleRungs(op, i); } else { TightRungs(op, i); }
  }

  lemma LooseRungs(op: Op, i: nat)
    requires i < 4
    ensures OnRung(op, i) <==> i == Rung(op)
  {
    assert i == 0 || i == 1 || i == 2 || i == 3;
  }

  lemma MiddleRungs(op: Op, i: nat)
    requires 4 <= i < 9
    ensures OnRung(op, i) <==> i == Rung(op)
  {
    assert i == 4 || i == 5 || i == 6 || i == 7 || i == 8;
  }

  lemma TightRungs(op: Op, i: nat)
    requires 9 <= i
    ensures OnRung(op, i) <==> i == Rung(op)
  {
    assert i == 9 || i == 10 || i == 11 || i == 12 || i > 12;
  }

  /** `-a op b`, `~a op b`, `not a op b`: the signs take only `**` along, `not` all that is tighter than
      `and`. */
  lemma PrefixThenInfix(q: Unary, a: nat, op: Op, b: nat)
    ensures var r := ParseExpr([PrefixToken(q), Value(a), Operator(op), Value(b)], LOWEST, 1);
      && r.Good? && r.rest == []
      && Strip(r.t) ==
        if op == Power || (q == Not && Tighter(op, AndOp)) then Prefix(q, Infix(op, Literal(a), Literal(b)))
        else Infix(op, Prefix(q, Literal(a)), Literal(b))
  {
    hide ParseExpr;
    TighterBinds(op, AndOp);
    var x, y := Leaf(a), Leaf(b);
    var ts := [PrefixToken(q), Value(a), Operator(op), Value(b)];
    StripBin(x, op, y);
    StripBin(Pre(q, x), op, y);
    var t := if Binding(op) > PrefixLevel(q) then Pre(q, Bin(x, op, y)) else Bin(Pre(q, x), op, y);
    assert Strip(Pre(q, x)) == Prefix(q, Literal(a)) && Strip(Pre(q, Bin(x, op, y))) == Prefix(q, Strip(Bin(x, op, y)));
    assert Yield(t) == ts by { PrefixYield(q, x, op, y); }
    assert Yield(t) + [] == ts;
    PrefixFits(q, a, op, b);
    EdgeLow(t);
    ExprRead(t, [], LOWEST, 1);
  }

  /** Two operands with an operator between them. */
  lemma PairFits(a: nat, op: Op, b: nat, p: nat, d: nat)
    requires p < Binding(op) && d < MAX_EXPR_DEPTH
    ensures var t := Bin(Leaf(a), op, Leaf(b)); Fits(t, p, d) && Chain(t) == 1 && Edge(t) == RightLevel(op)
  {
    assert Fits(Leaf(a), p, d) && Fits(Leaf(b), RightLevel(op), d + 1);
    assert Chain(Leaf(a)) == 0 && Edge(Leaf(a)) == Edge(Leaf(b)) == 100;
  }

  lemma PrefixFits(q: Unary, a: nat, op: Op, b: nat)
    ensures Binding(op) > PrefixLevel(q) ==> Fits(Pre(q, Bin(Leaf(a), op, Leaf(b))), LOWEST, 1)
    ensures Binding(op) <= PrefixLevel(q) ==> Fits(Bin(Pre(q, Leaf(a)), op, Leaf(b)), LOWEST, 1)
  {
    hide RightLevel, PrefixLevel;
    if Binding(op) > PrefixLevel(q) {
      PairFits(a, op, b, PrefixLevel(q), 2);
    } else {
      assert Fits(Leaf(a), PrefixLevel(q), 2) && Fits(Leaf(b), RightLevel(op), 2);
      assert Edge(Leaf(a)) == 100 && PrefixLevel(q) < 100 by { LowPrefix(q); }
      assert Fits(Pre(q, Leaf(a)), LOWEST, 1) && Edge(Pre(q, Leaf(a))) == PrefixLevel(q);
      assert Chain(Pre(q, Leaf(a))) == 0;
      Bound(op);
    }
  }

  lemma LowPrefix(q: Unary)
    ensures PrefixLevel(q) < 100
  {
  }

  lemma Bound(op: Op)
    ensures LOWEST < Binding(op) < CALL
  {
  }

  lemma PrefixYield(q: Unary, x: Tree, op: Op, y: Tree)
    ensures Yield(Pre(q, Bin(x, op, y))) == [PrefixToken(q)] + (Yield(x) + [Operator(op)] + Yield(y))
    ensures Yield(Bin(Pre(q, x), op, y)) == [PrefixToken(q)] + Yield(x) + [Operator(op)] + Yield(y)
  {
  }

  /** `a op1 b if c else d op2 e`: a conditional expression is looser than any operator on either side. */
  lemma AroundIf(a: nat, op1: Op, b: nat, c: nat, d: nat, op2: Op, e: nat)
    ensures var l, r := [Value(a), Operator(op1), Value(b)], [Value(d), Operator(op2), Value(e)];
      var p := ParseExpr(l + [IfKw] + [Value(c)] + [ElseKw] + r, LOWEST, 1);
      && p.Good? && p.rest == []
      && Strip(p.t) == Conditional(Infix(op1, Literal(a), Literal(b)), Literal(c), Infix(op2, Literal(d), Literal(e)))
  {
    hide ParseExpr;
    var l, r := Bin(Leaf(a), op1, Leaf(b)), Bin(Leaf(d), op2, Leaf(e));
    var t := Cond(l, Leaf(c), r);
    CondParts(l, Leaf(c), r);
    StripBin(Leaf(a), op1, Leaf(b));
    StripBin(Leaf(d), op2, Leaf(e));
    assert Strip(Leaf(a)) == Literal(a) && Strip(Leaf(b)) == Literal(b) && Strip(Leaf(c)) == Literal(c)
        && Strip(Leaf(d)) == Literal(d) && Strip(Leaf(e)) == Literal(e);
    assert Yield(l) == [Value(a), Operator(op1), Value(b)] && Yield(r) == [Value(d), Operator(op2), Value(e)];
    assert Yield(t) + [] == Yield(t);
    IfFits(a, op1, b, c, d, op2, e);
    EdgeLow(t);
    ExprRead(t, [], LOWEST, 1);
  }

  lemma IfFits(a: nat, op1: Op, b: nat, c: nat, d: nat, op2: Op, e: nat)
    ensures Fits(Cond(Bin(Leaf(a), op1, Leaf(b)), Leaf(c), Bin(Leaf(d), op2, Leaf(e))), LOWEST, 1)
  {
    Bound(op1);
    Bound(op2);
    PairFits(a, op1, b, LOWEST, 1);
    PairFits(d, op2, e, LOWEST, 2);
    assert Fits(Leaf(c), LOWEST, 2);
    assert RightLevel(op1) >= TERNARY;
    hide Binding, RightLevel;
    var l, r := Bin(Leaf(a), op1, Leaf(b)), Bin(Leaf(d), op2, Leaf(e));
    assert Chain(Cond(l, Leaf(c), r)) == 2;
  }

  /** `a op f(x)` and `-f(x)`: a call is tighter than any operator. */
  lemma CallsFirst(q: Unary, a: nat, op: Op, f: nat, x: nat)
    ensures var call := CallExpr(Literal(f), [Literal(x)]);
      var ts := [Value(f), LParen, Value(x), RParen];
      var p, r := ParseExpr([PrefixToken(q)] + ts, LOWEST, 1), ParseExpr([Value(a), Operator(op)] + ts, LOWEST, 1);
      && p.Good? && p.rest == [] && Strip(p.t) == Prefix(q, call)
      && r.Good? && r.rest == [] && Strip(r.t) == Infix(op, Literal(a), call)
  {
    hide ParseExpr;
    var call := Call(Leaf(f), [Leaf(x)]);
    var ts := [Value(f), LParen, Value(x), RParen];
    CallParts(f, x);
    CallFits(q, a, op, f, x);
    EdgeLow(Bin(Leaf(a), op, call));
    EdgeLow(Pre(q, call));
    PrefixedCall(q, call);
    BinYield(Leaf(a), op, call);
    StripBin(Leaf(a), op, call);
    assert [Value(a), Operator(op)] + ts == Yield(Bin(Leaf(a), op, call)) + [];
    ExprRead(Bin(Leaf(a), op, call), [], LOWEST, 1);
    ExprRead(Pre(q, call), [], LOWEST, 1);
  }

  lemma CallParts(f: nat, x: nat)
    ensures Yield(Call(Leaf(f), [Leaf(x)])) == [Value(f), LParen, Value(x), RParen]
    ensures Strip(Call(Leaf(f), [Leaf(x)])) == CallExpr(Literal(f), [Literal(x)])
  {
    assert [Leaf(x)][1..] == [] && StripAll([Leaf(x)]) == [Strip(Leaf(x))];
    assert YieldAll([Leaf(x)]) == Yield(Leaf(x)) + YieldMore([]);
    assert Yield(Leaf(x)) == [Value(x)] && Yield(Leaf(f)) == [Value(f)];
  }

  lemma CallFits(q: Unary, a: nat, op: Op, f: nat, x: nat)
    ensures var call := Call(Leaf(f), [Leaf(x)]);
      Fits(Bin(Leaf(a), op, call), LOWEST, 1) && Fits(Pre(q, call), LOWEST, 1)
  {
    hide RightLevel, PrefixLevel;
    var call := Call(Leaf(f), [Leaf(x)]);
    forall p: nat | p < CALL ensures Fits(call, p, 2) { OneArgument(f, x, p); }
    assert Edge(Leaf(a)) == 100 && Chain(Leaf(a)) == 0 && Fits(Leaf(a), LOWEST, 1);
    Bound(op);
    assert RightLevel(op) < CALL && PrefixLevel(q) < CALL by { Levels(op, q); }
    assert Fits(call, RightLevel(op), 2) && Fits(call, PrefixLevel(q), 2);
  }

  lemma Levels(op: Op, q: Unary)
    ensures RightLevel(op) < CALL && PrefixLevel(q) < CALL
  {
  }

  lemma OneArgument(f: nat, x: nat, p: nat)
    requires p < CALL
    ensures Fits(Call(Leaf(f), [Leaf(x)]), p, 2)
  {
    assert Fits(Leaf(x), LOWEST, 3) && [Leaf(x)][1..] == [] && FitAll([], 3);
    assert FitAll([Leaf(x)], 3);
    assert Fits(Leaf(f), p, 2) && Edge(Leaf(f)) == 100 && Chain(Leaf(f)) == 0;
  }

  lemma PrefixedCall(q: Unary, call: Tree)
    ensures Yield(Pre(q, call)) + [] == [PrefixToken(q)] + Yield(call) && Strip(Pre(q, call)) == Prefix(q, Strip(call))
  {
  }
}
