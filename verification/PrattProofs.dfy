/** The parser finds a tree that the table allows whenever there is one, and there is never a second. */
module PrattProofs {
  import opened PrattGrammar
  import opened PrattSpec

  // ---------------------------------------------------------------- what is found is allowed

  predicate SoundResult(r: Parsed, ts: seq<Token>, p: nat, d: nat) {
    r.Good? ==>
      && ts == Yield(r.t) + r.rest && Fits(r.t, p, d) && PeekBinding(r.rest) <= p && PeekBinding(r.rest) <= Edge(r.t)
  }

  lemma {:induction false} ExprSound(ts: seq<Token>, p: nat, d: nat)
    requires p >= LOWEST
    ensures SoundResult(ParseExpr(ts, p, d), ts, p, d)
    decreases |ts|, 3
  {
    if d <= MAX_EXPR_DEPTH {
      PrefixSound(ts, p, d);
      var r := ParsePrefix(ts, d);
      if r.Good? { LoopSound(r.t, r.rest, p, d, 0); }
    }
  }

  lemma {:induction false} LoopSound(left: Tree, ts: seq<Token>, p: nat, d: nat, c: nat)
    requires p >= LOWEST && Fits(left, p, d) && c == Chain(left) && PeekBinding(ts) <= Edge(left)
    ensures SoundResult(Loop(left, ts, p, d, c), Yield(left) + ts, p, d)
    decreases |ts|, 2
  {
    if ts != [] && PeekBinding(ts) > p && c + 1 <= MAX_EXPR_CHAIN {
      ExtendSound(left, ts, p, d);
      var r := Extend(left, ts, d);
      if r.Good? { LoopSound(r.t, r.rest, p, d, c + 1); }
    }
  }

  lemma {:induction false} ExtendSound(left: Tree, ts: seq<Token>, p: nat, d: nat)
    requires p >= LOWEST && Fits(left, p, d) && PeekBinding(ts) <= Edge(left) && PeekBinding(ts) > p
        && Chain(left) + 1 <= MAX_EXPR_CHAIN
    ensures var r := Extend(left, ts, d);
      r.Good? ==> (Extends(r, left, ts, p, d) && Chain(r.t) == Chain(left) + 1)
    decreases |ts|, 1
  {
    hide Extends, Fits;
    assert ts == [ts[0]] + ts[1..];
    match ts[0] {
      case Operator(op) =>
        ExprSound(ts[1..], RightLevel(op), d + 1);
        var r := ParseExpr(ts[1..], RightLevel(op), d + 1);
        if r.Good? { BinAllowed(left, op, r, p, d); }
      case IfKw =>
        ExprSound(ts[1..], LOWEST, d + 1);
        var c := ParseExpr(ts[1..], LOWEST, d + 1);
        if c.Good? && c.rest != [] && c.rest[0] == ElseKw {
          ExprSound(c.rest[1..], LOWEST, d + 1);
          assert c.rest == [ElseKw] + c.rest[1..];
          var f := ParseExpr(c.rest[1..], LOWEST, d + 1);
          if f.Good? { CondAllowed(left, c.t, f, p, d); }
        }
      case LParen =>
        ArgsSound(ts[1..], d);
        var l := ParseArgs(ts[1..], d);
        if l.GoodList? { CallAllowed(left, l.ts, l.rest, p, d); }
      case _ =>
    }
  }

  /** A larger tree for the same tokens. */
  predicate Extends(r: Parsed, left: Tree, ts: seq<Token>, p: nat, d: nat)
    requires r.Good?
  {
    Yield(left) + ts == Yield(r.t) + r.rest && Fits(r.t, p, d) && PeekBinding(r.rest) <= Edge(r.t)
  }

  lemma BinAllowed(left: Tree, op: Op, r: Parsed, p: nat, d: nat)
    requires Fits(left, p, d) && p < Binding(op) <= Edge(left) && Chain(left) + 1 <= MAX_EXPR_CHAIN
    requires r.Good? && SoundResult(r, Yield(r.t) + r.rest, RightLevel(op), d + 1)
    ensures Extends(Good(Bin(left, op, r.t), r.rest), left, [Operator(op)] + (Yield(r.t) + r.rest), p, d)
  {
  }

  lemma CondFits(left: Tree, c: Tree, f: Parsed, p: nat, d: nat)
    requires Fits(left, p, d) && p < TERNARY <= Edge(left) && Chain(left) + 1 <= MAX_EXPR_CHAIN
        && Fits(c, LOWEST, d + 1)
    requires f.Good? && SoundResult(f, Yield(f.t) + f.rest, LOWEST, d + 1)
    ensures Fits(Cond(left, c, f.t), p, d) && PeekBinding(f.rest) <= Edge(Cond(left, c, f.t))
  {
    hide Yield;
  }

  lemma CondAllowed(left: Tree, c: Tree, f: Parsed, p: nat, d: nat)
    requires Fits(left, p, d) && p < TERNARY <= Edge(left) && Chain(left) + 1 <= MAX_EXPR_CHAIN
        && Fits(c, LOWEST, d + 1)
    requires f.Good? && SoundResult(f, Yield(f.t) + f.rest, LOWEST, d + 1)
    ensures Extends(Good(Cond(left, c, f.t), f.rest), left,
        [IfKw] + (Yield(c) + ([ElseKw] + (Yield(f.t) + f.rest))), p, d)
  {
    hide Fits, Edge;
    CondFits(left, c, f, p, d);
    var t := Cond(left, c, f.t);
    assert Yield(left) + ([IfKw] + (Yield(c) + ([ElseKw] + (Yield(f.t) + f.rest)))) == Yield(t) + f.rest;
  }

  lemma CallAllowed(left: Tree, args: seq<Tree>, rest: seq<Token>, p: nat, d: nat)
    requires Fits(left, p, d) && p < CALL <= Edge(left) && Chain(left) + 1 <= MAX_EXPR_CHAIN && FitAll(args, d + 1)
    ensures Extends(Good(Call(left, args), rest), left, [LParen] + (YieldAll(args) + [RParen] + rest), p, d)
  {
    BindingBound(rest);
    var t := Call(left, args);
    assert Yield(left) + ([LParen] + (YieldAll(args) + [RParen] + rest)) == Yield(t) + rest;
  }

  lemma BindingBound(ts: seq<Token>)
    ensures PeekBinding(ts) <= 17
  {
  }

  lemma {:induction false} PrefixSound(ts: seq<Token>, p: nat, d: nat)
    requires d <= MAX_EXPR_DEPTH
    ensures var r := ParsePrefix(ts, d);
      r.Good? ==> ts == Yield(r.t) + r.rest && Fits(r.t, p, d) && Chain(r.t) == 0 && PeekBinding(r.rest) <= Edge(r.t)
    decreases |ts|, 1
  {
    var r := ParsePrefix(ts, d);
    if r.Good? {
      assert ts == [ts[0]] + ts[1..];
      match ts[0] {
        case Value(n) => assert ts == Yield(r.t) + r.rest;
        case NotKw => UnarySound(Not, ts[1..], p, d);
        case TildeTok => UnarySound(Complement, ts[1..], p, d);
        case Operator(op) => UnarySound(Negate, ts[1..], p, d);
        case LParen => GroupSound(ts[1..], p, d);
        case _ =>
      }
    }
  }

  lemma {:induction false} UnarySound(q: Unary, ts: seq<Token>, p: nat, d: nat)
    requires d <= MAX_EXPR_DEPTH
    ensures var r := ParseUnary(q, ts, d);
      r.Good? ==>
        && [PrefixToken(q)] + ts == Yield(r.t) + r.rest && Fits(r.t, p, d) && Chain(r.t) == 0
        && PeekBinding(r.rest) <= Edge(r.t)
    decreases |ts|, 4
  {
    ExprSound(ts, PrefixLevel(q), d + 1);
    var r := ParseUnary(q, ts, d);
    if r.Good? { assert [PrefixToken(q)] + (Yield(r.t.e) + r.rest) == Yield(r.t) + r.rest; }
  }

  lemma {:induction false} GroupSound(ts: seq<Token>, p: nat, d: nat)
    requires d <= MAX_EXPR_DEPTH
    ensures var r := ParseGroup(ts, d);
      r.Good? ==>
        && [LParen] + ts == Yield(r.t) + r.rest && Fits(r.t, p, d) && Chain(r.t) == 0
            && PeekBinding(r.rest) <= Edge(r.t)
    decreases |ts|, 5
  {
    hide Yield, Fits, Edge, Chain;
    if ts != [] {
      if ts[0] == RParen {
        assert ts == [RParen] + ts[1..];
        assert YieldAll([]) + [RParen] + ts[1..] == [RParen] + ts[1..];
        TupleAllowed([], false, ts[1..], p, d);
      } else {
        ExprSound(ts, LOWEST, d + 1);
        var e := ParseExpr(ts, LOWEST, d + 1);
        if e.Good? && e.rest != [] {
          if e.rest[0] == Comma {
            FitSnoc([], e.t, d + 1);
            assert [] + [e.t] == [e.t];
            ItemsSound([e.t], e.rest, d);
            var l := ParseItems([e.t], e.rest, d);
            assert YieldAll([e.t]) == Yield(e.t);
            if l.GoodList? && l.rest != [] && l.rest[0] == RParen {
              assert l.rest == [RParen] + l.rest[1..];
              TupleAllowed(l.ts, l.trailing, l.rest[1..], p, d);
            }
          } else if e.rest[0] == RParen {
            assert e.rest == [RParen] + e.rest[1..];
            GroupAllowed(e.t, e.rest[1..], p, d);
          }
        }
      }
    }
  }

  lemma TupleAllowed(items: seq<Tree>, trailing: bool, rest: seq<Token>, p: nat, d: nat)
    requires d <= MAX_EXPR_DEPTH && TupleShape(items, trailing) && FitAll(items, d + 1)
    ensures var t := Tuple(items, trailing);
      && [LParen] + (YieldAll(items) + (if trailing then [Comma] else []) + ([RParen] + rest)) == Yield(t) + rest
      && Fits(t, p, d) && Chain(t) == 0 && PeekBinding(rest) <= Edge(t)
  {
    BindingBound(rest);
  }

  lemma GroupAllowed(e: Tree, rest: seq<Token>, p: nat, d: nat)
    requires d <= MAX_EXPR_DEPTH && Fits(e, LOWEST, d + 1)
    ensures var t := Group(e);
      && [LParen] + (Yield(e) + ([RParen] + rest)) == Yield(t) + rest
      && Fits(t, p, d) && Chain(t) == 0 && PeekBinding(rest) <= Edge(t)
  {
    BindingBound(rest);
  }

  lemma {:induction false} YieldSnoc(ts: seq<Tree>, e: Tree)
    requires ts != []
    ensures YieldAll(ts + [e]) == YieldAll(ts) + [Comma] + Yield(e)
  {
    MoreSnoc(ts[1..], e);
    assert (ts + [e])[1..] == ts[1..] + [e];
  }

  lemma {:induction false} MoreSnoc(ts: seq<Tree>, e: Tree)
    ensures YieldMore(ts + [e]) == YieldMore(ts) + [Comma] + Yield(e)
  {
    if ts == [] {
      assert [e][1..] == [];
    } else {
      MoreSnoc(ts[1..], e);
      assert (ts + [e])[1..] == ts[1..] + [e];
    }
  }

  lemma {:induction false} FitSnoc(ts: seq<Tree>, e: Tree, d: nat)
    ensures FitAll(ts + [e], d) <==> FitAll(ts, d) && Fits(e, LOWEST, d)
  {
    if ts == [] {
      assert [e][1..] == [];
    } else {
      FitSnoc(ts[1..], e, d);
      assert (ts + [e])[1..] == ts[1..] + [e];
    }
  }

  lemma {:induction false} ItemsSound(items: seq<Tree>, ts: seq<Token>, d: nat)
    requires items != [] && FitAll(items, d + 1)
    ensures var r := ParseItems(items, ts, d);
      r.GoodList? ==>
        && YieldAll(items) + ts == YieldAll(r.ts) + (if r.trailing then [Comma] else []) + r.rest
        && FitAll(r.ts, d + 1) && |r.ts| >= |items|
        && (ts != [] && ts[0] == Comma ==> |r.ts| > |items| || r.trailing)
    decreases |ts|, 4
  {
    hide Yield, YieldAll, Fits, FitAll, Edge;
    if ts == [] || ts[0] != Comma {
      assert YieldAll(items) + ts == YieldAll(items) + [] + ts;
    } else {
      assert ts == [Comma] + ts[1..];
      if |ts| > 1 && ts[1] == RParen {
        assert YieldAll(items) + ([Comma] + ts[1..]) == YieldAll(items) + [Comma] + ts[1..];
      } else {
        ExprSound(ts[1..], LOWEST, d + 1);
        var r := ParseExpr(ts[1..], LOWEST, d + 1);
        if r.Good? {
          YieldSnoc(items, r.t);
          FitSnoc(items, r.t, d + 1);
          ItemsSound(items + [r.t], r.rest, d);
          assert YieldAll(items) + ts == YieldAll(items + [r.t]) + r.rest;
        }
      }
    }
  }

  lemma {:induction false} ArgsSound(ts: seq<Token>, d: nat)
    ensures var r := ParseArgs(ts, d);
      r.GoodList? ==> ts == YieldAll(r.ts) + [RParen] + r.rest && FitAll(r.ts, d + 1)
    decreases |ts|, 5
  {
    if ts != [] {
      if ts[0] == RParen {
        assert ts == [] + [RParen] + ts[1..];
      } else {
        ExprSound(ts, LOWEST, d + 1);
        var r := ParseExpr(ts, LOWEST, d + 1);
        if r.Good? {
          assert YieldAll([r.t]) == Yield(r.t);
          MoreArgsSound([r.t], r.rest, d);
        }
      }
    }
  }

  lemma {:induction false} MoreArgsSound(args: seq<Tree>, ts: seq<Token>, d: nat)
    requires args != [] && FitAll(args, d + 1)
    ensures var r := ParseMoreArgs(args, ts, d);
      r.GoodList? ==> YieldAll(args) + ts == YieldAll(r.ts) + [RParen] + r.rest && FitAll(r.ts, d + 1)
    decreases |ts|, 4
  {
    hide Yield, YieldAll, Fits, FitAll, Edge;
    if ts != [] {
      assert ts == [ts[0]] + ts[1..];
      if ts[0] == Comma {
        ExprSound(ts[1..], LOWEST, d + 1);
        var r := ParseExpr(ts[1..], LOWEST, d + 1);
        if r.Good? {
          YieldSnoc(args, r.t);
          FitSnoc(args, r.t, d + 1);
          MoreArgsSound(args + [r.t], r.rest, d);
          assert YieldAll(args) + ts == YieldAll(args + [r.t]) + r.rest;
        }
      } else if ts[0] == RParen {
        assert YieldAll(args) + ([RParen] + ts[1..]) == YieldAll(args) + [RParen] + ts[1..];
      }
    }
  }

  // ---------------------------------------------------------------- what is allowed is found

  /** Reading an allowed tree, the parser arrives at it and looks at what follows. */
  lemma {:induction false} TreeRead(t: Tree, rest: seq<Token>, p: nat, d: nat)
    requires p >= LOWEST && Fits(t, p, d) && PeekBinding(rest) <= Edge(t)
    ensures ParseExpr(Yield(t) + rest, p, d) == Loop(t, rest, p, d, Chain(t))
    decreases t, 3
  {
    match t
    case Leaf(n) => assert (Yield(t) + rest)[1..] == rest;
    case Bin(_, _, _) => BinRead(t, rest, p, d);
    case Pre(q, e) =>
      UnaryRead(t, rest, p, d);
    case Cond(_, _, _) => CondRead(t, rest, p, d);
    case Group(e) =>
      var after := [RParen] + rest;
      assert (Yield(t) + rest)[1..] == Yield(e) + after;
      YieldStart(e);
      EdgeLow(e);
      ExprRead(e, after, LOWEST, d + 1);
      assert after[1..] == rest && (Yield(e) + after)[0] == Yield(e)[0];
      assert ParseGroup(Yield(e) + after, d) == Good(t, rest);
    case Tuple(_, _) => TupleRead(t, rest, p, d);
    case Call(_, _) => CallRead(t, rest, p, d);
  }

  lemma {:induction false} UnaryRead(t: Tree, rest: seq<Token>, p: nat, d: nat)
    requires t.Pre? && p >= LOWEST && Fits(t, p, d) && PeekBinding(rest) <= Edge(t)
    ensures ParseExpr(Yield(t) + rest, p, d) == Loop(t, rest, p, d, Chain(t))
    decreases t, 2
  {
    var ts := Yield(t) + rest;
    assert ts[0] == PrefixToken(t.q) && ts[1..] == Yield(t.e) + rest;
    ExprRead(t.e, rest, PrefixLevel(t.q), d + 1);
    assert ParsePrefix(ts, d) == ParseUnary(t.q, ts[1..], d);
  }

  /** A tree followed by something that binds no stronger than its surroundings. */
  lemma {:induction false} ExprRead(t: Tree, rest: seq<Token>, p: nat, d: nat)
    requires p >= LOWEST && Fits(t, p, d) && PeekBinding(rest) <= Edge(t) && PeekBinding(rest) <= p
    ensures ParseExpr(Yield(t) + rest, p, d) == Good(t, rest)
    decreases t, 4
  {
    TreeRead(t, rest, p, d);
  }

  /** No expression begins like the end of one. */
  lemma {:induction false} YieldStart(t: Tree)
    ensures Yield(t)[0] != RParen && Yield(t)[0] != Comma
  {
    match t
    case Bin(l, _, _) => YieldStart(l);
    case Cond(t1, _, _) => YieldStart(t1);
    case Call(f, _) => YieldStart(f);
    case _ =>
  }

  lemma EdgeLow(t: Tree)
    ensures Edge(t) >= LOWEST
  {
  }

  lemma {:induction false} BinRead(t: Tree, rest: seq<Token>, p: nat, d: nat)
    requires t.Bin? && p >= LOWEST && Fits(t, p, d) && PeekBinding(rest) <= Edge(t)
    ensures ParseExpr(Yield(t) + rest, p, d) == Loop(t, rest, p, d, Chain(t))
    decreases t, 2
  {
    var after := [Operator(t.op)] + (Yield(t.r) + rest);
    assert Yield(t) + rest == Yield(t.l) + after;
    TreeRead(t.l, after, p, d);
    assert after[1..] == Yield(t.r) + rest;
    ExprRead(t.r, rest, RightLevel(t.op), d + 1);
    assert Extend(t.l, after, d) == Good(t, rest);
  }

  lemma {:induction false} CondRead(t: Tree, rest: seq<Token>, p: nat, d: nat)
    requires t.Cond? && p >= LOWEST && Fits(t, p, d) && PeekBinding(rest) <= Edge(t)
    ensures ParseExpr(Yield(t) + rest, p, d) == Loop(t, rest, p, d, Chain(t))
    decreases t, 2
  {
    var other := [ElseKw] + (Yield(t.f) + rest);
    var after := [IfKw] + (Yield(t.c) + other);
    assert Yield(t) + rest == Yield(t.t) + after;
    TreeRead(t.t, after, p, d);
    assert after[1..] == Yield(t.c) + other && other[1..] == Yield(t.f) + rest;
    EdgeLow(t.c);
    ExprRead(t.c, other, LOWEST, d + 1);
    ExprRead(t.f, rest, LOWEST, d + 1);
    assert Extend(t.t, after, d) == Good(t, rest);
  }

  lemma {:induction false} CallRead(t: Tree, rest: seq<Token>, p: nat, d: nat)
    requires t.Call? && p >= LOWEST && Fits(t, p, d) && PeekBinding(rest) <= Edge(t)
    ensures ParseExpr(Yield(t) + rest, p, d) == Loop(t, rest, p, d, Chain(t))
    decreases t, 2
  {
    var after := [LParen] + (YieldAll(t.args) + [RParen] + rest);
    assert Yield(t) + rest == Yield(t.f) + after;
    TreeRead(t.f, after, p, d);
    assert after[1..] == YieldAll(t.args) + [RParen] + rest;
    ArgsRead(t, rest, d);
    assert Extend(t.f, after, d) == Good(t, rest);
  }

  lemma {:induction false} ArgsRead(t: Tree, rest: seq<Token>, d: nat)
    requires t.Call? && FitAll(t.args, d + 1)
    ensures ParseArgs(YieldAll(t.args) + [RParen] + rest, d) == GoodList(t.args, false, rest)
    decreases t, 1
  {
    var ts := YieldAll(t.args) + [RParen] + rest;
    if t.args == [] {
      assert ts == [RParen] + rest;
    } else {
      var e := t.args[0];
      var more := YieldMore(t.args[1..]) + [RParen] + rest;
      assert ts == Yield(e) + more;
      YieldStart(e);
      EdgeLow(e);
      MoreStart(t.args[1..], [RParen] + rest);
      assert more == YieldMore(t.args[1..]) + ([RParen] + rest);
      ExprRead(e, more, LOWEST, d + 1);
      assert [e] + t.args[1..] == t.args;
      MoreArgsRead(t, 1, rest, d);
    }
  }

  lemma MoreStart(ts: seq<Tree>, after: seq<Token>)
    requires after != [] && TokenBinding(after[0]) == LOWEST
    ensures PeekBinding(YieldMore(ts) + after) == LOWEST
  {
    if ts == [] { assert YieldMore(ts) + after == after; }
  }

  lemma {:induction false} MoreArgsRead(t: Tree, i: nat, rest: seq<Token>, d: nat)
    requires t.Call? && i <= |t.args| && FitAll(t.args[i..], d + 1)
    ensures ParseMoreArgs(t.args[..i], YieldMore(t.args[i..]) + [RParen] + rest, d) == GoodList(t.args, false, rest)
    decreases t, 0, |t.args| - i
  {
    var ts := YieldMore(t.args[i..]) + [RParen] + rest;
    if i == |t.args| {
      assert t.args[i..] == [] && t.args[..i] == t.args;
      assert ts == [RParen] + rest;
    } else {
      var e := t.args[i];
      assert t.args[i..][0] == e && t.args[i..][1..] == t.args[i + 1..];
      var more := YieldMore(t.args[i + 1..]) + ([RParen] + rest);
      assert ts == [Comma] + (Yield(e) + more);
      MoreStart(t.args[i + 1..], [RParen] + rest);
      EdgeLow(e);
      ExprRead(e, more, LOWEST, d + 1);
      assert ts[1..] == Yield(e) + more;
      assert t.args[..i] + [e] == t.args[..i + 1];
      MoreArgsRead(t, i + 1, rest, d);
      assert more == YieldMore(t.args[i + 1..]) + [RParen] + rest;
    }
  }

  /** The end of a tuple. */
  function TupleEnd(t: Tree, rest: seq<Token>): seq<Token>
    requires t.Tuple?
  {
    (if t.trailing then [Comma] else []) + ([RParen] + rest)
  }

  lemma {:induction false} TupleRead(t: Tree, rest: seq<Token>, p: nat, d: nat)
    requires t.Tuple? && p >= LOWEST && Fits(t, p, d)
    ensures ParseExpr(Yield(t) + rest, p, d) == Loop(t, rest, p, d, Chain(t))
    decreases t, 2
  {
    var ts := YieldAll(t.items) + TupleEnd(t, rest);
    assert (Yield(t) + rest)[1..] == ts;
    BodyRead(t, rest, d);
  }

  /** Behind the opening parenthesis of a tuple. */
  lemma {:induction false} BodyRead(t: Tree, rest: seq<Token>, d: nat)
    requires t.Tuple? && TupleShape(t.items, t.trailing) && FitAll(t.items, d + 1)
    ensures ParseGroup(YieldAll(t.items) + TupleEnd(t, rest), d) == Good(t, rest)
    decreases t, 1
  {
    hide Yield, Fits, Edge;
    var items, end := t.items, TupleEnd(t, rest);
    var ts := YieldAll(items) + end;
    assert ([RParen] + rest)[1..] == rest;
    if items == [] {
      assert ts == [RParen] + rest;
    } else {
      var e := items[0];
      var more := YieldMore(items[1..]) + end;
      assert ts == Yield(e) + more;
      YieldStart(e);
      assert ts[0] == Yield(e)[0];
      EdgeLow(e);
      MoreStart(items[1..], end);
      ExprRead(e, more, LOWEST, d + 1);
      CommaFirst(t, rest);
      assert [e] == items[..1];
      ItemsRead(t, 1, rest, d);
    }
  }

  lemma CommaFirst(t: Tree, rest: seq<Token>)
    requires t.Tuple? && TupleShape(t.items, t.trailing) && t.items != []
    ensures var more := YieldMore(t.items[1..]) + TupleEnd(t, rest); more != [] && more[0] == Comma
  {
    if |t.items| == 1 { assert t.items[1..] == []; }
  }

  lemma {:induction false} ItemsRead(t: Tree, i: nat, rest: seq<Token>, d: nat)
    requires t.Tuple? && 0 < i <= |t.items| && FitAll(t.items[i..], d + 1)
    ensures ParseItems(t.items[..i], YieldMore(t.items[i..]) + TupleEnd(t, rest), d)
         == GoodList(t.items, t.trailing, [RParen] + rest)
    decreases t, 0, |t.items| - i
  {
    hide Yield, Fits, Edge, ParseItems;
    var end := TupleEnd(t, rest);
    var ts := YieldMore(t.items[i..]) + end;
    if i == |t.items| {
      assert t.items[i..] == [] && t.items[..i] == t.items;
      assert ts == end;
      EndRead(t, rest, d);
    } else {
      var e := t.items[i];
      assert t.items[i..][0] == e && t.items[i..][1..] == t.items[i + 1..];
      var more := YieldMore(t.items[i + 1..]) + end;
      assert ts == [Comma] + (Yield(e) + more);
      MoreStart(t.items[i + 1..], end);
      EdgeLow(e);
      ExprRead(e, more, LOWEST, d + 1);
      ItemRead(t.items[..i], e, more, d);
      assert t.items[..i] + [e] == t.items[..i + 1];
      ItemsRead(t, i + 1, rest, d);
    }
  }

  lemma EndRead(t: Tree, rest: seq<Token>, d: nat)
    requires t.Tuple?
    ensures ParseItems(t.items, TupleEnd(t, rest), d) == GoodList(t.items, t.trailing, [RParen] + rest)
  {
    var end := TupleEnd(t, rest);
    assert end[if t.trailing then 1 else 0..] == [RParen] + rest;
  }

  /** One more item of a tuple. */
  lemma ItemRead(items: seq<Tree>, e: Tree, more: seq<Token>, d: nat)
    requires ParseExpr(Yield(e) + more, LOWEST, d + 1) == Good(e, more)
    ensures ParseItems(items, [Comma] + (Yield(e) + more), d) == ParseItems(items + [e], more, d)
  {
    hide Yield, ParseExpr;
    var ts := [Comma] + (Yield(e) + more);
    assert ts[1..] == Yield(e) + more;
    YieldStart(e);
    assert ts[1] == Yield(e)[0];
  }

  // ---------------------------------------------------------------- the main results

  /** A tree with this yield in front of `rest`, allowed here and complete: what follows does not belong
      to it. */
  predicate Reads(t: Tree, rest: seq<Token>, ts: seq<Token>, p: nat, d: nat) {
    ts == Yield(t) + rest && Fits(t, p, d) && PeekBinding(rest) <= p && PeekBinding(rest) <= Edge(t)
  }

  /** The parser accepts exactly when there is such a tree, and then returns it. */
  lemma ParsesExactly(ts: seq<Token>, p: nat, d: nat)
    requires p >= LOWEST
    ensures forall t, rest :: Reads(t, rest, ts, p, d) <==> ParseExpr(ts, p, d) == Good(t, rest)
  {
    forall t, rest ensures Reads(t, rest, ts, p, d) <==> ParseExpr(ts, p, d) == Good(t, rest) {
      ExprSound(ts, p, d);
      if Reads(t, rest, ts, p, d) { ExprRead(t, rest, p, d); }
    }
  }

  /** There is never a second tree, nor a second place to stop. */
  lemma TreeIsUnique(ts: seq<Token>, p: nat, d: nat, t1: Tree, rest1: seq<Token>, t2: Tree, rest2: seq<Token>)
    requires p >= LOWEST && Reads(t1, rest1, ts, p, d) && Reads(t2, rest2, ts, p, d)
    ensures t1 == t2 && rest1 == rest2
  {
    ParsesExactly(ts, p, d);
  }

  /** Two operators side by side, any operands around them: the operand between goes to the second one
      exactly if that binds more strongly than the first one's right side asks for.  So the tighter
      operator wins, and of two equally tight ones the first, but for `**` the second. */
  lemma Neighbours(a: Tree, op1: Op, b: Tree, op2: Op, c: Tree, rest: seq<Token>, p: nat, d: nat)
    requires p >= LOWEST && d + 2 <= MAX_EXPR_DEPTH && Chain(a) + 2 <= MAX_EXPR_CHAIN && Chain(b) + 1 <= MAX_EXPR_CHAIN
    requires Fits(a, p, d) && p < Binding(op1) <= Edge(a)
    requires Fits(b, RightLevel(op1), d + 1) && p < Binding(op2) <= Edge(b)
    requires Fits(c, RightLevel(op2), d + 1) && Fits(c, RightLevel(op2), d + 2)
    requires PeekBinding(rest) <= p && PeekBinding(rest) <= Edge(c)
    ensures var ts := Yield(a) + [Operator(op1)] + (Yield(b) + [Operator(op2)] + Yield(c)) + rest;
      ParseExpr(ts, p, d) == Good(
        if Binding(op2) > RightLevel(op1) then Bin(a, op1, Bin(b, op2, c)) else Bin(Bin(a, op1, b), op2, c), rest)
  {
    hide ParseExpr, Yield;
    var inner := Yield(b) + [Operator(op2)] + Yield(c);
    if Binding(op2) > RightLevel(op1) {
      BinYield(b, op2, c);
      BinYield(a, op1, Bin(b, op2, c));
      ExprRead(Bin(a, op1, Bin(b, op2, c)), rest, p, d);
    } else {
      BinYield(a, op1, b);
      BinYield(Bin(a, op1, b), op2, c);
      assert Yield(a) + [Operator(op1)] + inner == Yield(a) + [Operator(op1)] + Yield(b) + [Operator(op2)] + Yield(c);
      ExprRead(Bin(Bin(a, op1, b), op2, c), rest, p, d);
    }
  }

  lemma BinYield(l: Tree, op: Op, r: Tree)
    ensures Yield(Bin(l, op, r)) == Yield(l) + [Operator(op)] + Yield(r)
  {
  }
}
