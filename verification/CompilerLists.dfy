/** The jumps that are patched together: to the end of a loop, to the end of a `match`, to the body of
    one of its branches. */
module CompilerLists {
  import opened Bytecode
  import opened Tree
  import opened Codegen
  import opened CodegenLayout
  import opened CodegenExits
  import opened CodegenMain
  import opened CompilerEmission

  predicate Within(holes: seq<nat>, n: nat) { forall i :: 0 <= i < |holes| ==> holes[i] + 2 <= n }

  /** All jumps reach `end`. */
  predicate Near(holes: seq<nat>, end: nat) { forall i :: 0 <= i < |holes| ==> Gap(end, holes[i] + 2) <= 0xFFFF }

  function PutAll(code: seq<nat>, holes: seq<nat>, end: nat): (c: seq<nat>)
    requires Within(holes, |code|)
    ensures |c| == |code|
    decreases |holes|
  {
    if holes == [] then code else PutAll(Put(code, holes[0], Gap(end, holes[0] + 2)), holes[1..], end)
  }

  lemma NearFirst(holes: seq<nat>, end: nat)
    requires holes != []
    ensures Near(holes, end) <==> Gap(end, holes[0] + 2) <= 0xFFFF && Near(holes[1..], end)
  {
    if Gap(end, holes[0] + 2) <= 0xFFFF && Near(holes[1..], end) {
      forall i | 0 <= i < |holes| ensures Gap(end, holes[i] + 2) <= 0xFFFF {
        if i > 0 { assert holes[i] == holes[1..][i - 1]; }
      }
    }
    if Near(holes, end) {
      forall i | 0 <= i < |holes[1..]| ensures Gap(end,
          holes[1..][i] + 2) <= 0xFFFF { assert holes[1..][i] == holes[i + 1]; }
    }
  }

  lemma ThenAssoc(f: Frag, g: Frag, h: Frag)
    ensures f.Then(g.Then(h)) == f.Then(g).Then(h)
    ensures f.Then(g).Next(0) == f.Next(0) + |g.consts|
  {
  }

  /** The way out of one scope, seen from the scopes around it. */
  function Exit(c: Scope, k: nat, S: seq<Scope>, D: Loop): Frag {
    (if c.live then One(TRY_POP) else NO_CODE).Then(GenBlock(c.fin, k, S, D))
  }

  lemma UnwindFirst(S: seq<Scope>, downTo: nat, k: nat, D: Loop)
    requires |S| > downTo
    ensures var rest := S[..|S| - 1];
      var h := Exit(S[|S| - 1], k, rest, D);
      Unwind(S, downTo, k, D) == h.Then(Unwind(rest, downTo, h.Next(k), D))
      && WS(S) == WB(S[|S| - 1].fin) + 1 + WS(rest)
  {
    hide GenBlock;
  }

  lemma UnwindNone(S: seq<Scope>, downTo: nat, k: nat, D: Loop)
    ensures |S| <= downTo ==> Unwind(S, downTo, k, D) == NO_CODE
    ensures |S| > downTo ==> Unwind(S[..downTo], downTo, k, D) == NO_CODE
  {
  }

  lemma FinsLess(S: seq<Scope>, n: nat)
    requires S != [] && FinsFormed(S, n)
    ensures FinsFormed(S[..|S| - 1], n) && BlockFormed(S[|S| - 1].fin, n)
  {
  }

  // ---------------------------------------------------------------- break

  lemma {:induction false} HolesWithin(g: seq<Instr>, at: nat)
    ensures forall i :: 0 <= i < |Holes(g, at)| ==> at <= Holes(g, at)[i] && Holes(g, at)[i] + 2 <= at + Len(g)
  {
    hide Encode;
    if g != [] {
      HolesWithin(g[1..], at + Size(g[0]));
      JumpSize(BreakJ);
      assert Len(g) == Size(g[0]) + Len(g[1..]);
    }
  }

  lemma PutFirst(pre: seq<nat>, b: seq<nat>, d: nat)
    requires |b| >= 3
    ensures Put(pre + b, |pre| + 1, d) == pre + [b[0]] + U16(d) + b[3..]
  {
    assert (pre + b)[..|pre| + 1] == pre + [b[0]];
    assert (pre + b)[|pre| + 3..] == b[3..];
  }

  lemma ResolveFirst(g: seq<Instr>, at: nat, cont: Target, brk: Target)
    requires g != []
    ensures var i := Settle(g[0], at, cont, brk);
      var r, rest := Resolve(g, at, cont, brk), Resolve(g[1..], at + Size(g[0]), cont, brk);
      && Bytes(r) == Encode(i) + Bytes(rest) && (Fits(r) <==> FitsOne(i) && Fits(rest))
      && Size(i) == Size(g[0]) && Len(g) == Size(g[0]) + Len(g[1..])
  {
    hide Encode, Settle, FitsOne;
    var i := Settle(g[0], at, cont, brk);
    var r, rest := Resolve(g, at, cont, brk), Resolve(g[1..], at + Size(g[0]), cont, brk);
    assert r == [i] + rest && r[1..] == rest;
    SettleSize(g[0], at, cont, brk);
  }

  /** Patching a loop's `break` jumps settles them. */
  lemma {:induction false} BreaksPatched(pre: seq<nat>, g: seq<Instr>, c: nat, end: nat, post: seq<nat>)
    requires |pre| + Len(g) <= end
    ensures var at := |pre|;
      var open := pre + Bytes(Resolve(g, at, To(c), Later)) + post;
      && Within(Holes(g, at), |open|)
      && PutAll(open, Holes(g, at), end) == pre + Bytes(Resolve(g, at, To(c), To(end))) + post
      && (Fits(Resolve(g, at, To(c), To(end))) <==> Fits(Resolve(g, at, To(c), Later)) && Near(Holes(g, at), end))
    decreases |g|
  {
    hide Encode, Settle, Resolve, Bytes, Fits, FitsOne, Near, U16, Holes, PutAll, Put;
    var at := |pre|;
    HolesWithin(g, at);
    ResolveLen(g, at, To(c), Later);
    if g == [] {
      NoHoles(at, c, end);
    } else {
      var next := at + Size(g[0]);
      var i, j := Settle(g[0], at, To(c), Later), Settle(g[0], at, To(c), To(end));
      ResolveFirst(g, at, To(c), Later);
      ResolveFirst(g, at, To(c), To(end));
      var rest := Bytes(Resolve(g[1..], next, To(c), Later));
      var open := pre + Bytes(Resolve(g, at, To(c), Later)) + post;
      BreaksPatched(pre + Encode(j), g[1..], c, end, post);
      HolesFirst(g, at);
      if g[0].BreakJ? {
        FirstBreakPatched(pre, g, c, end, rest + post);
        assert open == pre + Encode(i) + (rest + post);
        assert pre + Encode(j) + (rest + post) == pre + Encode(j) + rest + post;
        PutAllFirst(open, Holes(g, at), end);
      } else {
        NotBreak(g[0], at, c, end);
        assert open == pre + Encode(j) + rest + post;
      }
      assert pre + Bytes(Resolve(g, at, To(c), To(end))) + post
        == pre + Encode(j) + Bytes(Resolve(g[1..], next, To(c), To(end))) + post;
    }
  }

  lemma NoHoles(at: nat, c: nat, end: nat)
    ensures Resolve([], at, To(c), Later) == [] == Resolve([], at, To(c), To(end)) && Holes([], at) == []
    ensures Bytes([]) == [] && Fits([]) && Near([], end) && forall code :: PutAll(code, [], end) == code
  {
  }

  lemma PutAllFirst(code: seq<nat>, holes: seq<nat>, end: nat)
    requires holes != [] && Within(holes, |code|)
    ensures PutAll(code, holes, end) == PutAll(Put(code, holes[0], Gap(end, holes[0] + 2)), holes[1..], end)
  {
  }

  lemma HolesFirst(g: seq<Instr>, at: nat)
    requires g != []
    ensures var all, rest := Holes(g, at), Holes(g[1..], at + Size(g[0]));
      if g[0].BreakJ? then all != [] && all[0] == at + 1 && all[1..] == rest else all == rest
  {
  }

  lemma NotBreak(i: Instr, at: nat, c: nat, end: nat)
    requires !i.BreakJ?
    ensures Settle(i, at, To(c), Later) == Settle(i, at, To(c), To(end))
  {
  }

  lemma FirstBreakPatched(pre: seq<nat>, g: seq<Instr>, c: nat, end: nat, post: seq<nat>)
    requires g != [] && g[0].BreakJ? && |pre| + Len(g) <= end
    ensures var at := |pre|;
      var i, j := Settle(g[0], at, To(c), Later), Settle(g[0], at, To(c), To(end));
      var all := Holes(g, at);
      && |pre + Encode(i) + post| >= at + 3
      && Put(pre + Encode(i) + post, at + 1, Gap(end, at + 3)) == pre + Encode(j) + post
      && (Near(all, end) <==> FitsOne(j) && Near(all[1..], end)) && FitsOne(i)
  {
    hide Near, Bytes, Encode, Holes, U16;
    var at := |pre|;
    var d := Gap(end, at + 3);
    HolesFirst(g, at);
    BreakEncoded(d);
    assert Settle(g[0], at, To(c), Later) == BreakJ && Settle(g[0], at, To(c), To(end)) == JUMP(d);
    var b := [34, 255, 255] + post;
    PutFirst(pre, b, d);
    assert pre + b == pre + [34, 255, 255] + post;
    assert b[3..] == post && b[0] == 34;
    assert pre + [34] + U16(d) + post == pre + ([34] + U16(d)) + post;
    NearFirst(Holes(g, at), end);
  }

  lemma SettleSize(i: Instr, at: nat, cont: Target, brk: Target)
    ensures Size(Settle(i, at, cont, brk)) == Size(i)
  {
  }

  lemma BreakEncoded(d: nat)
    ensures Encode(BreakJ) == [34, 255, 255] && Encode(JUMP(d)) == [34] + U16(d)
    ensures Encode(JUMP(0xFFFF)) == Encode(BreakJ) && FitsOne(BreakJ) && (FitsOne(JUMP(d)) <==> d <= 0xFFFF)
  {
  }

  // ---------------------------------------------------------------- lists of jumps to one place

  /** The code `open`, its jumps with the operands `holes` patched to lead to its end, is `closed`. */
  ghost predicate Closes(o: Out, open: Frag, closed: Frag, holes: seq<nat>) {
    var a := After(o, open);
    && Within(holes, |a.code|)
    && After(o, closed) == a.(code := PutAll(a.code, holes, |a.code|))
    && (Fit(o, closed) <==> Fit(o, open) && Near(holes, |a.code|))
    && Len(open.code) == Len(closed.code)
  }

  /** One more jump in front. */
  lemma ClosesMore(o: Out, x: Frag, open: Frag, closed: Frag, holes: seq<nat>)
    requires Closes(After(o, x.Add(JUMP(Len(open.code)))), open, closed, holes)
    ensures Closes(o, x.Add(JUMP(0xFFFF)).Then(open), x.Add(JUMP(Len(closed.code))).Then(closed),
                   [|o.code| + Len(x.code) + 1] + holes)
  {
    hide After, Fit, Bytes, Near, PutAll, Put;
    var d := Len(open.code);
    var p := |o.code| + Len(x.code) + 1;
    var all := [p] + holes;
    JumpSize(JUMP(0xFFFF));
    Patched(o, x, JUMP(0), open, d);
    AfterThen(o, x.Add(JUMP(d)), open);
    AfterThen(o, x.Add(JUMP(d)), closed);
    var a := After(o, x.Add(JUMP(0xFFFF)).Then(open));
    JumpSize(JUMP(0));
    assert p + 2 + d == |a.code|;
    assert all[0] == p && all[1..] == holes;
    PutSize(a.code, p, d);
    WithinMore(p, holes, |a.code|);
    PutAllFirst(a.code, all, |a.code|);
    NearFirst(all, |a.code|);
    LenPair(x.Add(JUMP(0xFFFF)), open);
    LenPair(x.Add(JUMP(d)), closed);
    LenPair(x, One(JUMP(0xFFFF)));
    LenPair(x, One(JUMP(d)));
    BytesOne(JUMP(0xFFFF)); BytesOne(JUMP(d)); JumpSize(JUMP(d));
  }

  lemma PutSize(code: seq<nat>, p: nat, d: nat)
    requires p + 2 <= |code|
    ensures |Put(code, p, d)| == |code|
  {
  }

  lemma WithinMore(p: nat, holes: seq<nat>, n: nat)
    requires Within(holes, n) && p + 2 <= n
    ensures Within([p] + holes, n)
  {
  }

  lemma LenPair(f: Frag, g: Frag)
    ensures Len(f.Then(g).code) == Len(f.code) + Len(g.code)
  {
    BytesCat(f.code, g.code);
  }

  // ---------------------------------------------------------------- patterns

  function Comparison(p: Expr, k: nat): Frag { One(DUP).Then(GenExpr(p, k)).Add(BINARY(Eq)) }

  /** The comparisons of a branch, the jumps to its body open. */
  function OpenPatterns(ps: seq<Expr>, k: nat, skip: nat): Frag {
    if ps == [] then NO_CODE
    else
      var test := Comparison(ps[0], k);
      if |ps| == 1 then test.Add(JUMP_IF_FALSE(skip))
      else test.Add(JUMP_IF_FALSE(3)).Add(JUMP(0xFFFF)).Then(OpenPatterns(ps[1..], test.Next(k), skip))
  }

  function BodyJumps(ps: seq<Expr>, k: nat, at: nat): seq<nat> {
    if |ps| <= 1 then []
    else
      var test := Comparison(ps[0], k);
      var behind := at + Len(test.code) + 6;
      [behind - 2] + BodyJumps(ps[1..], test.Next(k), behind)
  }

  lemma GenPatternsIs(ps: seq<Expr>, k: nat, skip: nat)
    requires ps != []
    ensures var test := Comparison(ps[0], k);
      var rest := GenPatterns(ps[1..], test.Next(k), skip);
      GenPatterns(ps, k, skip) ==
        if |ps| == 1 then test.Add(JUMP_IF_FALSE(skip))
        else test.Add(JUMP_IF_FALSE(3)).Add(JUMP(Len(rest.code))).Then(rest)
  {
    hide GenExpr, Bytes;
    var e := GenExpr(ps[0], k);
    assert [] + e.consts == e.consts && Comparison(ps[0], k).Next(k) == e.Next(k);
    var rest := GenPatterns(ps[1..], e.Next(k), skip);
    if |ps| == 1 {
      assert ps[1..] == [];
      assert e.consts + rest.consts == e.consts;
      assert GenPatterns(ps, k, skip).code == [DUP] + e.code + [BINARY(Eq)] + [JUMP_IF_FALSE(skip)];
    } else {
      assert GenPatterns(ps, k,
          skip).code == [DUP] + e.code + [BINARY(Eq)] + [JUMP_IF_FALSE(3)] + [JUMP(Len(rest.code))] + rest.code;
    }
  }

  lemma {:induction false} PatternsClose(o: Out, ps: seq<Expr>, k: nat, skip: nat)
    requires ps != []
    ensures Closes(o, OpenPatterns(ps, k, skip), GenPatterns(ps, k, skip), BodyJumps(ps, k, |o.code|))
    decreases |ps|
  {
    hide After, Fit, Bytes, GenPatterns, Comparison, Encode, Closes;
    GenPatternsIs(ps, k, skip);
    if |ps| == 1 {
      ClosedAlready(o, OpenPatterns(ps, k, skip));
    } else {
      var test := Comparison(ps[0], k);
      var x := test.Add(JUMP_IF_FALSE(3));
      var rest := OpenPatterns(ps[1..], test.Next(k), skip);
      LenPair(test, One(JUMP_IF_FALSE(3))); BytesOne(JUMP_IF_FALSE(3)); JumpSize(JUMP_IF_FALSE(3));
      var o1 := After(o, x.Add(JUMP(Len(rest.code))));
      AfterLen(o, x.Add(JUMP(Len(rest.code))));
      LenPair(x, One(JUMP(Len(rest.code)))); BytesOne(JUMP(Len(rest.code))); JumpSize(JUMP(Len(rest.code)));
      PatternsClose(o1, ps[1..], test.Next(k), skip);
      ClosesMore(o, x, rest, GenPatterns(ps[1..], test.Next(k), skip), BodyJumps(ps[1..], test.Next(k), |o1.code|));
      ClosesLen(o1, rest, GenPatterns(ps[1..], test.Next(k), skip), BodyJumps(ps[1..], test.Next(k), |o1.code|));
    }
  }

  lemma ClosesLen(o: Out, open: Frag, closed: Frag, holes: seq<nat>)
    requires Closes(o, open, closed, holes)
    ensures Len(open.code) == Len(closed.code)
  {
  }

  lemma ClosedAlready(o: Out, f: Frag)
    ensures Closes(o, f, f, [])
  {
    hide After, Fit, Bytes;
  }

  // ---------------------------------------------------------------- branches

  /** A branch without its comparisons, the jump to the end of the `match` open. */
  function OpenBody(c: Case, k: nat, S: seq<Scope>, D: Loop): Frag {
    One(POP).Then(GenBlock(c.body, k, S, D)).Add(JUMP(0xFFFF))
  }

  function BodyFrom(c: Case, k: nat): nat { if c.Branch? then k + |PatternConsts(c.patterns, k)| else k }

  function OpenCase(c: Case, k: nat, S: seq<Scope>, D: Loop): Frag {
    var body := OpenBody(c, BodyFrom(c, k), S, D);
    if c.Branch? then GenPatterns(c.patterns, k, Len(body.code)).Then(body) else body
  }

  function OpenCases(cs: seq<Case>, k: nat, S: seq<Scope>, D: Loop): Frag {
    if cs == [] then One(POP)
    else
      var f := OpenCase(cs[0], k, S, D);
      f.Then(OpenCases(cs[1..], f.Next(k), S, D))
  }

  function EndJumps(cs: seq<Case>, k: nat, S: seq<Scope>, D: Loop, at: nat): seq<nat> {
    if cs == [] then []
    else
      var f := OpenCase(cs[0], k, S, D);
      var behind := at + Len(f.code);
      [Gap(behind, 2)] + EndJumps(cs[1..], f.Next(k), S, D, behind)
  }

  /** A branch up to the jump at its end. */
  function CaseHead(c: Case, k: nat, S: seq<Scope>, D: Loop): Frag {
    var kb := BodyFrom(c, k);
    var body := One(POP).Then(GenBlock(c.body, kb, S, D));
    if c.Branch? then GenPatterns(c.patterns, k, Len(OpenBody(c, kb, S, D).code)).Then(body) else body
  }

  lemma CaseParts(cs: seq<Case>, k: nat, S: seq<Scope>, D: Loop)
    requires cs != []
    ensures var c := cs[0];
      var x := CaseHead(c, k, S, D);
      var rest := GenCases(cs[1..], x.Next(k), S, D);
      && OpenCase(c, k, S, D) == x.Add(JUMP(0xFFFF)) && OpenCase(c, k, S, D).Next(k) == x.Next(k)
      && GenCases(cs, k, S, D) == x.Add(JUMP(Len(rest.code))).Then(rest)
      && Len(OpenCase(c, k, S, D).code) == Len(x.code) + 3
  {
    hide GenBlock, GenPatterns, Bytes, PatternConsts;
    var c := cs[0];
    var kb := BodyFrom(c, k);
    var g := GenBlock(c.body, kb, S, D);
    var x := CaseHead(c, k, S, D);
    var rest := GenCases(cs[1..], g.Next(kb), S, D);
    assert [] + g.consts == g.consts;
    assert x.Next(k) == g.Next(kb);
    var j1, j2 := JUMP(0xFFFF), JUMP(Len(rest.code));
    BytesOne(j1); BytesOne(j2); JumpSize(j1); JumpSize(j2);
    var pop := One(POP).Then(g);
    LenPair(pop, One(j1)); LenPair(pop, One(j2)); LenPair(x, One(j1));
    assert Len(pop.Add(j1).code) == Len(pop.Add(j2).code);
    if c.Branch? {
      var t := GenPatterns(c.patterns, k, Len(pop.Add(j1).code));
      assert t.Then(pop.Add(j1)).code == t.code + pop.code + [j1];
      assert t.Then(pop.Add(j2)).code == t.code + pop.code + [j2];
      assert OpenCase(c, k, S, D) == t.Then(pop).Add(j1);
      assert GenCases(cs, k, S, D) == t.Then(pop.Add(j2)).Then(rest);
    }
  }

  lemma {:induction false} CasesClose(o: Out, cs: seq<Case>, k: nat, S: seq<Scope>, D: Loop)
    ensures Closes(o, OpenCases(cs, k, S, D), GenCases(cs, k, S, D), EndJumps(cs, k, S, D, |o.code|))
    decreases |cs|
  {
    hide After, Fit, Bytes, GenCases, CaseHead, OpenCase, Encode, Closes;
    if cs == [] {
      assert GenCases(cs, k, S, D) == One(POP) by { NoCases(k, S, D); }
      ClosedAlready(o, One(POP));
    } else {
      CaseParts(cs, k, S, D);
      var x := CaseHead(cs[0], k, S, D);
      var rest := OpenCases(cs[1..], x.Next(k), S, D);
      var closed := GenCases(cs[1..], x.Next(k), S, D);
      var o1 := After(o, x.Add(JUMP(Len(rest.code))));
      AfterLen(o, x.Add(JUMP(Len(rest.code))));
      LenPair(x, One(JUMP(Len(rest.code)))); BytesOne(JUMP(Len(rest.code))); JumpSize(JUMP(Len(rest.code)));
      CasesClose(o1, cs[1..], x.Next(k), S, D);
      ClosesMore(o, x, rest, closed, EndJumps(cs[1..], x.Next(k), S, D, |o1.code|));
      ClosesLen(o1, rest, closed, EndJumps(cs[1..], x.Next(k), S, D, |o1.code|));
    }
  }

  lemma NoCases(k: nat, S: seq<Scope>, D: Loop)
    ensures GenCases([], k, S, D) == One(POP)
  {
  }

  /** A branch's comparisons without the last jump. */
  function PatternsHead(ps: seq<Expr>, k: nat): Frag {
    if ps == [] then NO_CODE
    else
      var test := Comparison(ps[0], k);
      if |ps| == 1 then test
      else
        var rest := PatternsHead(ps[1..], test.Next(k));
        test.Add(JUMP_IF_FALSE(3)).Add(JUMP(Len(rest.code) + 3)).Then(rest)
  }

  lemma {:induction false} PatternsTail(ps: seq<Expr>, k: nat, skip: nat)
    requires ps != []
    ensures GenPatterns(ps, k, skip) == PatternsHead(ps, k).Add(JUMP_IF_FALSE(skip))
    decreases |ps|
  {
    hide GenPatterns, Comparison, Bytes;
    GenPatternsIs(ps, k, skip);
    if |ps| > 1 {
      var test := Comparison(ps[0], k);
      PatternsTail(ps[1..], test.Next(k), skip);
      var rest := PatternsHead(ps[1..], test.Next(k));
      var j := JUMP_IF_FALSE(skip);
      LenPair(rest, One(j)); BytesOne(j); JumpSize(j);
      assert rest.Add(j) == rest.Then(One(j)) by { assert rest.consts + [] == rest.consts; }
      var x := test.Add(JUMP_IF_FALSE(3)).Add(JUMP(Len(rest.code) + 3));
      assert x.Then(rest.Add(j)) == x.Then(rest).Add(j);
    }
  }

  /** The jump of the last comparison, patched behind the branch it leads over. */
  lemma SkipPatched(o: Out, ps: seq<Expr>, k: nat, g: Frag, d: nat)
    requires ps != []
    ensures var f := GenPatterns(ps, k, 0xFFFF);
      var p := |o.code| + Len(f.code) - 2;
      var a := After(o, f.Then(g));
      && Len(f.code) >= 3 && p + 2 + Len(g.code) == |a.code|
      && After(o, GenPatterns(ps, k, d).Then(g)) == a.(code := Put(a.code, p, d))
      && (Fit(o, GenPatterns(ps, k, d).Then(g)) <==> Fit(o, f.Then(g)) && d <= 0xFFFF)
  {
    hide After, Fit, GenPatterns, PatternsHead, Bytes;
    PatternsTail(ps, k, 0xFFFF);
    PatternsTail(ps, k, d);
    var h, j := PatternsHead(ps, k), JUMP_IF_FALSE(0);
    Patched(o, h, j, g, d);
    LenPair(h, One(JUMP_IF_FALSE(0xFFFF))); BytesOne(JUMP_IF_FALSE(0xFFFF)); JumpSize(j);
        JumpSize(JUMP_IF_FALSE(0xFFFF));
  }

  // ---------------------------------------------------------------- loops

  /** Code without open jumps is laid down as it is, in a loop or not. */
  lemma LaidProper(o: Out, f: Frag, n: nat)
    requires Proper(f.code, n, false)
    ensures Laid(o, f) == f.code && Holes(f.code, |o.code|) == []
    ensures After(o, f) == Out(o.code + Bytes(f.code), o.consts + f.consts, o.loops)
  {
    hide Bytes;
    ProperStays(f.code, n, |o.code|, o.Cont(), Later);
    NoHolesIn(f.code, n, |o.code|);
    BrokenNone(o);
  }

  lemma {:induction false} NoHolesIn(code: seq<Instr>, n: nat, at: nat)
    requires Proper(code, n, false)
    ensures Holes(code, at) == []
  {
    hide Encode;
    if code != [] {
      assert code[0] in code;
      assert Proper(code[1..], n, false);
      NoHolesIn(code[1..], n, at + Size(code[0]));
    }
  }

  /** The output inside a loop that starts at the end of `o`. */
  function Inside(o: Out, depth: nat): Out { o.(loops := o.loops + [LoopCtx(|o.code|, [], depth)]) }

  /** The code of a loop before its patches: condition, body, jump back. */
  function OpenLoop(s: Stmt, k: nat, S: seq<Scope>): Frag
    requires s.While?
  {
    var g := GenBlock(s.body, k + |CondConsts(s.c, k)|, S, InLoop(|S|));
    var f := GenCond(s.c, s.until, k, Len(g.code) + 3);
    f.Then(g.Add(LOOP(Len(f.code) + Len(g.code) + 3)))
  }

  /** When its `break` jumps are patched as well, a loop stands as generated. */
  lemma LoopCloses(o: Out, s: Stmt, S: seq<Scope>, D: Loop, n: nat)
    requires s.While? && Formed(s, n) && FinsFormed(S, n)
    ensures var k := |o.consts|;
      var f := GenWhile(s, k, S, D);
      var a := After(Inside(o, |S|), OpenLoop(s, k, S));
      var m := |o.loops|;
      && |a.loops| == m + 1 && a.loops[..m] == o.loops
      && Within(a.loops[m].breakJumps, |a.code|)
      && After(o, f) == Out(PutAll(a.code, a.loops[m].breakJumps, |a.code|), a.consts, o.loops)
      && (Fit(o, f) <==> Fit(Inside(o, |S|), OpenLoop(s, k, S)) && Near(a.loops[m].breakJumps, |a.code|))
  {
    hide GenBlock, GenCond, Bytes, Resolve, Fits, Holes, PutAll, Near, Encode, Put, CondConsts, FinsFormed, Proper;
    var k := |o.consts|;
    var kb := k + |CondConsts(s.c, k)|;
    var g := GenBlock(s.body, kb, S, InLoop(|S|));
    var f := GenCond(s.c, s.until, k, Len(g.code) + 3);
    var total := Len(f.code) + Len(g.code) + 3;
    var i := Inside(o, |S|);
    var l := LOOP(total);
    var q := Resolve(g.code, Len(f.code), To(0), To(total));
    CondProper(s.c, s.until, k, Len(g.code) + 3, n);
    WhileProper(s, k, S, D, n);
    LaidProper(o, GenWhile(s, k, S, D), n);
    LaidProper(i, f, n);
    var i1 := After(i, f);
    AfterLen(i, f);
    var at := |o.code| + Len(f.code);
    var r := Resolve(g.code, at, To(|o.code|), Later);
    assert Laid(i1, g) == r;
    AfterLen(i1, g);
    var i2 := After(i1, g);
    AfterOne(i2, l);
    AfterThen(i, f, g.Add(l));
    AfterAdd(i1, g, l);
    var a := After(i, OpenLoop(s, k, S));
    var holes := Holes(g.code, at);
    assert a.loops == o.loops + [LoopCtx(|o.code|, holes, |S|)] by { assert [] + holes == holes; }
    var pre := o.code + Bytes(f.code);
    assert a.code == pre + Bytes(r) + Encode(l);
    ResolveMoved(g.code, Len(f.code), 0, total, |o.code|);
    BreaksPatched(pre, g.code, |o.code|, |o.code| + total, Encode(l));
    JumpSize(l);
    assert |a.code| == |o.code| + total;
    BytesCat(f.code + q, [l]); BytesCat(f.code, q); BytesOne(l);
    assert GenWhile(s, k, S, D).code == f.code + q + [l];
    assert o.code + Bytes(f.code + q + [l]) == pre + Bytes(q) + Encode(l);
    FitsCat(f.code + q, [l]); FitsCat(f.code, q);
    assert Fits([l]) <==> FitsOne(l) by { FitsSingle(l); }
    assert a.consts == o.consts + f.consts + g.consts;
    assert After(o, GenWhile(s, k, S, D)).consts == o.consts + (f.consts + g.consts);
  }

  lemma FitsSingle(i: Instr)
    ensures Fits([i]) <==> FitsOne(i)
  {
    assert [i][1..] == [];
  }

  // ---------------------------------------------------------------- statements with parts

  lemma ConditionalCode(e: Expr, k: nat)
    requires e.Conditional?
    ensures var kt := k + |CondConsts(e.c, k)|;
      var gt := GenExpr(e.t, kt);
      var gf := GenExpr(e.f, gt.Next(kt));
      && GenExpr(e, k) == GenCond(e.c, false, k, Len(gt.code) + 3).Then(gt).Add(JUMP(Len(gf.code))).Then(gf)
      && WE(e) == 1 + WE(e.c) + WE(e.t) + WE(e.f)
  {
    hide GenCond, CondConsts, Bytes;
  }

  lemma IfElseCode(c: Stmt, k: nat, S: seq<Scope>, D: Loop)
    requires c.IfElse?
    ensures var kb := k + |CondConsts(c.c, k)|;
      var g := GenBlock(c.body, kb, S, D);
      var h := GenStmt(c.alt, g.Next(kb), S, D);
      GenStmt(c, k, S, D) == GenCond(c.c, false, k, Len(g.code) + 3).Then(g).Add(JUMP(Len(h.code))).Then(h)
  {
    hide GenBlock, GenCond, CondConsts, Bytes;
  }

  /** A `try` with `finally`: what its two patched jumps make of the open code. */
  lemma TryFinallyCloses(o: Out, g: Frag, f1: Frag, f2: Frag)
    ensures var push0, push := TRY_PUSH(0xFFFF), TRY_PUSH(Len(g.code) + 1 + Len(f1.code) + 3);
      var j0, j := JUMP(0xFFFF), JUMP(Len(f2.code) + 1);
      var p := |o.code| + 1;
      var q := |o.code| + 5 + Len(g.code) + Len(f1.code);
      var whole := One(push).Then(g).Add(TRY_POP).Then(f1).Add(j).Then(f2).Add(THROW_);
      var a := After(o, One(push0));
      var b := After(a, g);
      var c := After(b, One(TRY_POP));
      var d := After(c, f1);
      var e0 := After(d, One(j0));
      && |a.code| == |o.code| + 3 && |b.code| == |a.code| + Len(g.code) && |c.code| == |b.code| + 1
      && |d.code| == |c.code| + Len(f1.code) && |d.code| == q - 1 && |e0.code| == q + 2
      && |a.consts| == |o.consts| && |b.consts| == g.Next(|a.consts|) && |c.consts| == |b.consts|
      && |d.consts| == f1.Next(|c.consts|) && |e0.consts| == |d.consts|
      && a.D() == b.D() == c.D() == d.D() == o.D()
      && var e := e0.(code := Put(e0.code, p, q - p));
         var h := After(After(e, f2), One(THROW_));
         && e.D() == o.D() && |h.code| == q + 2 + Len(f2.code) + 1
         && After(o, whole) == h.(code := Put(h.code, q, Len(f2.code) + 1))
         && (Fit(o, whole) <==> Fit(a, g) && Fit(c, f1) && q - p <= 0xFFFF && Fit(e, f2) && Len(f2.code) + 1 <= 0xFFFF)
  {
    hide After, Fit, Encode, Bytes, Put;
    var push := TRY_PUSH(Len(g.code) + 1 + Len(f1.code) + 3);
    var j0, j := JUMP(0xFFFF), JUMP(Len(f2.code) + 1);
    JumpSize(JUMP(0)); JumpSize(push);
    var a := After(o, One(TRY_PUSH(0xFFFF)));
    var b := After(a, g);
    FinallyTail(b, f1);
    var y := One(TRY_POP).Then(f1).Add(j0);
    HandlerPatched(o, g, y);
    var x := One(push).Then(g).Add(TRY_POP).Then(f1);
    assert One(push).Then(g).Then(y) == x.Add(j0) by {
      assert g.consts + ([] + f1.consts) == g.consts + f1.consts;
    }
    assert One(push).Then(g).Then(One(TRY_POP).Then(f1)) == x by {
      assert g.consts + ([] + f1.consts) == g.consts + f1.consts;
    }
    LenPair(One(push).Then(g), One(TRY_POP).Then(f1)); LenPair(One(push), g); BytesOne(push);
    var e := After(o, x.Add(j0));
    var z := f2.Add(THROW_);
    AfterThen(o, x.Add(j0), z);
    Patched(o, x, JUMP(0), z, Len(f2.code) + 1);
    RethrowTail(e, f2);
    assert x.Add(j).Then(z) == x.Add(j).Then(f2).Add(THROW_);
  }

  lemma RethrowTail(e: Out, f2: Frag)
    ensures var z := f2.Add(THROW_);
      && Len(z.code) == Len(f2.code) + 1 && After(e, z) == After(After(e, f2), One(THROW_))
      && |After(e, z).code| == |e.code| + Len(z.code) && (Fit(e, z) <==> Fit(e, f2))
  {
    hide After, Fit, Encode, Bytes;
    var z := f2.Add(THROW_);
    AfterAdd(e, f2, THROW_);
    assert z == f2.Then(One(THROW_)) by { assert f2.consts + [] == f2.consts; }
    LenPair(f2, One(THROW_)); BytesOne(THROW_); OpSize(THROW_);
    AfterOne(After(e, f2), THROW_);
    AfterLen(e, z);
  }

  lemma FinallyTail(b: Out, f1: Frag)
    ensures var j0 := JUMP(0xFFFF);
      var y := One(TRY_POP).Then(f1).Add(j0);
      var c := After(b, One(TRY_POP));
      var d := After(c, f1);
      && |c.code| == |b.code| + 1 && |d.code| == |c.code| + Len(f1.code) && |After(d, One(j0)).code| == |d.code| + 3
      && |c.consts| == |b.consts| && |After(d, One(j0)).consts| == |d.consts| && c.D() == d.D() == b.D()
      && |d.consts| == f1.Next(|c.consts|)
      && Len(y.code) == Len(f1.code) + 4 && Len(One(TRY_POP).Then(f1).code) == Len(f1.code) + 1
      && After(b, y) == After(d, One(j0)) && (Fit(b, y) <==> Fit(c, f1))
  {
    hide After, Fit, Encode, Bytes;
    var j0 := JUMP(0xFFFF);
    var c := After(b, One(TRY_POP));
    var d := After(c, f1);
    var y := One(TRY_POP).Then(f1);
    JumpSize(j0); OpSize(TRY_POP); BytesOne(TRY_POP); BytesOne(j0);
    AfterLen(b, One(TRY_POP)); AfterLen(c, f1); AfterLen(d, One(j0));
    AfterOne(b, TRY_POP); AfterOne(d, j0);
    AfterThen(b, One(TRY_POP), f1);
    AfterAdd(b, y, j0);
    LenPair(One(TRY_POP), f1); LenPair(y, One(j0));
    assert y.Add(j0) == y.Then(One(j0)) by { assert y.consts + [] == y.consts; }
  }

  /** The jump to the handler, patched behind the body and what follows it. */
  lemma HandlerPatched(o: Out, g: Frag, y: Frag)
    ensures var d := Len(g.code) + Len(y.code);
      var a := After(o, One(TRY_PUSH(0xFFFF)));
      var b := After(a, g);
      var e := After(b, y);
      var whole := One(TRY_PUSH(d)).Then(g).Then(y);
      && |a.code| == |o.code| + 3 && |a.consts| == |o.consts| && a.D() == b.D() == o.D()
      && |b.code| == |a.code| + Len(g.code) && |e.code| == |b.code| + Len(y.code) && |b.consts| == g.Next(|a.consts|)
      && After(o, whole) == e.(code := Put(e.code, |o.code| + 1, d)) && After(o, whole).D() == o.D()
      && |After(o, whole).code| == |e.code|
      && (Fit(o, whole) <==> Fit(a, g) && Fit(b, y) && d <= 0xFFFF)
  {
    hide After, Fit, Encode, Bytes, Put;
    var d := Len(g.code) + Len(y.code);
    var push0, push := TRY_PUSH(0xFFFF), TRY_PUSH(d);
    JumpSize(push0); JumpSize(TRY_PUSH(0)); BytesOne(push0); LenNone();
    var a := After(o, One(push0));
    AfterLen(o, One(push0)); AfterOne(o, push0);
    AfterLen(a, g); AfterLen(After(a, g), y);
    AfterThen(a, g, y);
    AfterThen(o, One(push0), g.Then(y));
    LenPair(g, y);
    assert NO_CODE.Add(push) == One(push) && NO_CODE.Add(push0) == One(push0);
    Patched(o, NO_CODE, TRY_PUSH(0), g.Then(y), d);
    ThenAssoc(One(push), g, y);
    AfterLen(o, One(push).Then(g).Then(y));
    PutSize(After(After(a, g), y).code, |o.code| + 1, d);
  }

  /** The same for a `try` with `catch`. */
  lemma TryCatchCloses(o: Out, g: Frag, slot: nat, h: Frag, f: Frag)
    ensures var push0, push := TRY_PUSH(0xFFFF), TRY_PUSH(Len(g.code) + 4);
      var j0, j := JUMP(0xFFFF), JUMP(3 + Len(h.code));
      var p := |o.code| + 1;
      var q := |o.code| + 5 + Len(g.code);
      var whole := One(push).Then(g).Add(TRY_POP).Add(j).Add(SET_LOCAL(slot)).Then(h).Then(f);
      var a := After(o, One(push0));
      var b := After(a, g);
      var c0 := After(After(b, One(TRY_POP)), One(j0));
      && |a.code| == |o.code| + 3 && |b.code| == |a.code| + Len(g.code) && |c0.code| == q + 2
      && |a.consts| == |o.consts| && |b.consts| == g.Next(|a.consts|) && |c0.consts| == |b.consts|
      && a.D() == b.D() == o.D()
      && var c := c0.(code := Put(c0.code, p, Len(g.code) + 4));
         var d := After(c, One(SET_LOCAL(slot)));
         var e0 := After(d, h);
         && |d.code| == q + 5 && |d.consts| == |b.consts| && d.D() == o.D() && |e0.code| == q + 5 + Len(h.code)
         && var e := e0.(code := Put(e0.code, q, 3 + Len(h.code)));
            && e.D() == o.D() && |e.consts| == |e0.consts| == h.Next(|d.consts|)
            && After(o, whole) == After(e, f)
            && (Fit(o, whole) <==>
                Fit(a, g) && Len(g.code) + 4 <= 0xFFFF && Fit(d, h) && 3 + Len(h.code) <= 0xFFFF && Fit(e, f))
  {
    hide After, Fit, Encode, Bytes, Put;
    var push := TRY_PUSH(Len(g.code) + 4);
    var j0, j, put := JUMP(0xFFFF), JUMP(3 + Len(h.code)), SET_LOCAL(slot);
    JumpSize(JUMP(0)); JumpSize(put); BytesOne(put); JumpSize(push); BytesOne(push); LenNone();
    var a := After(o, One(TRY_PUSH(0xFFFF)));
    var b := After(a, g);
    FinallyTail(b, NO_CODE);
    AfterNone(After(b, One(TRY_POP)));
    assert One(TRY_POP).Then(NO_CODE) == One(TRY_POP);
    var y := One(TRY_POP).Add(j0);
    HandlerPatched(o, g, y);
    var x := One(push).Then(g).Add(TRY_POP);
    assert One(push).Then(g).Then(y) == x.Add(j0) by { assert ([] + g.consts) + [] == [] + g.consts; }
    assert One(push).Then(g).Then(One(TRY_POP)) == x by { assert ([] + g.consts) + [] == [] + g.consts; }
    LenPair(One(push).Then(g), One(TRY_POP)); LenPair(One(push), g);
    var c := After(o, x.Add(j0));
    var d := After(c, One(put));
    AfterLen(c, One(put)); AfterOne(c, put);
    AfterThen(c, One(put), h);
    AfterLen(d, h);
    var z := One(put).Then(h);
    AfterThen(o, x.Add(j0), z);
    Patched(o, x, JUMP(0), z, 3 + Len(h.code));
    LenPair(One(put), h);
    assert x.Add(j).Then(z) == x.Add(j).Add(put).Then(h) by {
      assert x.consts + ([] + h.consts) == x.consts + h.consts;
    }
    AfterLen(o, x.Add(j).Then(z));
    AfterThen(o, x.Add(j).Then(z), f);
  }

  lemma SlotFits(slot: nat)
    ensures FitsOne(GET_LOCAL(slot)) && FitsOne(SET_LOCAL(slot))
  {
  }

  lemma ThenAdd(f: Frag, g: Frag, i: Instr)
    ensures f.Then(g).Add(i) == f.Then(g.Add(i))
    ensures Len(g.Add(i).code) == Len(g.code) + Size(i)
  {
    hide Encode;
    assert f.code + g.code + [i] == f.code + (g.code + [i]);
    BytesCat(g.code, [i]);
    BytesOne(i);
  }

  /** A comparison with the jump to the next one patched, and the jump to the body open. */
  lemma TestOpens(o: Out, test: Frag)
    ensures var j0, j, b := JUMP_IF_FALSE(0xFFFF), JUMP_IF_FALSE(3), JUMP(0xFFFF);
      var h := test.Add(j).Add(b);
      var a := After(After(After(o, test), One(j0)), One(b));
      && Len(h.code) == Len(test.code) + 6 && |a.code| == |o.code| + Len(h.code)
      && After(o, test.Add(j0)) == After(After(o, test), One(j0))
      && After(o, h) == a.(code := Put(a.code, |o.code| + Len(test.code) + 1, 3))
      && (Fit(o, h) <==> Fit(o, test)) && (Fit(o, test.Add(j0)) <==> Fit(o, test))
      && |After(After(o, test), One(j0)).code| == |o.code| + Len(test.code) + 3
      && Size(JUMP_IF_FALSE(0)) == Size(JUMP(0)) == 3
  {
    hide After, Fit, Bytes, Encode, Put;
    var j0, j, b := JUMP_IF_FALSE(0xFFFF), JUMP_IF_FALSE(3), JUMP(0xFFFF);
    JumpSize(JUMP(0)); JumpSize(j0); BytesOne(j0);
    AfterLen(o, test); AfterLen(After(o, test), One(j0)); AfterLen(After(After(o, test), One(j0)), One(b));
    JumpSize(JUMP_IF_FALSE(0)); JumpSize(j); JumpSize(b); BytesOne(j); BytesOne(b);
    AfterAdd(o, test, j0);
    AfterOne(After(o, test), j0);
    AfterOne(After(o, test.Add(j0)), b);
    AfterThen(o, test.Add(j0), One(b));
    Patched(o, test, JUMP_IF_FALSE(0), One(b), 3);
    assert test.Add(j).Add(b) == test.Add(j).Then(One(b)) by { assert (test.consts) + [] == test.consts; }
    LenPair(test, One(j)); LenPair(test.Add(j), One(b));
    assert test.Add(j) == test.Then(One(j)) by { assert test.consts + [] == test.consts; }
  }

  // ---------------------------------------------------------------- whole functions

  lemma AfterFirst(f: Frag)
    ensures var o := Out([], [], []);
      After(o, f).code == Bytes(Laid(o, f)) && After(o, f).consts == f.consts
  {
    hide Bytes;
  }

  lemma SmallOperand(v: nat)
    ensures v <= 0xFFFF ==> forall c :: c in U16(v) ==> c < 256
  {
  }

  lemma SmallImmediate(k: int)
    ensures forall c :: c in I16(k) ==> c < 256
  {
  }

  lemma SmallEncoding(i: Instr, n: nat)
    requires n <= 65536 && FitsOne(i) && InFrame(i, n)
    ensures forall c :: c in Encode(i) ==> c < 256
  {
    hide U16, I16;
    match i
    case CONST(k) => SmallOperand(k);
    case GET_LOCAL(s) => SmallOperand(s);
    case SET_LOCAL(s) => SmallOperand(s);
    case JUMP(d) => SmallOperand(d);
    case JUMP_IF_FALSE(d) => SmallOperand(d);
    case LOOP(d) => SmallOperand(d);
    case AND_KEEP(d) => SmallOperand(d);
    case OR_KEEP(d) => SmallOperand(d);
    case COALESCE(d) => SmallOperand(d);
    case RUNTIME_ERROR(k) => SmallOperand(k);
    case TRY_PUSH(d) => SmallOperand(d);
    case BINARY_I(_, k) => SmallImmediate(k);
    case COMPARE_JF(_, d) => SmallOperand(d);
    case LGET2(a, b) => SmallOperand(a); SmallOperand(b);
    case LGET_I(_, s, k) => SmallOperand(s); SmallImmediate(k);
    case COMPARE_I_JF(_, k, d) => SmallImmediate(k); SmallOperand(d);
    case _ =>
  }

  /** Every cell of accepted code is a byte. */
  lemma {:induction false} SmallCells(code: seq<Instr>, n: nat)
    requires n <= 65536 && Fits(code) && Proper(code, n, false)
    ensures forall c :: c in Bytes(code) ==> c < 256
  {
    hide Encode, FitsOne;
    if code != [] {
      assert code[0] in code;
      assert Proper(code[1..], n, false);
      SmallEncoding(code[0], n);
      SmallCells(code[1..], n);
    }
  }

  /** One branch and the others. */
  lemma CasesStep(cs: seq<Case>, k: nat, S: seq<Scope>, D: Loop, at: nat, n: nat)
    requires cs != [] && CasesFormed(cs, n)
    ensures var h := OpenCase(cs[0], k, S, D);
      && OpenCases(cs, k, S, D) == h.Then(OpenCases(cs[1..], h.Next(k), S, D))
      && EndJumps(cs, k, S, D, at) == [Gap(at + Len(h.code), 2)] + EndJumps(cs[1..], h.Next(k), S, D, at + Len(h.code))
    ensures WC(cs) == 1 + WB(cs[0].body) + WC(cs[1..])
    ensures CasesFormed(cs[1..], n) && BlockFormed(cs[0].body, n) && (cs[0].Branch? ==> cs[0].patterns != [])
  {
    hide OpenCase, BlockFormed;
  }

  lemma CasesEnd(k: nat, S: seq<Scope>, D: Loop, at: nat)
    ensures OpenCases([], k, S, D) == One(POP) && EndJumps([], k, S, D, at) == []
  {
  }

  /** A comparison with the jumps behind it, the second one still open. */
  function OpenTest(p: Expr, k: nat): Frag { Comparison(p, k).Add(JUMP_IF_FALSE(3)).Add(JUMP(0xFFFF)) }

  lemma PatternsStep(ps: seq<Expr>, k: nat, skip: nat, at: nat)
    requires ps != []
    ensures var test := Comparison(ps[0], k);
      var rest := OpenPatterns(ps[1..], test.Next(k), skip);
      && (|ps| == 1 ==> OpenPatterns(ps, k, skip) == test.Add(JUMP_IF_FALSE(skip)) && BodyJumps(ps, k, at) == [])
      && (|ps| > 1 ==>
           var h := OpenTest(ps[0], k);
           && OpenPatterns(ps, k, skip) == h.Then(rest) && h.Next(k) == test.Next(k)
           && BodyJumps(ps, k, at)
                == [at + Len(test.code) + 4] + BodyJumps(ps[1..], test.Next(k), at + Len(test.code) + 6))
  {
    hide Comparison;
  }

  lemma PatternsOneMore(o: Out, ps: seq<Expr>, pi: nat, f: Frag, at: nat)
    requires pi + 1 < |ps|
    ensures var k := |o.consts|;
      var k1 := f.Next(k);
      var h := OpenTest(ps[pi], k1);
      var f2 := f.Then(h);
      var size := Len(Comparison(ps[pi], k1).code);
      && |After(o, f).consts| == k1 && After(After(o, f), h) == After(o, f2)
      && (Fit(o, f2) <==> Fit(o, f) && Fit(After(o, f), h))
      && f.Then(OpenPatterns(ps[pi..], k1, 0xFFFF)) == f2.Then(OpenPatterns(ps[pi + 1..], f2.Next(k), 0xFFFF))
      && (Fit(o, f.Then(OpenPatterns(ps[pi..], k1, 0xFFFF))) ==> Fit(o, f2))
      && BodyJumps(ps[pi..], k1, at) == [at + size + 4] + BodyJumps(ps[pi + 1..], f2.Next(k), at + size + 6)
  {
    hide After, Fit, Bytes, Comparison, OpenTest, OpenPatterns, BodyJumps;
    var k1 := f.Next(|o.consts|);
    var h := OpenTest(ps[pi], k1);
    var rest := OpenPatterns(ps[pi + 1..], h.Next(k1), 0xFFFF);
    AfterLen(o, f);
    PatternsStep(ps[pi..], k1, 0xFFFF, at);
    assert ps[pi..][0] == ps[pi] && ps[pi..][1..] == ps[pi + 1..];
    ThenAssoc(f, h, rest);
    AfterThen(o, f, h);
    AfterThen(o, f.Then(h), rest);
  }

  lemma PatternsLast(o: Out, ps: seq<Expr>, pi: nat, f: Frag, at: nat)
    requires pi + 1 == |ps|
    ensures var k1 := f.Next(|o.consts|);
      var h := Comparison(ps[pi], k1).Add(JUMP_IF_FALSE(0xFFFF));
      && |After(o, f).consts| == k1 && After(After(o, f), h) == After(o, f.Then(h))
      && (Fit(o, f.Then(h)) <==> Fit(o, f) && Fit(After(o, f), h))
      && OpenPatterns(ps[pi..], k1, 0xFFFF) == h && BodyJumps(ps[pi..], k1, at) == [] && ps[pi + 1..] == []
  {
    hide After, Fit, Bytes, Comparison, OpenPatterns, BodyJumps;
    var k1 := f.Next(|o.consts|);
    AfterLen(o, f);
    PatternsStep(ps[pi..], k1, 0xFFFF, at);
    assert ps[pi..][0] == ps[pi];
    AfterThen(o, f, Comparison(ps[pi], k1).Add(JUMP_IF_FALSE(0xFFFF)));
  }

  lemma PatternsEnd(k: nat, skip: nat, at: nat)
    ensures OpenPatterns([], k, skip) == NO_CODE && BodyJumps([], k, at) == []
  {
  }

  lemma TryFinallyCode(s: Stmt, k: nat, S: seq<Scope>, D: Loop, n: nat)
    requires s.TryFinally? && Formed(s, n)
    ensures var g := GenBlock(s.body, k, S + [Scope(s.fin, true)], D);
      var f1 := GenBlock(s.fin, g.Next(k), S, D);
      var f2 := GenBlock(s.fin, f1.Next(g.Next(k)), S, D);
      GenTryFinally(s, k, S, D) ==
        One(TRY_PUSH(Len(g.code) + 1 + Len(f1.code) + 3)).Then(g).Add(TRY_POP).Then(f1)
          .Add(JUMP(Len(f2.code) + 1)).Then(f2).Add(THROW_)
    ensures WS(S + [Scope(s.fin, true)]) == WB(s.fin) + 1 + WS(S) && W(s) == 2 + WB(s.body) + 2 * WB(s.fin)
    ensures BlockFormed(s.body, n) && BlockFormed(s.fin, n)
  {
    hide GenBlock, Bytes, BlockFormed;
    WSPush(S, Scope(s.fin, true));
  }

  lemma TryCatchCode(s: Stmt, k: nat, S: seq<Scope>, D: Loop, n: nat)
    requires s.TryCatch? && Formed(s, n)
    ensures var g := GenBlock(s.body, k, S + [Scope(s.fin, true)], D);
      var h := GenBlock(s.catchBody, g.Next(k), S + [Scope(s.fin, false)], D);
      var f := GenBlock(s.fin, h.Next(g.Next(k)), S, D);
      GenTryCatch(s, k, S, D) ==
        One(TRY_PUSH(Len(g.code) + 4)).Then(g).Add(TRY_POP).Add(JUMP(3 + Len(h.code)))
          .Add(SET_LOCAL(s.slot)).Then(h).Then(f)
    ensures WS(S + [Scope(s.fin, true)]) == WB(s.fin) + 1 + WS(S) == WS(S + [Scope(s.fin, false)])
    ensures W(s) == 2 + WB(s.body) + WB(s.catchBody) + 2 * WB(s.fin)
    ensures BlockFormed(s.body, n) && BlockFormed(s.catchBody, n) && BlockFormed(s.fin, n)
  {
    hide GenBlock, Bytes, BlockFormed;
    WSPush(S, Scope(s.fin, true)); WSPush(S, Scope(s.fin, false));
  }

  lemma FinsBack(S: seq<Scope>, c: Scope, n: nat)
    requires FinsFormed(S + [c], n)
    ensures FinsFormed(S, n) && BlockFormed(c.fin, n)
  {
    assert (S + [c])[|S|] == c;
    forall i | 0 <= i < |S| ensures BlockFormed(S[i].fin, n) { assert (S + [c])[i] == S[i]; }
  }
}
