/** What emitting a fragment does to the compiler's output, and what patching a jump does. */
module CompilerEmission {
  import opened Bytecode
  import opened Tree
  import opened Codegen
  import opened CodegenLayout

  /** An enclosing loop: where `continue` leads, the operands of its `break` jumps, and how many `try`
      scopes were open at its start. */
  datatype LoopCtx = LoopCtx(continueTarget: nat, breakJumps: seq<nat>, tryDepth: nat)

  datatype Out = Out(code: seq<nat>, consts: seq<Value>, loops: seq<LoopCtx>) {
    function D(): Loop { if loops == [] then NoLoop else InLoop(loops[|loops| - 1].tryDepth) }

    function Cont(): Target { if loops == [] then Later else To(loops[|loops| - 1].continueTarget) }

    /** With more `break` jumps to patch in the innermost loop. */
    function Broken(holes: seq<nat>): seq<LoopCtx> {
      if loops == [] then []
      else
        var l := loops[|loops| - 1];
        loops[..|loops| - 1] + [l.(breakJumps := l.breakJumps + holes)]
    }
  }

  /** The operands of the open `break` jumps of code at `at`. */
  function Holes(code: seq<Instr>, at: nat): seq<nat> {
    if code == [] then []
    else (if code[0].BreakJ? then [at + 1] else []) + Holes(code[1..], at + Size(code[0]))
  }

  /** The fragment's code where it comes to stand; `break` jumps stay open. */
  function Laid(o: Out, f: Frag): seq<Instr> { Resolve(f.code, |o.code|, o.Cont(), Later) }

  function After(o: Out, f: Frag): Out {
    Out(o.code + Bytes(Laid(o, f)), o.consts + f.consts, o.Broken(Holes(f.code, |o.code|)))
  }

  /** Distances and constant numbers fit two bytes, counts one. */
  predicate FitsOne(i: Instr) {
    match i
    case CONST(k) => k <= 0xFFFF
    case RUNTIME_ERROR(k) => k <= 0xFFFF
    case SAY(n) => n <= 0xFF
    case JUMP(d) => d <= 0xFFFF
    case JUMP_IF_FALSE(d) => d <= 0xFFFF
    case LOOP(d) => d <= 0xFFFF
    case AND_KEEP(d) => d <= 0xFFFF
    case OR_KEEP(d) => d <= 0xFFFF
    case COALESCE(d) => d <= 0xFFFF
    case TRY_PUSH(d) => d <= 0xFFFF
    case COMPARE_JF(_, d) => d <= 0xFFFF
    case COMPARE_I_JF(_, _, d) => d <= 0xFFFF
    case _ => true
  }

  predicate Fits(code: seq<Instr>) { code == [] || (FitsOne(code[0]) && Fits(code[1..])) }

  predicate Fit(o: Out, f: Frag) { Fits(Laid(o, f)) }

  lemma {:induction false} FitsCat(a: seq<Instr>, b: seq<Instr>)
    ensures Fits(a + b) <==> Fits(a) && Fits(b)
  {
    if a == [] {
      assert a + b == b;
    } else {
      assert (a + b)[0] == a[0] && (a + b)[1..] == a[1..] + b;
      FitsCat(a[1..], b);
    }
  }

  lemma {:induction false} HolesCat(a: seq<Instr>, b: seq<Instr>, at: nat)
    ensures Holes(a + b, at) == Holes(a, at) + Holes(b, at + Len(a))
  {
    hide Encode;
    if a == [] {
      assert a + b == b;
    } else {
      assert (a + b)[0] == a[0] && (a + b)[1..] == a[1..] + b;
      HolesCat(a[1..], b, at + Size(a[0]));
      assert Len(a) == Size(a[0]) + Len(a[1..]);
    }
  }

  lemma BrokenTwice(o: Out, h1: seq<nat>, h2: seq<nat>)
    ensures o.(loops := o.Broken(h1)).Broken(h2) == o.Broken(h1 + h2)
  {
    if o.loops != [] {
      var l := o.loops[|o.loops| - 1];
      assert o.Broken(h1)[..|o.loops| - 1] == o.loops[..|o.loops| - 1];
      assert (l.breakJumps + h1) + h2 == l.breakJumps + (h1 + h2);
    }
  }

  lemma AfterLen(o: Out, f: Frag)
    ensures |After(o, f).code| == |o.code| + Len(f.code)
    ensures |After(o, f).consts| == f.Next(|o.consts|)
    ensures After(o, f).D() == o.D() && After(o, f).Cont() == o.Cont()
  {
    ResolveLen(f.code, |o.code|, o.Cont(), Later);
  }

  /** One fragment after the other is the two together. */
  lemma AfterThen(o: Out, f: Frag, g: Frag)
    ensures After(After(o, f), g) == After(o, f.Then(g))
    ensures Fit(o, f.Then(g)) <==> Fit(o, f) && Fit(After(o, f), g)
  {
    hide Resolve, Bytes, Fits, Holes;
    AfterLen(o, f);
    var a := Laid(o, f);
    var b := Laid(After(o, f), g);
    ResolveCat(f.code, g.code, |o.code|, o.Cont(), Later);
    BytesCat(a, b);
    FitsCat(a, b);
    HolesCat(f.code, g.code, |o.code|);
    BrokenTwice(o, Holes(f.code, |o.code|), Holes(g.code, |o.code| + Len(f.code)));
    var o2 := After(After(o, f), g);
    assert o2.code == o.code + (Bytes(a) + Bytes(b));
    assert o2.consts == o.consts + (f.consts + g.consts);
    assert o2.loops == o.(loops := o.Broken(Holes(f.code, |o.code|))).Broken(Holes(g.code, |o.code| + Len(f.code)));
  }

  lemma AfterAdd(o: Out, f: Frag, i: Instr)
    ensures After(After(o, f), One(i)) == After(o, f.Add(i))
    ensures Fit(o, f.Add(i)) <==> Fit(o, f) && Fit(After(o, f), One(i))
  {
    hide After, Fit;
    assert f.Add(i) == f.Then(One(i)) by { assert f.consts + [] == f.consts; }
    AfterThen(o, f, One(i));
  }

  lemma BrokenNone(o: Out)
    ensures o.Broken([]) == o.loops
  {
    if o.loops != [] {
      var l := o.loops[|o.loops| - 1];
      assert l.breakJumps + [] == l.breakJumps;
    }
  }

  lemma AfterNone(o: Out)
    ensures After(o, NO_CODE) == o && Fit(o, NO_CODE)
  {
    assert o.code + [] == o.code && o.consts + [] == o.consts;
    if o.loops != [] {
      var l := o.loops[|o.loops| - 1];
      assert l.breakJumps + [] == l.breakJumps;
    }
  }

  /** A single instruction whose jump, if any, is known. */
  lemma AfterOne(o: Out, i: Instr)
    requires !i.BreakJ? && !i.ContJ?
    ensures After(o, One(i)) == o.(code := o.code + Encode(i)) && (Fit(o, One(i)) <==> FitsOne(i))
  {
    hide Encode;
    BytesOne(i);
    assert [i][1..] == [];
    assert Settle(i, |o.code|, o.Cont(), Later) == i;
    assert Laid(o, One(i)) == [i];
    assert Fits([i]) <==> FitsOne(i);
    assert Holes([i], |o.code|) == [];
    AfterNone(o);
    BrokenNone(o);
    assert o.consts + [] == o.consts;
  }

  lemma AfterConst(o: Out, i: Instr, v: Value)
    requires i == CONST(|o.consts|) || i == RUNTIME_ERROR(|o.consts|)
    ensures After(o, Frag([i], [v])) == o.(code := o.code + Encode(i), consts := o.consts + [v])
    ensures Fit(o, Frag([i], [v])) <==> |o.consts| <= 0xFFFF
  {
    AfterOne(o, i);
  }

  // ---------------------------------------------------------------- patched jumps

  /** Jumps whose last two bytes are patched. */
  predicate IsJump(i: Instr) {
    i.JUMP? || i.JUMP_IF_FALSE? || i.AND_KEEP? || i.OR_KEEP? || i.COALESCE? || i.TRY_PUSH? || i.COMPARE_JF?
    || i.COMPARE_I_JF?
  }

  function WithD(i: Instr, d: nat): Instr
    requires IsJump(i)
  {
    i.(d := d)
  }

  function Put(code: seq<nat>, p: nat, d: nat): seq<nat>
    requires p + 2 <= |code|
  {
    code[..p] + U16(d) + code[p + 2..]
  }

  lemma JumpEncoded(i: Instr, d: nat)
    requires IsJump(i)
    ensures Size(WithD(i, d)) == Size(i) >= 3
    ensures Encode(WithD(i, d)) == Encode(i)[..Size(i) - 2] + U16(d)
  {
  }

  /** An open jump, the code it leads over, and the patch that closes it. */
  lemma Patched(o: Out, f: Frag, j: Instr, g: Frag, d: nat)
    requires IsJump(j)
    ensures var p := |o.code| + Len(f.code) + Size(j) - 2;
      var a := After(o, f.Add(WithD(j, 0xFFFF)).Then(g));
      && p + 2 + Len(g.code) == |a.code|
      && After(o, f.Add(WithD(j, d)).Then(g)) == a.(code := Put(a.code, p, d))
      && (Fit(o, f.Add(WithD(j, d)).Then(g)) <==> Fit(o, f.Add(WithD(j, 0xFFFF)).Then(g)) && d <= 0xFFFF)
  {
    hide Resolve, Bytes, Fits, Holes, Encode, After, FitsOne;
    var i, i2 := WithD(j, 0xFFFF), WithD(j, d);
    JumpEncoded(j, 0xFFFF); JumpEncoded(j, d);
    var o1 := After(o, f);
    AfterLen(o, f);
    AfterOne(o1, i); AfterOne(o1, i2);
    AfterAdd(o, f, i); AfterAdd(o, f, i2);
    AfterThen(o, f.Add(i), g); AfterThen(o, f.Add(i2), g);
    PatchedOne(o1, j, g, d);
    SameFit(o1, j, g, d);
    DistanceFits(j, 0xFFFF); DistanceFits(j, d);
  }

  lemma DistanceFits(j: Instr, d: nat)
    requires IsJump(j)
    ensures FitsOne(WithD(j, d)) <==> d <= 0xFFFF
  {
  }

  lemma SameFit(o: Out, j: Instr, g: Frag, d: nat)
    requires IsJump(j)
    ensures var a, b := o.(code := o.code + Encode(WithD(j, 0xFFFF))), o.(code := o.code + Encode(WithD(j, d)));
      Laid(a, g) == Laid(b, g)
  {
    hide Resolve, Encode;
    JumpEncoded(j, 0xFFFF); JumpEncoded(j, d);
  }

  lemma PatchedOne(o: Out, j: Instr, g: Frag, d: nat)
    requires IsJump(j)
    ensures var a := After(o.(code := o.code + Encode(WithD(j, 0xFFFF))), g);
      var p := |o.code| + Size(j) - 2;
      && p + 2 + Len(g.code) == |a.code|
      && After(o.(code := o.code + Encode(WithD(j, d))), g) == a.(code := Put(a.code, p, d))
  {
    hide Resolve, Bytes, Holes, Encode;
    JumpEncoded(j, 0xFFFF); JumpEncoded(j, d);
    SameFit(o, j, g, d);
    var o1, o2 := o.(code := o.code + Encode(WithD(j, 0xFFFF))), o.(code := o.code + Encode(WithD(j, d)));
    AfterLen(o1, g);
    var a, b := After(o1, g).code, After(o2, g).code;
    var p := |o.code| + Size(j) - 2;
    var tail := Bytes(Laid(o1, g));
    assert a == o.code + Encode(j)[..Size(j) - 2] + U16(0xFFFF) + tail;
    assert b == o.code + Encode(j)[..Size(j) - 2] + U16(d) + tail;
    assert a[..p] == o.code + Encode(j)[..Size(j) - 2];
    assert a[p + 2..] == tail;
  }

  /** A condition's code before its jump, and the jump. */
  function CondHead(c: Expr, invert: bool, k: nat): Frag {
    if c.Infix? && IsCompare(c.op) then
      var f := GenExpr(c.l, k);
      if IsSmall(c.r) then f else f.Then(GenExpr(c.r, f.Next(k)))
    else if invert then GenExpr(c, k).Add(PREFIX(Not))
    else GenExpr(c, k)
  }

  function CondJump(c: Expr, invert: bool): (j: Instr)
    ensures IsJump(j)
  {
    if c.Infix? && IsCompare(c.op) then
      var op := if invert then Inverse(c.op) else c.op;
      if IsSmall(c.r) then COMPARE_I_JF(op, c.r.n, 0) else COMPARE_JF(op, 0)
    else JUMP_IF_FALSE(0)
  }

  lemma CondParts(c: Expr, invert: bool, k: nat, d: nat)
    ensures GenCond(c, invert, k, d) == CondHead(c, invert, k).Add(WithD(CondJump(c, invert), d))
    ensures Len(GenCond(c, invert, k, d).code) == Len(CondHead(c, invert, k).code) + Size(CondJump(c, invert))
    ensures Size(CondJump(c, invert)) >= 3
  {
    hide GenExpr, Encode;
    var f, j := CondHead(c, invert, k), WithD(CondJump(c, invert), d);
    assert GenCond(c, invert, k, d) == f.Add(j);
    BytesCat(f.code, [j]);
    BytesOne(j);
    JumpEncoded(CondJump(c, invert), d);
  }

  /** A condition whose jump is patched behind the code that it leads over. */
  lemma CondPatched(o: Out, c: Expr, invert: bool, k: nat, g: Frag, d: nat)
    ensures var f := GenCond(c, invert, k, 0xFFFF);
      var p := |o.code| + Len(f.code) - 2;
      var a := After(o, f.Then(g));
      && Len(f.code) >= 3 && p + 2 + Len(g.code) == |a.code|
      && After(o, GenCond(c, invert, k, d).Then(g)) == a.(code := Put(a.code, p, d))
      && (Fit(o, GenCond(c, invert, k, d).Then(g)) <==> Fit(o, f.Then(g)) && d <= 0xFFFF)
  {
    hide After, Fit, GenCond, CondHead, CondJump, Bytes, Encode;
    CondParts(c, invert, k, 0xFFFF);
    CondParts(c, invert, k, d);
    Patched(o, CondHead(c, invert, k), CondJump(c, invert), g, d);
  }

  // ---------------------------------------------------------------- break and continue

  lemma HolesOne(i: Instr, at: nat)
    ensures Holes([i], at) == if i.BreakJ? then [at + 1] else []
  {
    assert [i][1..] == [];
    assert Holes([], at + Size(i)) == [];
  }

  lemma AfterBreak(o: Out)
    ensures After(o, One(BreakJ)) == Out(o.code + Encode(JUMP(0xFFFF)), o.consts, o.Broken([|o.code| + 1]))
    ensures Fit(o, One(BreakJ))
  {
    BytesOne(BreakJ);
    assert [BreakJ][1..] == [];
    assert Laid(o, One(BreakJ)) == [BreakJ];
    HolesOne(BreakJ, |o.code|);
    assert o.consts + [] == o.consts;
  }

  lemma AfterContinue(o: Out)
    requires o.Cont().To? && o.Cont().addr <= |o.code|
    ensures var f := One(LOOP(|o.code| + 3 - o.Cont().addr));
      After(o, One(ContJ)) == After(o, f) && (Fit(o, One(ContJ)) <==> Fit(o, f))
  {
    hide Bytes;
    var j := LOOP(|o.code| + 3 - o.Cont().addr);
    assert [ContJ][1..] == [] && [j][1..] == [];
    assert Laid(o, One(ContJ)) == [j] == Laid(o, One(j));
    HolesOne(ContJ, |o.code|); HolesOne(j, |o.code|);
  }

  /** A condition, one of two ways, and the two jumps patched in turn. */
  lemma TwoWays(o: Out, c: Expr, k: nat, g: Frag, h: Frag)
    requires k == |o.consts|
    ensures var f0 := GenCond(c, false, k, 0xFFFF);
      var f := GenCond(c, false, k, Len(g.code) + 3);
      var p := |o.code| + Len(f0.code) - 2;
      var q := |o.code| + Len(f0.code) + Len(g.code) + 1;
      var whole := f.Then(g).Add(JUMP(Len(h.code))).Then(h);
      var a := After(o, f0);
      var b := After(a, g);
      var c1 := After(b, One(JUMP(0xFFFF)));
      && Len(f0.code) >= 3 && |a.code| == p + 2 && |a.consts| == k + |CondConsts(c, k)|
      && |b.code| == q - 1 && |b.consts| == g.Next(|a.consts|)
      && |c1.code| == q + 2 && c1.consts == b.consts
      && var d1 := c1.(code := Put(c1.code, p, q - p));
         var e1 := After(d1, h);
         && |e1.code| == q + 2 + Len(h.code) && d1.D() == o.D()
         && After(o, whole) == e1.(code := Put(e1.code, q, Len(h.code)))
         && (Fit(o, whole) <==> Fit(o, f0) && Fit(a, g) && q - p <= 0xFFFF && Fit(d1, h) && Len(h.code) <= 0xFFFF)
  {
    hide After, Fit, Encode, GenCond, Bytes, Put;
    var f0 := GenCond(c, false, k, 0xFFFF);
    var f := GenCond(c, false, k, Len(g.code) + 3);
    var j0, j := JUMP(0xFFFF), JUMP(Len(h.code));
    JumpSize(j0); JumpSize(j); JumpSize(JUMP(0)); BytesOne(j0);
    var y := g.Add(j0);
    assert y == g.Then(One(j0)) by { assert g.consts + [] == g.consts; }
    BytesCat(g.code, [j0]);
    CondPatched(o, c, false, k, y, Len(g.code) + 3);
    AfterLen(o, f0);
    AfterThen(o, f0, y);
    var a := After(o, f0);
    AfterLen(a, g);
    AfterAdd(a, g, j0);
    var b := After(a, g);
    AfterLen(b, One(j0));
    AfterOne(b, j0);
    var x := f.Then(g);
    assert f.Then(y) == x.Add(j0);
    CondLen(c, false, k, 0xFFFF, Len(g.code) + 3);
    BytesCat(f.code, g.code);
    Patched(o, x, JUMP(0), h, Len(h.code));
    AfterThen(o, x.Add(j0), h);
    AfterLen(o, x.Add(j0));
    AfterLen(After(o, x.Add(j0)), h);
  }

  lemma CondLen(c: Expr, invert: bool, k: nat, d: nat, d2: nat)
    ensures Len(GenCond(c, invert, k, d).code) == Len(GenCond(c, invert, k, d2).code)
  {
    hide GenCond, CondHead, CondJump, Bytes;
    CondParts(c, invert, k, d);
    CondParts(c, invert, k, d2);
  }
}
