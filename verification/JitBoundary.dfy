/** A loop that the loop compiler accepts and translates wrongly: its count of operands is linear in the
 code, and a conditional expression has two ends. */
module JitBoundary {
  import opened Bytecode
  import opened Tree
  import opened Codegen
  import opened CodegenLayout
  import opened CodegenMain
  import opened JitWords
  import opened JitMachine
  import opened JitRegion
  import opened JitExits
  import opened JitRuns
  import opened JitLoops
  import opened JitChoices
  import opened Options

  // ---------------------------------------------------------------- the loop

  /** `while i < n: x = i < n ? a : b; i = n`. */
  function Turn(x: nat, i: nat, n: nat, a: int, b: int): Stmt {
    var test := Infix(Lt, Name(i), Name(n));
    While(false, test, [Assign(x, Conditional(test, IntLit(a), IntLit(b)), true), Assign(i, Name(n), true)])
  }

  function TurnCode(x: nat, i: nat, n: nat): seq<Instr> {
    [GET_LOCAL(i), GET_LOCAL(n), COMPARE_JF(Lt, 30), GET_LOCAL(i), GET_LOCAL(n), COMPARE_JF(Lt, 6), CONST(0), JUMP(3),
        CONST(1), SET_LOCAL(x), GET_LOCAL(n), SET_LOCAL(i), LOOP(39)]
  }

  /** The function of this loop, and the loop's region. */
  function TurnRegion(x: nat, i: nat, n: nat, a: int, b: int): Region {
    Region(CodegenMain.Compiled([Turn(x, i, n, a, b)]), 0, 39)
  }

  lemma TestCompiles(i: nat, n: nat, k: nat, d: nat)
    ensures var c := Infix(Lt, Name(i), Name(n));
      && GenCond(c, false, k, d) == Frag([GET_LOCAL(i), GET_LOCAL(n), COMPARE_JF(Lt, d)], [])
      && CondConsts(c, k) == []
  {
    assert GenExpr(Name(i), k) == Frag([GET_LOCAL(i)], []) && GenExpr(Name(n), k) == Frag([GET_LOCAL(n)], []);
    assert [GET_LOCAL(i)] + [GET_LOCAL(n)] + [COMPARE_JF(Lt, d)] == [GET_LOCAL(i), GET_LOCAL(n), COMPARE_JF(Lt, d)];
  }

  function BodyCode(x: nat, i: nat, n: nat): seq<Instr> {
    [GET_LOCAL(i), GET_LOCAL(n), COMPARE_JF(Lt, 6), CONST(0), JUMP(3), CONST(1), SET_LOCAL(x), GET_LOCAL(n),
        SET_LOCAL(i)]
  }

  lemma ChoiceCompiles(x: nat, i: nat, n: nat, a: int, b: int)
    ensures var e := Conditional(Infix(Lt, Name(i), Name(n)), IntLit(a), IntLit(b));
      GenExpr(e, 0) ==
        Frag([GET_LOCAL(i), GET_LOCAL(n), COMPARE_JF(Lt, 6), CONST(0), JUMP(3), CONST(1)], [Int(a), Int(b)])
  {
    hide GenCond, CondConsts;
    var c := Infix(Lt, Name(i), Name(n));
    TestCompiles(i, n, 0, 6);
    BytesOne(CONST(0)); BytesOne(CONST(1));
    var gt, gf := Frag([CONST(0)], [Int(a)]), Frag([CONST(1)], [Int(b)]);
    assert GenExpr(IntLit(a), 0) == gt && GenExpr(IntLit(b), 1) == gf && Len(gt.code) == Len(gf.code) == 3;
    assert GenExpr(Conditional(c, IntLit(a), IntLit(b)), 0) == GenCond(c, false, 0, 6).Then(gt).Add(JUMP(3)).Then(gf);
  }

  lemma BodyCompiles(x: nat, i: nat, n: nat, a: int, b: int)
    ensures GenBlock(Turn(x, i, n, a, b).body, 0, [], InLoop(0)) == Frag(BodyCode(x, i, n), [Int(a), Int(b)])
  {
    hide GenCond, CondConsts, GenExpr;
    var body := Turn(x, i, n, a, b).body;
    ChoiceCompiles(x, i, n, a, b);
    var e := GenExpr(body[0].e, 0);
    assert GenExpr(Name(n), 2) == Frag([GET_LOCAL(n)], []) by { NameCompiles(n, 2); }
    assert GenStmt(body[0], 0, [], InLoop(0)) == e.Add(SET_LOCAL(x));
    assert GenStmt(body[1], 2, [], InLoop(0)) == Frag([GET_LOCAL(n), SET_LOCAL(i)], []);
    OneStatement(body[1], 2, InLoop(0));
    assert body[1..] == [body[1]];
    assert GenBlock(body, 0, [], InLoop(0)) == e.Add(SET_LOCAL(x)).Then(Frag([GET_LOCAL(n), SET_LOCAL(i)], []));
  }

  lemma NameCompiles(n: nat, k: nat)
    ensures GenExpr(Name(n), k) == Frag([GET_LOCAL(n)], [])
  {
  }

  lemma OneStatement(s: Stmt, k: nat, D: Loop)
    ensures GenBlock([s], k, [], D) == GenStmt(s, k, [], D)
  {
    hide GenStmt;
    var f := GenStmt(s, k, [], D);
    assert [s][1..] == [];
    assert f.code + [] == f.code && f.consts + [] == f.consts;
  }

  /** All of its instructions have three bytes. */
  lemma {:induction false} Threes(code: seq<Instr>)
    requires forall i :: i in code ==> Size(i) == 3
    ensures Len(code) == 3 * |code|
  {
    hide Encode;
    if code != [] {
      assert code[0] in code;
      Threes(code[1..]);
    }
  }

  lemma TurnThrees(x: nat, i: nat, n: nat)
    ensures forall c :: c in TurnCode(x, i, n) ==> Size(c) == 3
    ensures forall c :: c in BodyCode(x, i, n) ==> Size(c) == 3
  {
  }

  /** What the bytecode compiler emits for it, and for a function of it alone. */
  lemma TurnCompiles(x: nat, i: nat, n: nat, a: int, b: int)
    ensures GenWhile(Turn(x, i, n, a, b), 0, [], NoLoop) == Frag(TurnCode(x, i, n), [Int(a), Int(b)])
    ensures Len(TurnCode(x, i, n)) == 39
    ensures TurnRegion(x, i, n, a, b).ch == Chunk(Bytes(TurnCode(x, i, n) + [NIL, RETURN]), [Int(a), Int(b)])
  {
    hide GenCond, CondConsts, GenBlock, Bytes, Resolve, Encode;
    var s := Turn(x, i, n, a, b);
    var g := BodyCode(x, i, n);
    TurnThrees(x, i, n);
    Threes(g); Threes(TurnCode(x, i, n));
    BodyCompiles(x, i, n, a, b);
    TestCompiles(i, n, 0, 30);
    var f := [GET_LOCAL(i), GET_LOCAL(n), COMPARE_JF(Lt, 30)];
    Threes(f);
    Unopened(g, 9, To(0), To(39));
    assert f + g + [LOOP(39)] == TurnCode(x, i, n);
    assert [] + [Int(a), Int(b)] == [Int(a), Int(b)];
    assert GenWhile(s, 0, [], NoLoop) == Frag(TurnCode(x, i, n), [Int(a), Int(b)]);
    FunctionOf(s);
    assert TurnCode(x, i, n) + [NIL] + [RETURN] == TurnCode(x, i, n) + [NIL, RETURN];
  }

  lemma {:induction false} Unopened(code: seq<Instr>, at: nat, cont: Target, brk: Target)
    requires forall i :: i in code ==> !Hole(i)
    ensures Resolve(code, at, cont, brk) == code
  {
    hide Encode;
    if code != [] {
      assert code[0] in code;
      Unopened(code[1..], at + Size(code[0]), cont, brk);
    }
  }

  lemma FunctionOf(s: Stmt)
    requires s.While?
    ensures GenFunction([s]) == GenWhile(s, 0, [], NoLoop).Add(NIL).Add(RETURN)
  {
    hide GenWhile;
    OneStatement(s, 0, NoLoop);
  }

  // ---------------------------------------------------------------- its instructions, and what is counted

  lemma Placed(x: nat, i: nat, n: nat, a: int, b: int, m: nat)
    requires m <= 13
    ensures var code := TurnCode(x, i, n) + [NIL, RETURN];
      && Fetch(TurnRegion(x, i, n, a, b).ch.code, 3 * m) == Fetched(code[m], if m < 13 then 3 * m + 3 else 40)
  {
    hide Fetch, Bytes, Bytecode.At, Encode, CodegenMain.Compiled, AllLegal;
    var code, whole := TurnCode(x, i, n) + [NIL, RETURN], TurnRegion(x, i, n, a, b).ch;
    TurnCompiles(x, i, n, a, b);
    TurnThrees(x, i, n);
    Whole(whole.code);
    TurnLegal(x, i, n);
    assert code[..m] == TurnCode(x, i, n)[..m];
    Threes(code[..m]);
    if m < 13 {
      assert code[..m + 1] == TurnCode(x, i, n)[..m + 1];
      Threes(code[..m + 1]);
    } else {
      assert code[..m + 1] == code[..m] + [NIL];
      LenCat(code[..m], [NIL]);
      BytesOne(NIL);
      OpSize(NIL);
    }
    FetchAt(whole, 0, code, m);
  }

  lemma TurnLegal(x: nat, i: nat, n: nat)
    ensures AllLegal(TurnCode(x, i, n) + [NIL, RETURN])
  {
  }

  lemma Whole(code: seq<nat>)
    ensures Bytecode.At(code, 0, code)
  {
    assert code[0..|code|] == code;
  }

  lemma Returns(x: nat, i: nat, n: nat, a: int, b: int)
    ensures Fetch(TurnRegion(x, i, n, a, b).ch.code, 40) == Fetched(RETURN, 41)
  {
    hide Fetch, Bytes, Bytecode.At, Encode, CodegenMain.Compiled, AllLegal;
    var code, whole := TurnCode(x, i, n) + [NIL, RETURN], TurnRegion(x, i, n, a, b).ch;
    TurnCompiles(x, i, n, a, b);
    Whole(whole.code);
    TurnLegal(x, i, n);
    assert code[..14] == TurnCode(x, i, n) + [NIL] && code[..15] == code[..14] + [RETURN];
    LenCat(TurnCode(x, i, n), [NIL]);
    LenCat(code[..14], [RETURN]);
    BytesOne(NIL); BytesOne(RETURN);
    OpSize(NIL); OpSize(RETURN);
    FetchAt(whole, 0, code, 14);
  }

  /** Where each instruction is. */
  predicate IsTurn(r: Region, x: nat, i: nat, n: nat, a: int, b: int) {
    && r.start == 0 && r.end == 39 && r.ch.consts == [Int(a), Int(b)] && TestsThere(r.ch.code, i, n)
    && ChoiceThere(r.ch.code, x, i, n)
  }

  predicate TestsThere(code: seq<nat>, i: nat, n: nat) {
    && Fetch(code, 0) == Fetched(GET_LOCAL(i), 3) && Fetch(code, 3) == Fetched(GET_LOCAL(n), 6)
    && Fetch(code, 6) == Fetched(COMPARE_JF(Lt, 30), 9) && Fetch(code, 9) == Fetched(GET_LOCAL(i), 12)
    && Fetch(code, 12) == Fetched(GET_LOCAL(n), 15) && Fetch(code, 15) == Fetched(COMPARE_JF(Lt, 6), 18)
  }

  predicate ChoiceThere(code: seq<nat>, x: nat, i: nat, n: nat) {
    && Fetch(code, 18) == Fetched(CONST(0), 21) && Fetch(code, 21) == Fetched(JUMP(3), 24)
    && Fetch(code, 24) == Fetched(CONST(1), 27) && Fetch(code, 27) == Fetched(SET_LOCAL(x), 30)
    && Fetch(code, 30) == Fetched(GET_LOCAL(n), 33) && Fetch(code, 33) == Fetched(SET_LOCAL(i), 36)
    && Fetch(code, 36) == Fetched(LOOP(39), 39) && Fetch(code, 39) == Fetched(NIL, 40)
    && Fetch(code, 40) == Fetched(RETURN, 41)
  }

  lemma ListingTests(x: nat, i: nat, n: nat, a: int, b: int)
    ensures TestsThere(TurnRegion(x, i, n, a, b).ch.code, i, n)
  {
    hide Fetch, CodegenMain.Compiled;
    Placed(x, i, n, a, b, 0); Placed(x, i, n, a, b, 1); Placed(x, i, n, a, b, 2); Placed(x, i, n, a, b, 3);
    Placed(x, i, n, a, b, 4); Placed(x, i, n, a, b, 5);
  }

  lemma ListingChoice(x: nat, i: nat, n: nat, a: int, b: int)
    ensures ChoiceThere(TurnRegion(x, i, n, a, b).ch.code, x, i, n)
  {
    hide Fetch, CodegenMain.Compiled;
    Placed(x, i, n, a, b, 6); Placed(x, i, n, a, b, 7); Placed(x, i, n, a, b, 8); Placed(x, i, n, a, b, 9);
    Placed(x, i, n, a, b, 10); Placed(x, i, n, a, b, 11); Placed(x, i, n, a, b, 12); Placed(x, i, n, a, b, 13);
    Returns(x, i, n, a, b);
  }

  lemma Listing(x: nat, i: nat, n: nat, a: int, b: int)
    ensures IsTurn(TurnRegion(x, i, n, a, b), x, i, n, a, b)
  {
    hide Fetch, CodegenMain.Compiled, TestsThere, ChoiceThere;
    ListingTests(x, i, n, a, b);
    ListingChoice(x, i, n, a, b);
    TurnCompiles(x, i, n, a, b);
  }

  /** Three different slots. */
  predicate Apart(x: nat, i: nat, n: nat) { x != i && x != n && i != n }

  /** The count goes on over the jump: it is two at the assignment, and one at the end. */
  lemma Counted(r: Region, x: nat, i: nat, n: nat, a: int, b: int)
    requires IsTurn(r, x, i, n, a, b)
    ensures Visits(r, 0, 0) && Visits(r, 27, 2) && Visits(r, 36, 1) && Visits(r, 39, 1)
  {
    hide Fetch, Scan;
    ScanStart(r);
    ScanOn(r, 0, 0, 0, 0); ScanOn(r, 0, 0, 3, 1); ScanOn(r, 0, 0, 6, 2); ScanOn(r, 0, 0, 9, 0); ScanOn(r, 0, 0, 12, 1);
    ScanOn(r, 0, 0, 15, 2); ScanOn(r, 0, 0, 18, 0); ScanOn(r, 0, 0, 21, 1); ScanOn(r, 0, 0, 24, 1);
    ScanOn(r, 0, 0, 27, 2); ScanOn(r, 0, 0, 30, 1); ScanOn(r, 0, 0, 33, 2); ScanOn(r, 0, 0, 36, 1);
  }

  lemma ScanStart(r: Region)
    ensures Scan(r, r.start, 0, r.start) == Some(0)
  {
  }

  lemma Passes(r: Region, x: nat, i: nat, n: nat, a: int, b: int)
    requires Inline(a) && Inline(b) && Apart(x, i, n) && IsTurn(r, x, i, n, a, b)
    ensures Accepted(r) && UsesOf(r).value.slots == [i, n, x]
  {
    hide Fetch, Prepass, NoZeroMod, IsTurn;
    PassesTest(r, x, i, n, a, b);
    PassesChoice(r, x, i, n, a, b);
    PassesRest(r, x, i, n, a, b);
    assert r.start == 0 by { TurnStarts(r, x, i, n, a, b); }
  }

  lemma TurnStarts(r: Region, x: nat, i: nat, n: nat, a: int, b: int)
    requires IsTurn(r, x, i, n, a, b)
    ensures r.start == 0 && r.end == 39
  {
  }

  lemma PassesTest(r: Region, x: nat, i: nat, n: nat, a: int, b: int)
    requires Apart(x, i, n) && IsTurn(r, x, i, n, a, b)
    ensures Prepass(r, 0, 0, Uses([], 0)) == Prepass(r, 9, 0, Uses([i, n], 2)) && (NoZeroMod(r, 0) <==> NoZeroMod(r, 9))
  {
    hide Fetch, Prepass, NoZeroMod;
    assert [] + [i] == [i] && [i] + [n] == [i, n];
    PassOne(r, 0, 0, Uses([], 0), Uses([i], 1));
    PassOne(r, 3, 1, Uses([i], 1), Uses([i, n], 2));
    PassOne(r, 6, 2, Uses([i, n], 2), Uses([i, n], 2));
  }

  lemma PassesChoice(r: Region, x: nat, i: nat, n: nat, a: int, b: int)
    requires Inline(a) && Inline(b) && IsTurn(r, x, i, n, a, b)
    ensures Prepass(r, 9, 0, Uses([i, n], 2)) == Prepass(r, 27, 2, Uses([i, n], 2))
    ensures NoZeroMod(r, 9) <==> NoZeroMod(r, 27)
  {
    hide Fetch, Prepass, NoZeroMod;
    var u := Uses([i, n], 2);
    PassOne(r, 9, 0, u, u); PassOne(r, 12, 1, u, u); PassOne(r, 15, 2, u, u); PassOne(r, 18, 0, u, u);
    PassOne(r, 21, 1, u, u); PassOne(r, 24, 1, u, u);
  }

  lemma PassesRest(r: Region, x: nat, i: nat, n: nat, a: int, b: int)
    requires Apart(x, i, n) && IsTurn(r, x, i, n, a, b)
    ensures Prepass(r, 27, 2, Uses([i, n], 2)) == Some(Uses([i, n, x], 2)) && NoZeroMod(r, 27)
  {
    hide Fetch, Prepass, NoZeroMod;
    var u, v := Uses([i, n], 2), Uses([i, n, x], 2);
    assert [i, n] + [x] == [i, n, x];
    PassOne(r, 27, 2, u, v); PassOne(r, 30, 1, v, v); PassOne(r, 33, 2, v, v); PassOne(r, 36, 1, v, v);
    PassEnd(r, 39, 1, v);
  }

  lemma PassOne(r: Region, at: nat, d: nat, u: Uses, v: Uses)
    requires at < r.end && Fetch(r.ch.code, at).Fetched?
    requires var f := Fetch(r.ch.code, at);
      && Supported(f.i) && f.next <= r.end && GoodConst(r.ch, f.i) && d + Delta(f.i) >= 0 && f.i != BINARY_I(Mod, 0)
      && v == Uses(AddSlot(u.slots, f.i), if After(d, f.i) > u.depth then After(d, f.i) else u.depth)
    ensures var f := Fetch(r.ch.code, at);
      Prepass(r, at, d, u) == Prepass(r, f.next, After(d, f.i), v) && (NoZeroMod(r, at) <==> NoZeroMod(r, f.next))
  {
    hide Fetch;
  }

  lemma PassEnd(r: Region, at: nat, d: nat, u: Uses)
    requires at >= r.end
    ensures Prepass(r, at, d, u) == Some(u) && NoZeroMod(r, at)
  {
  }

  // ---------------------------------------------------------------- what the interpreter does

  /** The interpreter's states, entering with `i` less than `n`: one turn, the test again, the return. */
  function Stage(v: VM, x: nat, i: nat, n: nat, a: int, k: nat): VM
    requires v.Running? && x < |v.locals| && i < |v.locals| && n < |v.locals|
  {
    var I, N, S := v.locals[i], v.locals[n], v.stack;
    var l1 := v.locals[x := Int(a)];
    var l2 := l1[i := N];
    if k == 0 then v.(pc := 0)
    else if k == 1 then v.(pc := 3, stack := S + [I])
    else if k == 2 then v.(pc := 6, stack := S + [I] + [N])
    else if k == 3 then v.(pc := 9)
    else if k == 4 then v.(pc := 12, stack := S + [I])
    else if k == 5 then v.(pc := 15, stack := S + [I] + [N])
    else if k == 6 then v.(pc := 18)
    else if k == 7 then v.(pc := 21, stack := S + [Int(a)])
    else if k == 8 then v.(pc := 27, stack := S + [Int(a)])
    else if k == 9 then v.(pc := 30, locals := l1)
    else if k == 10 then v.(pc := 33, stack := S + [N], locals := l1)
    else if k == 11 then v.(pc := 36, locals := l2)
    else if k == 12 then v.(pc := 0, locals := l2)
    else if k == 13 then v.(pc := 3, stack := S + [N], locals := l2)
    else if k == 14 then v.(pc := 6, stack := S + [N] + [N], locals := l2)
    else if k == 15 then v.(pc := 39, locals := l2)
    else if k == 16 then v.(pc := 40, stack := S + [Null], locals := l2)
    else Returned(Null, l2, v.out)
  }

  /** What the loop is entered with. */
  predicate Enter(v: VM, x: nat, i: nat, n: nat) {
    && v.Running? && Apart(x, i, n) && x < |v.locals| && i < |v.locals| && n < |v.locals|
    && v.locals[i].Int? && v.locals[n].Int? && v.locals[i].n < v.locals[n].n
  }

  lemma StageStep(r: Region, v: VM, x: nat, i: nat, n: nat, a: int, b: int, k: nat)
    requires IsTurn(r, x, i, n, a, b) && Enter(v, x, i, n)
    ensures Step(r.ch, Stage(v, x, i, n, a, k)) == Stage(v, x, i, n, a, k + 1)
  {
    hide Step, IsTurn, Stage, Enter;
    if k <= 2 {
      TestSteps(r, v, x, i, n, a, b, k);
    } else if k <= 5 {
      InnerTestSteps(r, v, x, i, n, a, b, k);
    } else if k <= 8 {
      ChoiceSteps(r, v, x, i, n, a, b, k);
    } else if k <= 11 {
      NextSteps(r, v, x, i, n, a, b, k);
    } else if k <= 14 {
      LastTestSteps(r, v, x, i, n, a, b, k);
    } else {
      ReturnSteps(r, v, x, i, n, a, b, k);
    }
  }

  /** What lies on the stack above the caller's part. */
  lemma Topmost(S: seq<Value>, y: Value, z: Value)
    ensures (S + [y])[|S|] == y && (S + [y])[..|S|] == S
    ensures (S + [y] + [z])[|S|] == y && (S + [y] + [z])[|S| + 1] == z && (S + [y] + [z])[..|S|] == S
  {
  }

  lemma TestSteps(r: Region, v: VM, x: nat, i: nat, n: nat, a: int, b: int, k: nat)
    requires IsTurn(r, x, i, n, a, b) && Enter(v, x, i, n) && k <= 2
    ensures Step(r.ch, Stage(v, x, i, n, a, k)) == Stage(v, x, i, n, a, k + 1)
  {
    hide Fetch, Perform;
    if k == 2 {
      LessStep(r.ch, Stage(v, x, i, n, a, 2), v.stack, v.locals[i].n, v.locals[n].n, 30, 9);
    } else {
      LoadStep(r.ch, Stage(v, x, i, n, a, k), if k == 0 then i else n, 3 * k + 3);
    }
  }

  lemma InnerTestSteps(r: Region, v: VM, x: nat, i: nat, n: nat, a: int, b: int, k: nat)
    requires IsTurn(r, x, i, n, a, b) && Enter(v, x, i, n) && 3 <= k <= 5
    ensures Step(r.ch, Stage(v, x, i, n, a, k)) == Stage(v, x, i, n, a, k + 1)
  {
    hide Fetch, Perform;
    if k == 5 {
      LessStep(r.ch, Stage(v, x, i, n, a, 5), v.stack, v.locals[i].n, v.locals[n].n, 6, 18);
    } else {
      LoadStep(r.ch, Stage(v, x, i, n, a, k), if k == 3 then i else n, 3 * k + 3);
    }
  }

  lemma LoadStep(ch: Chunk, s: VM, slot: nat, next: nat)
    requires s.Running? && slot < |s.locals|
    ensures Perform(ch, s, GET_LOCAL(slot), next) == s.(pc := next, stack := s.stack + [s.locals[slot]])
  {
  }

  lemma LessStep(ch: Chunk, s: VM, S: seq<Value>, y: int, z: int, e: nat, next: nat)
    requires s.Running? && s.stack == S + [Int(y)] + [Int(z)]
    ensures Perform(ch, s, COMPARE_JF(Lt, e), next) == s.(pc := if y < z then next else next + e, stack := S)
  {
    Topmost(S, Int(y), Int(z));
  }

  lemma ChoiceSteps(r: Region, v: VM, x: nat, i: nat, n: nat, a: int, b: int, k: nat)
    requires IsTurn(r, x, i, n, a, b) && Enter(v, x, i, n) && 6 <= k <= 8
    ensures Step(r.ch, Stage(v, x, i, n, a, k)) == Stage(v, x, i, n, a, k + 1)
  {
    hide Fetch;
    Topmost(v.stack, Int(a), Null);
  }

  lemma NextSteps(r: Region, v: VM, x: nat, i: nat, n: nat, a: int, b: int, k: nat)
    requires IsTurn(r, x, i, n, a, b) && Enter(v, x, i, n) && 9 <= k <= 11
    ensures Step(r.ch, Stage(v, x, i, n, a, k)) == Stage(v, x, i, n, a, k + 1)
  {
    hide Fetch, Perform;
    var s := Stage(v, x, i, n, a, k);
    if k == 9 {
      LoadStep(r.ch, s, n, 33);
    } else if k == 10 {
      StoreStep(r.ch, s, v.stack, v.locals[n], i, 36);
    } else {
      PerformJump(r.ch, s, LOOP(39), 39);
    }
  }

  lemma StoreStep(ch: Chunk, s: VM, S: seq<Value>, y: Value, slot: nat, next: nat)
    requires s.Running? && slot < |s.locals| && s.stack == S + [y]
    ensures Perform(ch, s, SET_LOCAL(slot), next) == s.(pc := next, stack := S, locals := s.locals[slot := y])
  {
    Topmost(S, y, y);
  }

  lemma LastTestSteps(r: Region, v: VM, x: nat, i: nat, n: nat, a: int, b: int, k: nat)
    requires IsTurn(r, x, i, n, a, b) && Enter(v, x, i, n) && 12 <= k <= 14
    ensures Step(r.ch, Stage(v, x, i, n, a, k)) == Stage(v, x, i, n, a, k + 1)
  {
    hide Fetch, Perform;
    if k == 14 {
      LessStep(r.ch, Stage(v, x, i, n, a, 14), v.stack, v.locals[n].n, v.locals[n].n, 30, 9);
    } else {
      LoadStep(r.ch, Stage(v, x, i, n, a, k), if k == 12 then i else n, 3 * k - 33);
    }
  }

  lemma ReturnSteps(r: Region, v: VM, x: nat, i: nat, n: nat, a: int, b: int, k: nat)
    requires IsTurn(r, x, i, n, a, b) && Enter(v, x, i, n) && 15 <= k
    ensures Step(r.ch, Stage(v, x, i, n, a, k)) == Stage(v, x, i, n, a, k + 1)
  {
    hide Fetch, Perform;
    if k <= 16 { EndSteps(r.ch, Stage(v, x, i, n, a, k), v.stack); }
  }

  lemma EndSteps(ch: Chunk, s: VM, S: seq<Value>)
    requires s.Running?
    ensures s.stack == S ==> Perform(ch, s, NIL, 40) == s.(pc := 40, stack := S + [Null])
    ensures s.stack == S + [Null] ==> Perform(ch, s, RETURN, 41) == Returned(Null, s.locals, s.out)
  {
    Topmost(S, Null, Null);
  }

  lemma {:induction false} StagesRun(r: Region, v: VM, x: nat, i: nat, n: nat, a: int, b: int, j: nat, k: nat)
    requires IsTurn(r, x, i, n, a, b) && Enter(v, x, i, n)
    ensures Run(r.ch, Stage(v, x, i, n, a, j), k) == Stage(v, x, i, n, a, j + k)
    decreases k
  {
    hide Step, IsTurn, Stage, Enter;
    if k > 0 {
      StageStep(r, v, x, i, n, a, b, j);
      StagesRun(r, v, x, i, n, a, b, j + 1, k - 1);
    }
  }

  // ---------------------------------------------------------------- what the register code does

  /** From `m0`, with the frame untouched: at the code of `off`, where `d` operands are counted, with these
      values in the pool. */
  ghost predicate Holding(w: World, m0: M, m: M, off: nat, d: nat, pool: seq<int>, polls: nat) {
    && m0.Go? && m.Go? && Gets(w.j, w.gc, m0, m, 0) && m.slots == m0.slots && m.area == m0.area && m.sp == m0.sp
    && m.regs.pool == pool && m.polls == polls && StandsAt(w.j, m.pc, Rest(w.r, w.L, off, d))
  }

  lemma CodeHere(w: World, m0: M, m: M, off: nat, d: nat, pool: seq<int>, polls: nat, i: Instr, next: nat)
    requires Holding(w, m0, m, off, d, pool, polls) && off < w.r.end && Fetch(w.r.ch.code, off) == Fetched(i, next)
    ensures StandsAt(w.j, m.pc, EmitOne(w.r, w.L, i, off, next, d))
    ensures StandsAt(w.j, m.pc + |EmitOne(w.r, w.L, i, off, next, d)|, Rest(w.r, w.L, next, After(d, i)))
  {
    hide EmitOne, StandsAt, Gets, Fetch;
    RestIs(w.r, w.L, off, d);
    StandsCat(w.j, m.pc, EmitOne(w.r, w.L, i, off, next, d), Rest(w.r, w.L, next, After(d, i)));
  }

  lemma Loads(w: World, m0: M, m: M, off: nat, d: nat, pool: seq<int>, polls: nat, s: nat, next: nat) returns (t: M)
    requires Holding(w, m0, m, off, d, pool, polls) && off < w.r.end
    requires Fetch(w.r.ch.code, off) == Fetched(GET_LOCAL(s), next) && s in w.L && |w.L| + d < |pool|
    ensures Holding(w, m0, t, next, d + 1, pool[|w.L| + d := pool[IndexOf(w.L, s)]], polls)
  {
    hide StandsAt, Gets, Fetch, Rest;
    CodeHere(w, m0, m, off, d, pool, polls, GET_LOCAL(s), next);
    OneMove(w, m, Pool(|w.L| + d), Pool(IndexOf(w.L, s)));
    t := m.(pc := m.pc + 1, regs := m.regs.Put(Pool(|w.L| + d), pool[IndexOf(w.L, s)]));
    GetsOn(w.j, w.gc, m0, m, t, 0, 0);
  }

  lemma Consts(w: World, m0: M, m: M, off: nat, d: nat, pool: seq<int>, polls: nat, k: nat, next: nat) returns (t: M)
    requires Holding(w, m0, m, off, d, pool, polls) && off < w.r.end
    requires Fetch(w.r.ch.code, off) == Fetched(CONST(k), next) && GoodConst(w.r.ch, CONST(k)) && |w.L| + d < |pool|
    ensures Holding(w, m0, t, next, d + 1, pool[|w.L| + d := w.r.ch.consts[k].n], polls)
  {
    hide StandsAt, Gets, Fetch, Rest;
    CodeHere(w, m0, m, off, d, pool, polls, CONST(k), next);
    OneConst(w, m, Pool(|w.L| + d), w.r.ch.consts[k].n);
    t := m.(pc := m.pc + 1, regs := m.regs.Put(Pool(|w.L| + d), w.r.ch.consts[k].n));
    GetsOn(w.j, w.gc, m0, m, t, 0, 0);
  }

  lemma Stores(w: World, m0: M, m: M, off: nat, d: nat, pool: seq<int>, polls: nat, s: nat, next: nat) returns (t: M)
    requires Holding(w, m0, m, off, d, pool, polls) && off < w.r.end && d >= 1
    requires Fetch(w.r.ch.code, off) == Fetched(SET_LOCAL(s), next) && s in w.L && |w.L| + d <= |pool|
    ensures Holding(w, m0, t, next, d - 1, pool[IndexOf(w.L, s) := pool[|w.L| + d - 1]], polls)
  {
    hide StandsAt, Gets, Fetch, Rest;
    CodeHere(w, m0, m, off, d, pool, polls, SET_LOCAL(s), next);
    OneMove(w, m, Pool(IndexOf(w.L, s)), Pool(|w.L| + d - 1));
    t := m.(pc := m.pc + 1, regs := m.regs.Put(Pool(IndexOf(w.L, s)), pool[|w.L| + d - 1]));
    GetsOn(w.j, w.gc, m0, m, t, 0, 0);
  }

  /** A comparison, up to its jump. */
  lemma Compared(w: World, m0: M, m: M, off: nat, d: nat, pool: seq<int>, polls: nat, e: nat, next: nat) returns (t: M)
    requires Holding(w, m0, m, off, d, pool, polls) && off < w.r.end && d >= 2
    requires Fetch(w.r.ch.code, off) == Fetched(COMPARE_JF(Lt, e), next) && |w.L| + d <= |pool|
    ensures pool[|w.L| + d - 2] < pool[|w.L| + d - 1] ==> Holding(w, m0, t, next, d - 2, pool, polls)
    ensures pool[|w.L| + d - 2] >= pool[|w.L| + d - 1] ==>
      && t.Go? && Gets(w.j, w.gc, m0, t, 0) && t == m.(pc := t.pc, flags := t.flags)
      && StandsAt(w.j, t.pc, BranchTo(w.r, next + e, d - 2, |w.L|))
  {
    hide StandsAt, Gets, Fetch, Rest, EmitOne, BranchTo;
    var k := |w.L|;
    var i := COMPARE_JF(Lt, e);
    var branch := BranchTo(w.r, next + e, d - 2, k);
    CodeHere(w, m0, m, off, d, pool, polls, i, next);
    CompareCode(w, i, off, next, d);
    StandsCat(w.j, m.pc, [CmpRR(Pool(k + d - 2), Pool(k + d - 1))], [Jcc(JitMachine.L, Over(|branch|))] + branch);
    StandsCat(w.j, m.pc + 1, [Jcc(JitMachine.L, Over(|branch|))], branch);
    OneCompare(w.j, w.gc, m, Pool(k + d - 2), Pool(k + d - 1));
    var u := m.(pc := m.pc + 1, flags := (pool[k + d - 2], pool[k + d - 1]));
    JumpOver(w.j, w.gc, u, JitMachine.L, |branch|);
    t := if Holds(JitMachine.L, u.flags) then u.(pc := u.pc + 1 + |branch|) else u.(pc := u.pc + 1);
    GetsOn(w.j, w.gc, m0, m, u, 0, 0);
    GetsOn(w.j, w.gc, m0, u, t, 0, 0);
  }

  /** At an address of the region, `d` operands counted. */
  lemma Lands(w: World, m0: M, m: M, u: M, t: M, off: nat, d: nat, pool: seq<int>, polls: nat)
    requires w.j == JitRegion.Compiled(w.r, w.L) && Visits(w.r, off, d) && off < w.r.end
    requires Fetch(w.r.ch.code, off).Fetched?
    requires m0.Go? && m.Go? && u.Go? && Gets(w.j, w.gc, m0, u, 0) && StandsAt(w.j, u.pc, [Jmp(At(off))])
    requires u.slots == m0.slots && u.area == m0.area && u.sp == m0.sp && u.regs.pool == pool && u.polls == polls
    requires t == JStep(w.j, w.gc, u)
    ensures Holding(w, m0, t, off, d, pool, polls)
  {
    hide Gets, Fetch, JitRegion.Compiled, Scan;
    TailPlaced(w);
    LabelStands(w.r, w.L, w.j, w.r.start, 0, |Prologue(w.L, 0)|, off, d);
    OneAsm(w.j, w.gc, u, Jmp(At(off)));
    GetsOn(w.j, w.gc, m0, u, t, 0, 1);
  }

  lemma Jumps(w: World, m0: M, m: M, off: nat, d: nat, pool: seq<int>, polls: nat, e: nat, next: nat, d2: nat)
    returns (t: M)
    requires w.j == JitRegion.Compiled(w.r, w.L) && Holding(w, m0, m, off, d, pool, polls) && off < w.r.end
    requires Fetch(w.r.ch.code, off) == Fetched(JUMP(e), next) && w.r.start <= next + e < w.r.end
    requires Visits(w.r, next + e, d2) && Fetch(w.r.ch.code, next + e).Fetched?
    ensures Holding(w, m0, t, next + e, d2, pool, polls)
  {
    hide StandsAt, Gets, Fetch, Rest, JitRegion.Compiled, Scan, JStep;
    CodeHere(w, m0, m, off, d, pool, polls, JUMP(e), next);
    t := JStep(w.j, w.gc, m);
    Lands(w, m0, m, m, t, next + e, d2, pool, polls);
  }

  /** A jump back, the collector not waiting. */
  lemma JumpsBack(w: World, m0: M, m: M, off: nat, d: nat, pool: seq<int>, polls: nat, e: nat, next: nat, d2: nat)
    returns (t: M)
    requires w.j == JitRegion.Compiled(w.r, w.L) && Holding(w, m0, m, off, d, pool, polls) && off < w.r.end
    requires Fetch(w.r.ch.code, off) == Fetched(LOOP(e), next) && e <= next && w.r.start <= next - e < w.r.end
    requires Visits(w.r, next - e, d2) && Fetch(w.r.ch.code, next - e).Fetched? && !w.gc(polls)
    ensures Holding(w, m0, t, next - e, d2, pool, polls + 1)
  {
    hide StandsAt, Gets, Fetch, Rest, JitRegion.Compiled, Scan, JStep, EmitOne, BailTo;
    CodeHere(w, m0, m, off, d, pool, polls, LOOP(e), next);
    LoopCode(w, m.pc, LOOP(e), off, next, d);
    FlagRuns(w.j, w.gc, m);
    var bail := BailTo(next - e, d, |w.L|);
    var u := m.(pc := m.pc + 2, regs := m.regs.(rax := 0, rcx := 0), polls := polls + 1, flags := (0, 0));
    JumpOver(w.j, w.gc, u, E, |bail|);
    var y := u.(pc := u.pc + 1 + |bail|);
    GetsOn(w.j, w.gc, m0, m, u, 0, 0);
    GetsOn(w.j, w.gc, m0, u, y, 0, 0);
    t := JStep(w.j, w.gc, y);
    Lands(w, m0, m, y, t, next - e, d2, pool, polls + 1);
  }

  /** The test of the loop, and the one inside it. */
  lemma Tests(w: World, m0: M, m: M, x: nat, i: nat, n: nat, a: int, b: int, off: nat, pool: seq<int>, polls: nat)
    returns (t: M)
    requires IsTurn(w.r, x, i, n, a, b) && w.L == [i, n, x] && Apart(x, i, n) && |pool| == POOL_N
    requires Holding(w, m0, m, off, 0, pool, polls) && (off == 0 || off == 9)
    ensures var p2 := pool[3 := pool[0]][4 := pool[1]];
      && (pool[0] < pool[1] ==> Holding(w, m0, t, off + 9, 0, p2, polls))
      && (pool[0] >= pool[1] ==>
           && t.Go? && Gets(w.j, w.gc, m0, t, 0) && t.slots == m0.slots && t.area == m0.area && t.sp == m0.sp
           && t.regs.pool == p2 && StandsAt(w.j, t.pc, BranchTo(w.r, if off == 0 then 39 else 24, 0, 3)))
  {
    hide Holding, Fetch, BranchTo, StandsAt, Gets;
    Indices(x, i, n);
    var m1 := Loads(w, m0, m, off, 0, pool, polls, i, off + 3);
    var p1 := pool[3 := pool[0]];
    var m2 := Loads(w, m0, m1, off + 3, 1, p1, polls, n, off + 6);
    var p2 := p1[4 := pool[1]];
    t := Compared(w, m0, m2, off + 6, 2, p2, polls, if off == 0 then 30 else 6, off + 9);
    HeldAt(w, m0, m2, off + 6, 2, p2, polls);
  }

  lemma HeldAt(w: World, m0: M, m: M, off: nat, d: nat, pool: seq<int>, polls: nat)
    requires Holding(w, m0, m, off, d, pool, polls)
    ensures m0.Go? && m.Go? && m.slots == m0.slots && m.area == m0.area && m.sp == m0.sp && m.regs.pool == pool
  {
  }

  lemma Indices(x: nat, i: nat, n: nat)
    requires Apart(x, i, n)
    ensures var L := [i, n, x];
      && i in L && n in L && x in L && IndexOf(L, i) == 0 && IndexOf(L, n) == 1 && IndexOf(L, x) == 2
      && Distinct(L) && (forall y :: y in L <==> y == i || y == n || y == x)
  {
    var L := [i, n, x];
    assert L[1..] == [n, x] && L[1..][1..] == [x];
    assert L[0] == i && L[1] == n && L[2] == x;
  }

  /** One turn: `x` gets what `n` holds, and `a` stays behind in the first register of operands. */
  lemma OneTurn(w: World, m0: M, m: M, x: nat, i: nat, n: nat, a: int, b: int, pool: seq<int>, polls: nat)
    returns (t: M)
    requires IsTurn(w.r, x, i, n, a, b) && w.L == [i, n, x] && Apart(x, i, n) && |pool| == POOL_N && Inline(a)
    requires w.j == JitRegion.Compiled(w.r, w.L) && Holding(w, m0, m, 0, 0, pool, polls) && pool[0] < pool[1]
    ensures var N := pool[1]; Holding(w, m0, t, 36, 1, [N, N, N, a, N, pool[5], pool[6]], polls)
  {
    hide Holding, Fetch, BranchTo, StandsAt, Gets, Scan, JitRegion.Compiled;
    Counted(w.r, x, i, n, a, b);
    Indices(x, i, n);
    var I, N, X, y, z := pool[0], pool[1], pool[2], pool[5], pool[6];
    var p1 := pool[3 := I][4 := N];
    assert p1 == [I, N, X, I, N, y, z];
    var m1 := Tests(w, m0, m, x, i, n, a, b, 0, pool, polls);
    var m2 := Tests(w, m0, m1, x, i, n, a, b, 9, p1, polls);
    assert p1[3 := I][4 := N] == p1;
    var m3 := Consts(w, m0, m2, 18, 0, p1, polls, 0, 21);
    var p2 := [I, N, X, a, N, y, z];
    assert p1[3 := a] == p2;
    var m4 := Jumps(w, m0, m3, 21, 1, p2, polls, 3, 24, 2);
    var m5 := Stores(w, m0, m4, 27, 2, p2, polls, x, 30);
    var p3 := [I, N, N, a, N, y, z];
    assert p2[2 := N] == p3;
    var m6 := Loads(w, m0, m5, 30, 1, p3, polls, n, 33);
    assert p3[4 := N] == p3;
    t := Stores(w, m0, m6, 33, 2, p3, polls, i, 36);
    assert p3[0 := N] == [N, N, N, a, N, y, z];
  }

  /** The collector waiting: left for the loop's start with `a` as operand. */
  lemma TurnLeaves(w: World, m0: M, m: M, x: nat, i: nat, n: nat, a: int, b: int, pool: seq<int>, polls: nat)
    requires IsTurn(w.r, x, i, n, a, b) && w.L == [i, n, x] && Apart(x, i, n) && w.gc(polls)
    requires w.j == JitRegion.Compiled(w.r, w.L) && Holding(w, m0, m, 36, 1, pool, polls) && Roomy(w.L, m0, 1)
    requires |pool| == POOL_N
    ensures exists t :: Gets(w.j, w.gc, m0, t, 1) && t.Left? && t.off == 0 && |t.stack| == 1
  {
    hide Fetch, BranchTo, StandsAt, Gets, Scan, JitRegion.Compiled, EmitOne, Rest;
    CodeHere(w, m0, m, 36, 1, pool, polls, LOOP(39), 39);
    BackEdgeLeaves(w, m, LOOP(39), 36, 39, 1);
    var t :| Gets(w.j, w.gc, m, t, 1) && LeftAs(w.L, m, t, 0, 1);
    GetsOn(w.j, w.gc, m0, m, t, 0, 1);
  }

  /** Left at the loop's end, the registers of the locals written back. */
  predicate Ended(L: seq<nat>, m0: M, t: M, pool: seq<int>)
    requires m0.Go? && |L| <= |pool|
  {
    && t.Left? && t.off == 39 && t.stack == [] && |t.frame| == |m0.slots|
    && forall y | 0 <= y < |m0.slots| :: t.frame[y] == if y in L then Boxed(pool[IndexOf(L, y)]) else m0.slots[y]
  }

  /** The collector not waiting: the test fails, and the loop is left at its end. */
  lemma TurnEnds(w: World, m0: M, m: M, x: nat, i: nat, n: nat, a: int, b: int, pool: seq<int>, polls: nat)
    requires IsTurn(w.r, x, i, n, a, b) && w.L == [i, n, x] && Apart(x, i, n) && !w.gc(polls)
    requires w.j == JitRegion.Compiled(w.r, w.L) && Holding(w, m0, m, 36, 1, pool, polls) && Roomy(w.L, m0, 1)
    requires |pool| == POOL_N && pool[0] >= pool[1]
    ensures exists t :: Gets(w.j, w.gc, m0, t, 1) && Ended(w.L, m0, t, pool)
  {
    hide Holding, Fetch, StandsAt, Gets, Scan, JitRegion.Compiled, Boxed, TailStands, BailTo;
    Counted(w.r, x, i, n, a, b);
    var m1 := JumpsBack(w, m0, m, 36, 1, pool, polls, 39, 39, 0);
    HeldAt(w, m0, m, 36, 1, pool, polls);
    var u := Tests(w, m0, m1, x, i, n, a, b, 0, pool, polls + 1);
    TailPlaced(w);
    BailLeaves(w.j, w.gc, w.L, u, 0, 39);
    var t :| Gets(w.j, w.gc, u, t, 1) && LeftAs(w.L, u, t, 39, 0);
    GetsOn(w.j, w.gc, m0, u, t, 0, 1);
    Indices(x, i, n);
    forall y | 0 <= y < |m0.slots|
      ensures t.frame[y] == if y in w.L then Boxed(pool[IndexOf(w.L, y)]) else m0.slots[y]
    {
      if y in w.L { assert u.regs.pool[IndexOf(w.L, y)] == pool[IndexOf(w.L, y)]; }
    }
    assert Ended(w.L, m0, t, pool);
  }

  // ---------------------------------------------------------------- where they disagree

  lemma Disagrees(w: World, m: M, v: VM, t: M)
    requires Gets(w.j, w.gc, m, t, 1) && t.Left?
    requires forall k: nat :: !Exits(w.heap, w.e, t, Run(w.r.ch, v, k))
    ensures exists steps: nat :: !Agrees(w, m, v, steps)
  {
    hide Exits;
    var steps: nat :| JRun(w.j, w.gc, m, steps) == t;
    assert !Agrees(w, m, v, steps);
  }

  /** The interpreter has no operand at the loop's start. */
  lemma NeverThere(w: World, v: VM, x: nat, i: nat, n: nat, a: int, b: int, t: M, k: nat)
    requires IsTurn(w.r, x, i, n, a, b) && Enter(v, x, i, n) && v.pc == 0 && v.stack == w.e.base
    requires t.Left? && t.off == 0 && |t.stack| == 1
    ensures !Exits(w.heap, w.e, t, Run(w.r.ch, v, k))
  {
    hide IsTurn;
    StagesRun(w.r, v, x, i, n, a, b, 0, k);
  }

  /** At the loop's end, `x` is `a` for the interpreter. */
  lemma AtTheEnd(w: World, v: VM, x: nat, i: nat, n: nat, a: int, b: int, t: M, k: nat)
    requires IsTurn(w.r, x, i, n, a, b) && Enter(v, x, i, n) && v.pc == 0
    requires t.Left? && t.off == 39 && |t.frame| == |v.locals| && Exits(w.heap, w.e, t, Run(w.r.ch, v, k))
    ensures ValueOf(w.heap, t.frame[x]) == Int(a)
  {
    hide IsTurn, ValueOf;
    StagesRun(w.r, v, x, i, n, a, b, 0, k);
  }

  lemma EndsAlike(w: World, m: M, v: VM, x: nat, i: nat, n: nat, a: int, b: int, t: M, pool: seq<int>)
    requires IsTurn(w.r, x, i, n, a, b) && Enter(v, x, i, n) && v.pc == 0 && Enters(w, m, v) && Inline(a)
    requires w.L == [i, n, x] && |pool| == POOL_N && pool[0] == pool[1] == pool[2] == a == v.locals[n].n
    requires Ended(w.L, m, t, pool)
    ensures Exits(w.heap, w.e, t, Run(w.r.ch, v, 15))
  {
    hide IsTurn, Boxed, ValueOf, Run, Step, Stage, Ended;
    StagesRun(w.r, v, x, i, n, a, b, 0, 15);
    StageThere(v, x, i, n, a);
    assert t.Left? && t.off == 39 && t.stack == [] && |t.frame| == |m.slots| by { EndedIs(w.L, m, t, pool); }
    var s := v.(pc := 39, locals := v.locals[x := Int(a)][i := v.locals[n]]);
    forall y | 0 <= y < |s.locals| ensures s.locals[y] == ValueOf(w.heap, t.frame[y]) {
      FrameAlike(w, m, v, x, i, n, a, t, pool, y);
    }
  }

  lemma StageThere(v: VM, x: nat, i: nat, n: nat, a: int)
    requires v.Running? && v.pc == 0 && x < |v.locals| && i < |v.locals| && n < |v.locals|
    ensures Stage(v, x, i, n, a, 15) == v.(pc := 39, locals := v.locals[x := Int(a)][i := v.locals[n]])
    ensures Stage(v, x, i, n, a, 0) == v
  {
  }

  lemma EndedIs(L: seq<nat>, m0: M, t: M, pool: seq<int>)
    requires m0.Go? && |L| <= |pool| && Ended(L, m0, t, pool)
    ensures t.Left? && t.off == 39 && t.stack == [] && |t.frame| == |m0.slots|
  {
  }

  lemma FrameAlike(w: World, m: M, v: VM, x: nat, i: nat, n: nat, a: int, t: M, pool: seq<int>, y: nat)
    requires Enter(v, x, i, n) && Enters(w, m, v) && Inline(a) && w.L == [i, n, x] && |pool| == POOL_N
    requires pool[0] == pool[1] == pool[2] == a == v.locals[n].n && Ended(w.L, m, t, pool) && y < |v.locals|
    ensures v.locals[x := Int(a)][i := v.locals[n]][y] == ValueOf(w.heap, t.frame[y])
  {
    hide Boxed;
    Indices(x, i, n);
    BoxUnbox(a);
    assert v.locals[y] == ValueOf(w.heap, m.slots[y]);
  }

  /** The frame's three slots hold small integers. */
  predicate Ints(m: M, x: nat, i: nat, n: nat) {
    && m.Go? && x < |m.slots| && i < |m.slots| && n < |m.slots|
    && TaggedInt(m.slots[i]) && TaggedInt(m.slots[n]) && TaggedInt(m.slots[x])
  }

  /** The setting: the region's code, entered. */
  ghost predicate Set(w: World, m: M, v: VM, x: nat, i: nat, n: nat, a: int, b: int) {
    && IsTurn(w.r, x, i, n, a, b) && w.L == [i, n, x] && Apart(x, i, n) && Inline(a) && m.Go? && w.Built(|m.slots|)
    && Enters(w, m, v) && forall k | 0 <= k < |m.slots| :: IsWord(m.slots[k])
  }

  /** Entered, with the integers in their registers. */
  lemma Begins(w: World, m: M, v: VM, x: nat, i: nat, n: nat, a: int, b: int) returns (t: M)
    requires Set(w, m, v, x, i, n, a, b) && Ints(m, x, i, n)
    ensures t.Go? && Holding(w, m, t, 0, 0, t.regs.pool, m.polls) && |t.regs.pool| == POOL_N
    ensures t.regs.pool[0] == Narrow(m.slots[i]) && t.regs.pool[1] == Narrow(m.slots[n])
    ensures Same(w.L, w.heap, w.e, t, v, 0) && Roomy(w.L, m, 1)
  {
    hide StandsAt, Gets, JitRegion.Compiled, Accepted, Rest, IsTurn, Same, Loaded, Narrow, TaggedInt, Enters, IntsFrom,
        World.Built, Roomy;
    TailPlaced(w) by { IsBuilt(w, |m.slots|); }
    Outside(w, m, v, x, i, n, a, b);
    assert Loaded(w.L, m, 0) && Roomy(w.L, m, 1) by { ReadyToLoad(w, m, v, x, i, n); }
    PrologueRuns(w, |m.slots|, m, 0);
    t :| ComesTo(w.j, w.gc, m, t, m.pc + |Prologue(w.L, 0)|) && |t.regs.pool| == POOL_N && Loaded(w.L, t, |w.L|);
    LoadedIsSame(w, |m.slots|, m, t, v);
    LoadedValues(t, x, i, n);
    TurnStarts(w.r, x, i, n, a, b);
  }

  lemma IsBuilt(w: World, slots: nat)
    requires w.Built(slots)
    ensures w.j == JitRegion.Compiled(w.r, w.L) && forall x :: x in w.L ==> x < slots
  {
  }

  lemma ReadyToLoad(w: World, m: M, v: VM, x: nat, i: nat, n: nat)
    requires m.Go? && w.Built(|m.slots|) && w.L == [i, n, x] && Apart(x, i, n) && Enters(w, m, v)
    ensures Loaded(w.L, m, 0) && Roomy(w.L, m, 1)
  {
    hide JitRegion.Compiled, Accepted, ValueOf;
    Indices(x, i, n);
  }

  lemma LoadedValues(t: M, x: nat, i: nat, n: nat)
    requires t.Go? && Loaded([i, n, x], t, 3)
    ensures |t.regs.pool| >= 3 && i < |t.slots| && n < |t.slots|
    ensures t.regs.pool[0] == Narrow(t.slots[i]) && t.regs.pool[1] == Narrow(t.slots[n])
  {
    hide Narrow;
    var L := [i, n, x];
    assert L[0] == i && L[1] == n;
  }

  /** With another word than a small integer in one of the slots, it is left at once. */
  lemma TurnedBack(w: World, m: M, v: VM, x: nat, i: nat, n: nat, a: int, b: int, steps: nat)
    requires Set(w, m, v, x, i, n, a, b) && !Ints(m, x, i, n)
    ensures Agrees(w, m, v, steps)
  {
    hide StandsAt, Gets, JitRegion.Compiled, Accepted, Rest, IsTurn, Exits, Enters;
    TailPlaced(w);
    Indices(x, i, n);
    Outside(w, m, v, x, i, n, a, b);
    PrologueRuns(w, |m.slots|, m, 0);
    var t :| ComesTo(w.j, w.gc, m, t, w.j.prologueBail);
    TurnedAway(w, m, t, v);
    assert Run(w.r.ch, v, 0) == v;
    QuitsAgrees(w, m, v, 0, steps);
  }

  lemma Outside(w: World, m: M, v: VM, x: nat, i: nat, n: nat, a: int, b: int)
    requires Set(w, m, v, x, i, n, a, b)
    ensures m.pc == 0 && |m.regs.pool| == POOL_N && i < |m.slots| && n < |m.slots| && x < |m.slots|
    ensures IntsFrom(w.L, m.slots, 0) <==> Ints(m, x, i, n)
  {
    hide IsTurn, JitRegion.Compiled, Accepted;
    Indices(x, i, n);
    assert w.L[0] == i && w.L[1] == n && w.L[2] == x;
  }

  /** A loop that is over before its first turn. */
  lemma NotBegun(w: World, m: M, v: VM, x: nat, i: nat, n: nat, a: int, b: int, steps: nat)
    requires Set(w, m, v, x, i, n, a, b) && Ints(m, x, i, n) && Narrow(m.slots[i]) >= Narrow(m.slots[n])
    ensures Agrees(w, m, v, steps)
  {
    hide StandsAt, Gets, JitRegion.Compiled, Accepted, Rest, IsTurn, Exits, Agrees, BranchTo, Holding;
    var t := Begins(w, m, v, x, i, n, a, b);
    var u := Tests(w, m, t, x, i, n, a, b, 0, t.regs.pool, m.polls);
    HeldAt(w, m, t, 0, 0, t.regs.pool, m.polls);
    SameLocals(w, m, t, u, v);
    LeavesBehind(w, m, u, v, x, i, n, a, b, steps);
  }

  lemma LeavesBehind(w: World, m: M, u: M, v: VM, x: nat, i: nat, n: nat, a: int, b: int, steps: nat)
    requires Set(w, m, v, x, i, n, a, b) && Ints(m, x, i, n) && Narrow(m.slots[i]) >= Narrow(m.slots[n])
    requires u.Go? && Gets(w.j, w.gc, m, u, 0) && Same(w.L, w.heap, w.e, u, v, 0)
    requires StandsAt(w.j, u.pc, BranchTo(w.r, 39, 0, 3))
    ensures Agrees(w, m, v, steps)
  {
    hide StandsAt, Gets, JitRegion.Compiled, Accepted, Rest, IsTurn, Exits, Agrees, Same, BailTo, Narrow, TaggedInt;
    TurnStarts(w.r, x, i, n, a, b);
    TailPlaced(w);
    BailRuns(w.j, w.gc, w.L, w.heap, w.e, u, v, 0, 39);
    assert v.locals[i] == ValueOf(w.heap, m.slots[i]) && v.locals[n] == ValueOf(w.heap, m.slots[n]);
    ThreeSteps(w.r, v, x, i, n, a, b);
    var q :| Gets(w.j, w.gc, u, q, 1) && Exits(w.heap, w.e, q, v.(pc := 39));
    GetsOn(w.j, w.gc, m, u, q, 0, 1);
    assert Quits(w, m, Run(w.r.ch, v, 3));
    QuitsAgrees(w, m, v, 3, steps);
  }

  /** Registers of operands do not matter where there are none. */
  lemma SameLocals(w: World, m: M, t: M, u: M, v: VM)
    requires Same(w.L, w.heap, w.e, t, v, 0) && |w.L| == 3 && t.Go? && u.Go? && m.Go?
    requires t.slots == m.slots == u.slots && t.area == m.area == u.area && t.sp == m.sp == u.sp
    requires |t.regs.pool| == POOL_N
    requires u.regs.pool == t.regs.pool[3 := t.regs.pool[0]][4 := t.regs.pool[1]]
    ensures Same(w.L, w.heap, w.e, u, v, 0)
  {
    forall y | 0 <= y < |v.locals| ensures v.locals[y] == SlotValue(w.L, w.heap, u, y) {
      assert v.locals[y] == SlotValue(w.L, w.heap, t, y);
    }
  }

  lemma ThreeSteps(r: Region, v: VM, x: nat, i: nat, n: nat, a: int, b: int)
    requires IsTurn(r, x, i, n, a, b) && v.Running? && v.pc == 0 && i < |v.locals| && n < |v.locals|
    requires v.locals[i].Int? && v.locals[n].Int? && v.locals[i].n >= v.locals[n].n
    ensures Run(r.ch, v, 3) == v.(pc := 39)
  {
    hide Fetch, Perform;
    var y, z := v.locals[i], v.locals[n];
    var s1 := v.(pc := 3, stack := v.stack + [y]);
    var s2 := v.(pc := 6, stack := v.stack + [y] + [z]);
    LoadStep(r.ch, v, i, 3);
    LoadStep(r.ch, s1, n, 6);
    LessStep(r.ch, s2, v.stack, y.n, z.n, 30, 9);
    assert Run(r.ch, v, 3) == Run(r.ch, s1, 2) == Run(r.ch, s2, 1) == Run(r.ch, v.(pc := 39), 0);
  }

  /** A turn is taken: the collector's flag, or the value in `x`, is wrong. */
  lemma Begun(w: World, m: M, v: VM, x: nat, i: nat, n: nat, a: int, b: int)
    requires Set(w, m, v, x, i, n, a, b) && Ints(m, x, i, n) && Narrow(m.slots[i]) < Narrow(m.slots[n])
    ensures (forall steps: nat :: Agrees(w, m, v, steps)) <==> !w.gc(m.polls) && Narrow(m.slots[n]) == a
  {
    hide StandsAt, Gets, JitRegion.Compiled, Accepted, Rest, IsTurn, Exits, Agrees, Holding, Same, Roomy, Narrow, Run,
        TaggedInt, Ended;
    var N := Narrow(m.slots[n]);
    var t := Begins(w, m, v, x, i, n, a, b);
    TurnStarts(w.r, x, i, n, a, b);
    EnterInts(w, m, v, x, i, n, a, b);
    var p := t.regs.pool;
    var u := OneTurn(w, m, t, x, i, n, a, b, p, m.polls);
    var q := [N, N, N, a, N, p[5], p[6]];
    if w.gc(m.polls) {
      TurnLeaves(w, m, u, x, i, n, a, b, q, m.polls);
      var e :| Gets(w.j, w.gc, m, e, 1) && e.Left? && e.off == 0 && |e.stack| == 1;
      forall k: nat ensures !Exits(w.heap, w.e, e, Run(w.r.ch, v, k)) { NeverThere(w, v, x, i, n, a, b, e, k); }
      Disagrees(w, m, v, e);
    } else {
      TurnEnds(w, m, u, x, i, n, a, b, q, m.polls);
      var e :| Gets(w.j, w.gc, m, e, 1) && Ended(w.L, m, e, q);
      EndsExactly(w, m, v, x, i, n, a, b, e, q);
    }
  }

  lemma EnterInts(w: World, m: M, v: VM, x: nat, i: nat, n: nat, a: int, b: int)
    requires Set(w, m, v, x, i, n, a, b) && Ints(m, x, i, n) && Narrow(m.slots[i]) < Narrow(m.slots[n])
    ensures Enter(v, x, i, n) && v.locals[n] == Int(Narrow(m.slots[n])) && v.pc == 0 && v.stack == w.e.base
    ensures |v.locals| == |m.slots|
  {
    hide JitRegion.Compiled, Accepted, IsTurn, Narrow;
    TurnStarts(w.r, x, i, n, a, b);
    assert v.locals[i] == ValueOf(w.heap, m.slots[i]) && v.locals[n] == ValueOf(w.heap, m.slots[n]);
  }

  lemma EndsExactly(w: World, m: M, v: VM, x: nat, i: nat, n: nat, a: int, b: int, e: M, q: seq<int>)
    requires Set(w, m, v, x, i, n, a, b) && Enter(v, x, i, n) && v.pc == 0 && |v.locals| == |m.slots|
    requires |q| == POOL_N && q[0] == q[1] == q[2] == v.locals[n].n && Inline(q[2])
    requires Gets(w.j, w.gc, m, e, 1) && Ended(w.L, m, e, q)
    ensures (forall steps: nat :: Agrees(w, m, v, steps)) <==> v.locals[n].n == a
  {
    hide Gets, JitRegion.Compiled, Accepted, IsTurn, Exits, Agrees, Run, Boxed;
    Indices(x, i, n);
    if v.locals[n].n == a {
      EndsAlike(w, m, v, x, i, n, a, b, e, q);
      assert Quits(w, m, Run(w.r.ch, v, 15));
      forall steps: nat ensures Agrees(w, m, v, steps) { QuitsAgrees(w, m, v, 15, steps); }
    } else {
      assert e.frame[x] == Boxed(q[2]);
      BoxUnbox(q[2]);
      forall k: nat ensures !Exits(w.heap, w.e, e, Run(w.r.ch, v, k)) {
        if Exits(w.heap, w.e, e, Run(w.r.ch, v, k)) { AtTheEnd(w, v, x, i, n, a, b, e, k); }
      }
      Disagrees(w, m, v, e);
    }
  }

  /** When the emitted code is right about this loop: whatever the frame, the registers and the collector's
      flag, it agrees with the interpreter if and only if the loop is not entered, or else the collector is
      not waiting behind the first turn and what should be assigned happens to be the value of `n`, which is
      what the next register holds. */
  lemma TurnAgreesExactly(w: World, m: M, v: VM, x: nat, i: nat, n: nat, a: int, b: int)
    requires Apart(x, i, n) && Inline(a) && Inline(b) && w.r == TurnRegion(x, i, n, a, b)
    requires m.Go? && w.Built(|m.slots|) && Enters(w, m, v) && forall k | 0 <= k < |m.slots| :: IsWord(m.slots[k])
    ensures w.r == Region(w.r.ch, 0, Len(GenWhile(Turn(x, i, n, a, b), 0, [], NoLoop).code)) && Accepted(w.r)
    ensures (forall steps: nat :: Agrees(w, m, v, steps)) <==>
      (Ints(m, x, i, n) && Narrow(m.slots[i]) < Narrow(m.slots[n]) ==>
        !w.gc(m.polls) && Narrow(m.slots[n]) == a)
  {
    hide Gets, JitRegion.Compiled, Accepted, IsTurn, Exits, Agrees, Run, CodegenMain.Compiled, Prepass, Enters, Narrow,
        TaggedInt, Bytes;
    Listing(x, i, n, a, b);
    TurnCompiles(x, i, n, a, b);
    Passes(w.r, x, i, n, a, b);
    if !Ints(m, x, i, n) {
      forall steps: nat ensures Agrees(w, m, v, steps) { TurnedBack(w, m, v, x, i, n, a, b, steps); }
    } else if Narrow(m.slots[i]) >= Narrow(m.slots[n]) {
      forall steps: nat ensures Agrees(w, m, v, steps) { NotBegun(w, m, v, x, i, n, a, b, steps); }
    } else {
      Begun(w, m, v, x, i, n, a, b);
    }
  }

  /** A frame that holds 0, 1 and 0. */
  lemma Frame(w: World) returns (m: M, v: VM)
    requires w.r.start == 0 && w.e == Env([], [], [])
    ensures m.Go? && |m.slots| == 3 && Enters(w, m, v) && Ints(m, 2, 0, 1)
    ensures Narrow(m.slots[0]) == 0 && Narrow(m.slots[1]) == 1 && forall k | 0 <= k < 3 :: IsWord(m.slots[k])
  {
    hide Boxed, TaggedInt, Narrow;
    BoxUnbox(0); BoxUnbox(1);
    var slots := [Boxed(0), Boxed(1), Boxed(0)];
    m := Go(0, Regs(0, 0, 0, [0, 0, 0, 0, 0, 0, 0]), (0, 0), slots, [0, 0, 0, 0, 0, 0, 0], 0, 0);
    v := Running(0, [], [Int(0), Int(1), Int(0)], [], []);
  }

  /** What the compiler makes of it. */
  lemma TurnBuilt(w: World, x: nat, i: nat, n: nat, a: int, b: int, slots: nat)
    requires Apart(x, i, n) && Inline(a) && Inline(b) && w.r == TurnRegion(x, i, n, a, b) && w.L == [i, n, x]
    requires w.j == JitRegion.Compiled(w.r, w.L) && x < slots && i < slots && n < slots
    ensures w.Built(slots)
  {
    hide JitRegion.Compiled, Accepted, IsTurn, UsesOf, TurnRegion;
    Listing(x, i, n, a, b);
    Passes(w.r, x, i, n, a, b);
  }

  lemma FailsOn(w: World)
    requires w.r == TurnRegion(2, 0, 1, 7, 8) && w.L == [0, 1, 2] && w.j == JitRegion.Compiled(w.r, w.L)
    requires w.e == Env([], [], [])
    ensures exists m: M, v: VM, steps: nat ::
      m.Go? && w.Built(|m.slots|) && Enters(w, m, v) && !Agrees(w, m, v, steps)
  {
    hide JitRegion.Compiled, Accepted, Agrees, UsesOf, Ints, Narrow, Enters, CodegenMain.Compiled, World.Built;
    TurnBuilt(w, 2, 0, 1, 7, 8, 3);
    var m, v := Frame(w);
    TurnAgreesExactly(w, m, v, 2, 0, 1, 7, 8);
    var steps: nat :| !Agrees(w, m, v, steps);
  }

  /** The failing run: `while i < n: x = i < n ? 7 : 8; i = n`, entered with 0 and 1, is accepted, and
      whatever the collector's flag says, its code leaves what the interpreter never has. */
  lemma ConditionalIsMistranslated(gc: nat -> bool)
    ensures exists w: World, m: M, v: VM, steps: nat ::
      && w.gc == gc && w.r == TurnRegion(2, 0, 1, 7, 8) && m.Go? && w.Built(|m.slots|)
      && Enters(w, m, v) && !Agrees(w, m, v, steps)
  {
    hide JitRegion.Compiled, Agrees, Enters, TurnRegion, World.Built;
    var r := TurnRegion(2, 0, 1, 7, 8);
    var w := World(r, [0, 1, 2], JitRegion.Compiled(r, [0, 1, 2]), gc, k => Null, Env([], [], []));
    FailsOn(w);
    var m: M, v: VM, steps: nat :| m.Go? && w.Built(|m.slots|) && Enters(w, m, v) && !Agrees(w, m, v, steps);
  }
}
