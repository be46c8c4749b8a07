/** Where fragments of code stand, and how runs of the machine are put together. */
module CodegenLayout {
  import opened Bytecode
  import opened Tree
  import opened Codegen

  // ---------------------------------------------------------------- bytes

  lemma {:induction false} BytesCat(a: seq<Instr>, b: seq<Instr>)
    ensures Bytes(a + b) == Bytes(a) + Bytes(b)
  {
    if a == [] {
      assert a + b == b;
    } else {
      assert (a + b)[0] == a[0] && (a + b)[1..] == a[1..] + b;
      BytesCat(a[1..], b);
    }
  }

  lemma BytesOne(i: Instr)
    ensures Bytes([i]) == Encode(i) && Len([i]) == Size(i)
  {
    assert Bytes([i][1..]) == [];
  }

  lemma LenNone()
    ensures Len([]) == 0
  {
  }

  lemma {:induction false} ResolveCat(a: seq<Instr>, b: seq<Instr>, at: nat, cont: Target, brk: Target)
    ensures Resolve(a + b, at, cont, brk) == Resolve(a, at, cont, brk) + Resolve(b, at + Len(a), cont, brk)
  {
    hide Settle, Encode;
    if a == [] {
      assert a + b == b;
    } else {
      assert (a + b)[0] == a[0] && (a + b)[1..] == a[1..] + b;
      ResolveCat(a[1..], b, at + Size(a[0]), cont, brk);
      assert Len(a) == Size(a[0]) + Len(a[1..]);
    }
  }

  lemma {:induction false} ResolveLen(a: seq<Instr>, at: nat, cont: Target, brk: Target)
    ensures Len(Resolve(a, at, cont, brk)) == Len(a)
  {
    if a != [] {
      ResolveLen(a[1..], at + Size(a[0]), cont, brk);
      assert Size(Settle(a[0], at, cont, brk)) == Size(a[0]);
      var r := Resolve(a, at, cont, brk);
      assert r[1..] == Resolve(a[1..], at + Size(a[0]), cont, brk);
    }
  }

  lemma SettledStays(i: Instr, at: nat, c: nat, b: nat, at2: nat, cont: Target, brk: Target)
    ensures var j := Settle(i, at, To(c), To(b)); Settle(j, at2, cont, brk) == j
  {
  }

  /** Code without open jumps is not changed. */
  lemma {:induction false} ResolveTwice(a: seq<Instr>, at: nat, c: nat, b: nat, at2: nat, cont: Target, brk: Target)
    ensures var r := Resolve(a, at, To(c), To(b)); Resolve(r, at2, cont, brk) == r
  {
    hide Settle, Encode;
    if a != [] {
      var r := Resolve(a, at, To(c), To(b));
      assert r[1..] == Resolve(a[1..], at + Size(a[0]), To(c), To(b));
      SettledStays(a[0], at, c, b, at2, cont, brk);
      ResolveTwice(a[1..], at + Size(a[0]), c, b, at2 + Size(r[0]), cont, brk);
    }
  }

  /** Distances do not change when code, targets and all are moved. */
  lemma {:induction false} ResolveMoved(a: seq<Instr>, at: nat, c: nat, b: nat, j: nat)
    ensures Resolve(a, at + j, To(c + j), To(b + j)) == Resolve(a, at, To(c), To(b))
  {
    if a != [] {
      ResolveMoved(a[1..], at + Size(a[0]), c, b, j);
      assert Settle(a[0], at + j, To(c + j), To(b + j)) == Settle(a[0], at, To(c), To(b));
    }
  }

  // ---------------------------------------------------------------- placement

  /** The whole code, and where `continue` and `break` lead. */
  datatype Site = Site(ch: Chunk, cont: nat, brk: nat)

  predicate ConstsAt(ch: Chunk, k: nat, consts: seq<Value>) {
    k + |consts| <= |ch.consts| && ch.consts[k..k + |consts|] == consts
  }

  /** The fragment stands at `pc`, with its constants from `k` on. */
  ghost predicate Stands(x: Site, pc: nat, f: Frag, k: nat) {
    && x.cont <= pc && pc + Len(f.code) <= x.brk
    && At(x.ch.code, pc, Bytes(Resolve(f.code, pc, To(x.cont), To(x.brk))))
    && ConstsAt(x.ch, k, f.consts)
  }

  lemma ConstsParts(ch: Chunk, k: nat, a: seq<Value>, b: seq<Value>)
    requires ConstsAt(ch, k, a + b)
    ensures ConstsAt(ch, k, a) && ConstsAt(ch, k + |a|, b)
  {
    var all := ch.consts[k..k + |a + b|];
    assert all[..|a|] == a && all[|a|..] == b;
    assert ch.consts[k..k + |a|] == all[..|a|];
    assert ch.consts[k + |a|..k + |a| + |b|] == all[|a|..];
  }

  lemma StandsThen(x: Site, pc: nat, f: Frag, g: Frag, k: nat)
    requires Stands(x, pc, f.Then(g), k)
    ensures Stands(x, pc, f, k) && Stands(x, pc + Len(f.code), g, f.Next(k))
    ensures Len(f.Then(g).code) == Len(f.code) + Len(g.code)
  {
    hide Bytes, Resolve, At, ConstsAt;
    var cont, brk := To(x.cont), To(x.brk);
    BytesCat(f.code, g.code);
    ResolveCat(f.code, g.code, pc, cont, brk);
    var a, b := Resolve(f.code, pc, cont, brk), Resolve(g.code, pc + Len(f.code), cont, brk);
    BytesCat(a, b);
    ResolveLen(f.code, pc, cont, brk);
    AtParts(x.ch.code, pc, Bytes(a), Bytes(b));
    ConstsParts(x.ch, k, f.consts, g.consts);
  }

  lemma StandsAdd(x: Site, pc: nat, f: Frag, i: Instr, k: nat)
    requires Stands(x, pc, f.Add(i), k)
    ensures Stands(x, pc, f, k) && Stands(x, pc + Len(f.code), One(i), f.Next(k))
    ensures Len(f.Add(i).code) == Len(f.code) + Size(i)
  {
    hide Stands;
    assert f.Add(i) == f.Then(One(i)) by { assert f.consts + [] == f.consts; }
    StandsThen(x, pc, f, One(i), k);
    BytesOne(i);
  }

  /** A loop's body, between the loop's own ends. */
  lemma StandsLoop(x: Site, pc: nat, body: Frag, at: nat, end: nat, k: nat)
    requires at <= pc && Stands(x, pc, Frag(Resolve(body.code, at, To(0), To(end)), body.consts), k)
    requires at + Len(body.code) <= end
    ensures Stands(x.(cont := pc - at, brk := pc - at + end), pc, body, k)
  {
    hide Resolve, Bytes, ConstsAt;
    var r := Resolve(body.code, at, To(0), To(end));
    ResolveLen(body.code, at, To(0), To(end));
    ResolveTwice(body.code, at, 0, end, pc, To(x.cont), To(x.brk));
    ResolveMoved(body.code, at, 0, end, pc - at);
  }

  // ---------------------------------------------------------------- runs

  /** From `s` the machine gets to `t` in at least `m` steps. */
  ghost predicate Goes(ch: Chunk, s: VM, t: VM, m: nat) {
    exists n: nat :: n >= m && Run(ch, s, n) == t
  }

  lemma Stay(ch: Chunk, s: VM)
    ensures Goes(ch, s, s, 0)
  {
    assert Run(ch, s, 0) == s;
  }

  lemma Trans(ch: Chunk, s: VM, t: VM, u: VM, a: nat, b: nat)
    requires Goes(ch, s, t, a) && Goes(ch, t, u, b)
    ensures Goes(ch, s, u, a + b) && Goes(ch, s, u, a) && Goes(ch, s, u, b)
  {
    var m: nat :| m >= a && Run(ch, s, m) == t;
    var n: nat :| n >= b && Run(ch, t, n) == u;
    RunAdd(ch, s, m, n);
  }

  lemma OneStep(x: Site, s: VM, i: Instr, k: nat)
    requires s.Running? && Legal(i) && Stands(x, s.pc, One(i), k)
    ensures Goes(x.ch, s, Perform(x.ch, s, i, s.pc + Size(i)), 1)
    ensures Goes(x.ch, s, Perform(x.ch, s, i, s.pc + Size(i)), 0)
    ensures Len([i]) == Size(i)
  {
    BytesOne(i);
    assert Resolve([i], s.pc, To(x.cont), To(x.brk)) == [i] by {
      assert Settle(i, s.pc, To(x.cont), To(x.brk)) == i;
      assert Resolve([i][1..], s.pc + Size(i), To(x.cont), To(x.brk)) == [];
    }
    StepAt(x.ch, s, i);
  }

  /** Handlers cut the stack no higher than it is. */
  predicate HandlersFit(s: VM) {
    s.Running? && forall i :: 0 <= i < |s.handlers| ==> s.handlers[i].top <= |s.stack|
  }

  function Fail(s: VM, text: Value): VM
    requires s.Running?
  {
    Bytecode.Throw(s.stack, s.locals, s.handlers, s.out, text)
  }

  /** `t` has more on its stack than `s`, and differs in its pc. */
  predicate Above(t: VM, s: VM)
    requires s.Running?
  {
    && t.Running? && t == s.(pc := t.pc, stack := t.stack)
    && |t.stack| >= |s.stack| && t.stack[..|s.stack|] == s.stack
  }

  /** An error leaves nothing of what came above. */
  lemma FailAbove(t: VM, s: VM, text: Value)
    requires HandlersFit(s) && Above(t, s)
    ensures HandlersFit(t) && Fail(t, text) == Fail(s, text)
  {
    if s.handlers != [] {
      var h := s.handlers[|s.handlers| - 1];
      assert t.stack[..h.top] == t.stack[..|s.stack|][..h.top];
    }
  }

  // ---------------------------------------------------------------- single instructions

  /** `t` is `s` with `v` pushed, at another address. */
  predicate Topped(t: VM, s: VM, v: Value)
    requires s.Running?
  {
    t.Running? && t == s.(pc := t.pc, stack := s.stack + [v])
  }

  lemma JumpSize(i: Instr)
    requires i.JUMP? || i.LOOP? || i.TRY_PUSH? || i.BreakJ? || i.ContJ? || i.JUMP_IF_FALSE?
      || i.SET_LOCAL? || i.GET_LOCAL?
    ensures Size(i) == 3
  {
  }

  lemma OpSize(i: Instr)
    requires i.TRY_POP? || i.THROW_? || i.RETURN? || i.POP? || i.DUP? || i.NIL? || i.PREFIX?
      || i.BINARY? || i.ADD_INPLACE?
    ensures Size(i) == 1
  {
  }

  lemma JumpStep(x: Site, t: VM, d: nat, k: nat)
    requires t.Running? && Stands(x, t.pc, One(JUMP(d)), k)
    ensures Goes(x.ch, t, t.(pc := t.pc + 3 + d), 1)
  {
    hide Stands, Goes;
    OneStep(x, t, JUMP(d), k);
  }

  lemma LoopStep(x: Site, t: VM, d: nat, k: nat)
    requires t.Running? && Stands(x, t.pc, One(LOOP(d)), k) && d <= t.pc + 3
    ensures Goes(x.ch, t, t.(pc := t.pc + 3 - d), 1)
  {
    hide Stands, Goes;
    OneStep(x, t, LOOP(d), k);
  }

  lemma JumpIfFalseStep(x: Site, s: VM, t: VM, v: Value, d: nat, k: nat)
    requires s.Running? && Topped(t, s, v) && Stands(x, t.pc, One(JUMP_IF_FALSE(d)), k)
    ensures Goes(x.ch, t, s.(pc := t.pc + 3 + if Truthy(v) then 0 else d), 1)
  {
    hide Stands, Goes;
    OneStep(x, t, JUMP_IF_FALSE(d), k);
    assert t.stack[..|s.stack|] == s.stack;
  }

  lemma NotStep(x: Site, s: VM, t: VM, v: Value, k: nat)
    requires s.Running? && Topped(t, s, v) && Stands(x, t.pc, One(PREFIX(Not)), k)
    ensures Goes(x.ch, t, s.(pc := t.pc + 1, stack := s.stack + [Bool(!Truthy(v))]), 1)
  {
    hide Stands, Goes;
    OneStep(x, t, PREFIX(Not), k);
    assert t.stack[..|s.stack|] == s.stack;
  }

  lemma PopStep(x: Site, s: VM, t: VM, v: Value, k: nat)
    requires s.Running? && Topped(t, s, v) && Stands(x, t.pc, One(POP), k)
    ensures Goes(x.ch, t, s.(pc := t.pc + 1), 1)
  {
    hide Stands, Goes;
    OneStep(x, t, POP, k);
    assert t.stack[..|s.stack|] == s.stack;
  }

  lemma SetStep(x: Site, s: VM, t: VM, v: Value, slot: nat, k: nat)
    requires s.Running? && Topped(t, s, v) && slot < |s.locals| && Stands(x, t.pc, One(SET_LOCAL(slot)), k)
    ensures Goes(x.ch, t, s.(pc := t.pc + 3, locals := s.locals[slot := v]), 1)
  {
    hide Stands, Goes;
    OneStep(x, t, SET_LOCAL(slot), k);
    assert t.stack[..|s.stack|] == s.stack;
  }

  lemma GetStep(x: Site, t: VM, slot: nat, k: nat)
    requires t.Running? && slot < |t.locals| && Stands(x, t.pc, One(GET_LOCAL(slot)), k)
    ensures Goes(x.ch, t, t.(pc := t.pc + 3, stack := t.stack + [t.locals[slot]]), 1)
  {
    hide Stands, Goes;
    OneStep(x, t, GET_LOCAL(slot), k);
  }

  lemma DupStep(x: Site, s: VM, t: VM, v: Value, k: nat)
    requires s.Running? && Topped(t, s, v) && Stands(x, t.pc, One(DUP), k)
    ensures Goes(x.ch, t, t.(pc := t.pc + 1, stack := t.stack + [v]), 1)
  {
    hide Stands, Goes;
    OneStep(x, t, DUP, k);
  }

  lemma ThrowStep(x: Site, s: VM, t: VM, v: Value, k: nat)
    requires s.Running? && Topped(t, s, v) && Stands(x, t.pc, One(THROW_), k)
    ensures Goes(x.ch, t, Fail(s, v.Text()), 1)
  {
    hide Stands, Goes;
    OneStep(x, t, THROW_, k);
    assert t.stack[..|s.stack|] == s.stack;
  }

  lemma TryPushStep(x: Site, t: VM, d: nat, k: nat)
    requires t.Running? && Stands(x, t.pc, One(TRY_PUSH(d)), k)
    ensures Goes(x.ch, t, t.(pc := t.pc + 3, handlers := t.handlers + [Handler(|t.stack|, t.pc + 3 + d)]), 1)
  {
    hide Stands, Goes;
    OneStep(x, t, TRY_PUSH(d), k);
  }

  lemma TryPopStep(x: Site, t: VM, h: seq<Handler>, k: nat)
    requires t.Running? && Stands(x, t.pc, One(TRY_POP), k) && t.handlers != [] && h == t.handlers[..|t.handlers| - 1]
    ensures Goes(x.ch, t, t.(pc := t.pc + 1, handlers := h), 1)
  {
    hide Stands, Goes;
    OneStep(x, t, TRY_POP, k);
  }
}
