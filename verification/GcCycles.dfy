/** What a whole cycle does, however it is sliced and whatever the mutator does meanwhile: it frees
 everything that was unreachable when it began, keeps the marked objects in order, and does not
 change the graph the mutator sees. */
module GcCycles {
  import opened GcModel
  import opened GcSafety

  // ---------------------------------------------------------------- the collector is invisible

  /** `t` has the roots of `s`, and the objects it still has are as they were. */
  ghost predicate Shrinks(s: State, t: State) {
    t.roots == s.roots && forall o :: o in t.fields ==> o in s.fields && t.fields[o] == s.fields[o]
  }

  lemma {:induction false} MarkAllShrinks(s: State, os: seq<Ref>)
    ensures MarkAll(s, os).fields == s.fields && MarkAll(s, os).roots == s.roots
    decreases |os|
  {
    if os != [] { MarkAllShrinks(s, os[..|os| - 1]); }
  }

  lemma {:induction false} MarkStepShrinks(s: State, budget: nat)
    ensures MarkStep(s, budget).0.fields == s.fields && MarkStep(s, budget).0.roots == s.roots
    decreases budget
  {
    if budget > 0 && s.worklist != [] {
      ScanOneShrinksGraph(s);
      MarkStepShrinks(ScanOne(s), budget - 1);
    }
  }

  lemma ScanOneShrinksGraph(s: State)
    requires s.worklist != []
    ensures ScanOne(s).fields == s.fields && ScanOne(s).roots == s.roots
  {
    var o := s.worklist[|s.worklist| - 1];
    MarkAllShrinks(s.(worklist := s.worklist[..|s.worklist| - 1],
                      color := if o in s.color then s.color[o := Black] else s.color), Fields(s, o));
  }

  lemma {:induction false} DrainShrinks(s: State)
    ensures Drain(s).fields == s.fields && Drain(s).roots == s.roots
    decreases Whites(s), |s.worklist|
  {
    if s.worklist != [] {
      ScanOneShrinks(s);
      ScanOneShrinksGraph(s);
      DrainShrinks(ScanOne(s));
    }
  }

  lemma {:induction false} SweepStepShrinks(s: State, budget: nat)
    ensures Shrinks(s, SweepStep(s, budget).0)
    decreases budget
  {
    if budget > 0 && s.sweepPos < |s.first| { SweepStepShrinks(SweepOne(s), budget - 1); }
  }

  lemma {:induction false} SweepAllShrinks(s: State)
    ensures Shrinks(s, SweepAll(s))
    decreases |s.first| - s.sweepPos
  {
    if s.sweepPos < |s.first| { SweepAllShrinks(SweepOne(s)); }
  }

  lemma CollectorShrinks(s: State, op: Op)
    requires op.Slice? || op.Collect?
    ensures Shrinks(s, Apply(s, op))
  {
    hide MarkAll, MarkStep, Drain, SweepStep, SweepAll;
    MarkAllShrinks(s.(phase := MARK), s.roots);
    var m := if s.phase == IDLE then BeginCycle(s) else s;
    match op
    case Slice(b) =>
      MarkStepShrinks(s, b);
      var t := MarkStep(s, b).0;
      MarkAllShrinks(t, t.roots);
      DrainShrinks(MarkAll(t, t.roots));
      SweepStepShrinks(s, b * 2);
    case Collect =>
      DrainShrinks(m);
      var d := Drain(m);
      MarkAllShrinks(d, d.roots);
      DrainShrinks(MarkAll(d, d.roots));
      SweepAllShrinks(if m.phase == MARK then FinishMarking(d) else m);
  }

  /** A collector step leaves the roots, every reachable object and its contents as they were. */
  lemma CollectorKeepsGraph(s: State, op: Op, o: Ref)
    requires Inv(s) && (op.Slice? || op.Collect?)
    requires Reachable(s, o)
    ensures var t := Apply(s, op); t.roots == s.roots && Reachable(t, o) && Fields(t, o) == Fields(s, o)
  {
    hide Inv, Apply, Reachable;
    ApplyInv(s, op);
    CollectorShrinks(s, op);
    KeepsReachable(s, Apply(s, op), o);
  }

  lemma KeepsReachable(s: State, t: State, o: Ref)
    requires Inv(t) && Shrinks(s, t) && Reachable(s, o)
    ensures Reachable(t, o) && Fields(t, o) == Fields(s, o)
  {
    var n: nat :| ReachableIn(s, o, n);
    KeepsReachableIn(s, t, o, n);
  }

  lemma {:induction false} KeepsReachableIn(s: State, t: State, o: Ref, n: nat)
    requires Inv(t) && Shrinks(s, t) && ReachableIn(s, o, n)
    ensures ReachableIn(t, o, n) && o in Live(t) && Fields(t, o) == Fields(s, o)
    decreases n
  {
    if n > 0 {
      var p :| ReachableIn(s, p, n - 1) && o in Fields(s, p);
      KeepsReachableIn(s, t, p, n - 1);
    }
  }

  // ---------------------------------------------------------------- garbage is freed

  ghost predicate Avoids(q: seq<Ref>, U: set<Ref>) { forall o :: o in q ==> o !in U }

  /** `U` was unreachable when `c0` collections were over. */
  ghost predicate Garbage(s: State, U: set<Ref>, c0: nat) {
    && s.collections >= c0
    && (forall u :: u in U ==> u < s.nextRef)
    && Avoids(s.roots, U)
    && (forall p :: p in s.fields && p !in U ==> Avoids(s.fields[p], U))
    && (s.collections > c0 ==> forall u :: u in U ==> u !in s.color)
    && (s.collections == c0 && s.phase != SWEEP ==> forall u :: u in U ==> u in s.color && s.color[u] == White)
    && (s.collections == c0 && s.phase == SWEEP ==> forall u :: u in U && u in s.color ==> Doomed(s, u))
  }

  lemma GarbageUnreachable(s: State, U: set<Ref>, c0: nat)
    requires Garbage(s, U, c0)
    ensures forall o :: Reachable(s, o) ==> o !in U
  {
    hide Reachable;
    var P := iset o | o !in U;
    forall p, o | p in P && o in Fields(s, p) ensures o in P { assert p in s.fields; }
    ReachableInside(s, P);
  }

  /** Marking in any form leaves the garbage white. */
  ghost predicate StillGarbage(s: State, t: State, U: set<Ref>) {
    && t == s.(color := t.color, worklist := t.worklist) && t.color.Keys == s.color.Keys
    && forall u :: u in U && u in s.color && s.color[u] == White ==> u in t.color && t.color[u] == White
  }

  lemma MarkAllSpares(s: State, os: seq<Ref>, U: set<Ref>)
    requires Inv(s) && s.phase == MARK && Avoids(os, U)
    ensures StillGarbage(s, MarkAll(s, os), U)
  {
    MarkAllEffect(s, os);
  }

  lemma ScanOneSpares(s: State, U: set<Ref>, c0: nat)
    requires Inv(s) && s.phase == MARK && s.worklist != [] && Garbage(s, U, c0)
    ensures Garbage(ScanOne(s), U, c0)
  {
    hide Shape, Live, Closed, TriColor, Distinct;
    var o := s.worklist[|s.worklist| - 1];
    var u := s.(worklist := s.worklist[..|s.worklist| - 1], color := s.color[o := Black]);
    assert o in s.worklist && s.color[o] == Gray && o !in U;
    PopGray(s);
    assert Avoids(Fields(s, o), U);
    MarkAllEffect(u, Fields(s, o));
  }

  lemma {:induction false} MarkStepSpares(s: State, budget: nat, U: set<Ref>, c0: nat)
    requires Inv(s) && s.phase == MARK && Garbage(s, U, c0)
    ensures Garbage(MarkStep(s, budget).0, U, c0)
    decreases budget
  {
    hide Inv, Garbage, ScanOne;
    if budget > 0 && s.worklist != [] {
      ScanOneInv(s);
      ScanOneSpares(s, U, c0);
      MarkStepSpares(ScanOne(s), budget - 1, U, c0);
    }
  }

  lemma {:induction false} DrainSpares(s: State, U: set<Ref>, c0: nat)
    requires Inv(s) && s.phase == MARK && Garbage(s, U, c0)
    ensures Garbage(Drain(s), U, c0)
    decreases Whites(s), |s.worklist|
  {
    hide Inv, Garbage, ScanOne;
    if s.worklist != [] {
      ScanOneInv(s);
      ScanOneShrinks(s);
      ScanOneSpares(s, U, c0);
      DrainSpares(ScanOne(s), U, c0);
    }
  }

  lemma BeginCycleSpares(s: State, U: set<Ref>, c0: nat)
    requires Inv(s) && s.phase == IDLE && Garbage(s, U, c0)
    ensures Garbage(BeginCycle(s), U, c0)
  {
    hide MarkAll;
    var t := s.(phase := MARK);
    RecolorInv(s, t);
    assert forall o :: o in t.color ==> t.color[o] == White;
    assert Inv(t);
    MarkAllSpares(t, s.roots, U);
    var m := MarkAll(t, s.roots);
    assert BeginCycle(s) == m && m.phase == MARK && m.fields == s.fields;
    assert forall u :: u in m.color <==> u in t.color;
  }

  lemma FinishMarkingSpares(s: State, U: set<Ref>, c0: nat)
    requires Inv(s) && s.phase == MARK && Garbage(s, U, c0)
    ensures Garbage(FinishMarking(s), U, c0)
  {
    hide MarkAll, Drain, Closed, Live, TriColor;
    var m := MarkAll(s, s.roots);
    MarkAllSpares(s, s.roots, U);
    MarkAllInv(s, s.roots);
    assert Garbage(m, U, c0);
    DrainSpares(m, U, c0);
    DrainInv(m);
    var d, t := Drain(m), FinishMarking(s);
    assert t.first[0..] == t.first;
  }

  lemma SweepOneSpares(s: State, U: set<Ref>, c0: nat)
    requires Inv(s) && s.phase == SWEEP && s.sweepPos < |s.first| && Garbage(s, U, c0)
    ensures Garbage(SweepOne(s), U, c0)
  {
    hide Shape, Closed, Live, SumSizes;
    var o, t := s.first[s.sweepPos], SweepOne(s);
    assert s.first[s.sweepPos..] == [o] + s.first[s.sweepPos + 1..];
    if o in s.color && s.color[o] != White {
      assert t.first[t.sweepPos..] == s.first[s.sweepPos + 1..];
    } else {
      assert t.first[t.sweepPos..] == s.first[s.sweepPos + 1..];
    }
  }

  lemma {:induction false} SweepStepSpares(s: State, budget: nat, U: set<Ref>, c0: nat)
    requires Inv(s) && s.phase == SWEEP && Garbage(s, U, c0)
    ensures Garbage(SweepStep(s, budget).0, U, c0)
    decreases budget
  {
    hide Inv, Garbage, SweepOne;
    if budget > 0 && s.sweepPos < |s.first| {
      SweepOneInv(s);
      SweepOneSpares(s, U, c0);
      SweepStepSpares(SweepOne(s), budget - 1, U, c0);
    }
  }

  lemma {:induction false} SweepAllSpares(s: State, U: set<Ref>, c0: nat)
    requires Inv(s) && s.phase == SWEEP && Garbage(s, U, c0)
    ensures Garbage(SweepAll(s), U, c0)
    decreases |s.first| - s.sweepPos
  {
    hide Inv, Garbage;
    if s.sweepPos < |s.first| {
      SweepOneInv(s);
      SweepOneSpares(s, U, c0);
      SweepAllSpares(SweepOne(s), U, c0);
    }
  }

  lemma FinishCycleFrees(s: State, U: set<Ref>, c0: nat)
    requires Inv(s) && s.phase == SWEEP && s.sweepPos >= |s.first| && Garbage(s, U, c0)
    ensures Garbage(FinishCycle(s), U, c0)
  {
    assert s.first[s.sweepPos..] == [];
  }

  lemma GcStepSpares(s: State, stepBudget: nat, U: set<Ref>, c0: nat)
    requires Inv(s) && Garbage(s, U, c0)
    ensures Garbage(GcStep(s, stepBudget), U, c0)
  {
    hide Inv, Garbage, MarkStep, SweepStep, FinishMarking, FinishCycle, BeginCycle;
    match s.phase
    case IDLE => BeginCycleSpares(s, U, c0);
    case MARK =>
      MarkStepInv(s, stepBudget);
      MarkStepSpares(s, stepBudget, U, c0);
      var (t, drained) := MarkStep(s, stepBudget);
      if drained { FinishMarkingSpares(t, U, c0); }
    case SWEEP =>
      SweepStepInv(s, stepBudget * 2);
      SweepStepSpares(s, stepBudget * 2, U, c0);
      var (t, swept) := SweepStep(s, stepBudget * 2);
      if swept { FinishCycleFrees(t, U, c0); }
  }

  lemma GcCollectSpares(s: State, U: set<Ref>, c0: nat)
    requires Inv(s) && Garbage(s, U, c0)
    ensures Garbage(GcCollect(s), U, c0)
  {
    hide Inv, Garbage, Drain, SweepAll, FinishMarking, FinishCycle, BeginCycle;
    var m := if s.phase == IDLE then BeginCycle(s) else s;
    if s.phase == IDLE {
      BeginCycleInv(s);
      BeginCycleSpares(s, U, c0);
    }
    if m.phase == MARK {
      DrainInv(m);
      DrainSpares(m, U, c0);
      FinishMarkingInv(Drain(m));
      FinishMarkingSpares(Drain(m), U, c0);
    }
    var w := if m.phase == MARK then FinishMarking(Drain(m)) else m;
    SweepAllInv(w);
    SweepAllSpares(w, U, c0);
    FinishCycleFrees(SweepAll(w), U, c0);
  }

  lemma StoreSpares(s: State, o: Ref, kids: seq<Ref>, stored: seq<Ref>, U: set<Ref>, c0: nat)
    requires Inv(s) && CanStore(s, o, kids, stored) && Garbage(s, U, c0)
    ensures Garbage(Store(s, o, kids, stored), U, c0)
  {
    hide Reachable, MarkAll, Closed, Live, TriColor, SumSizes, Shape;
    GarbageUnreachable(s, U, c0);
    assert Avoids(stored, U) && o !in U;
    assert Avoids(kids, U) by {
      forall k | k in kids ensures k !in U { assert k in Fields(s, o) ==> o in s.fields; }
    }
    var t, m := Store(s, o, kids, stored), Shade(s, stored);
    if s.phase == MARK { MarkAllSpares(s, stored, U); }
    assert m == s.(color := m.color, worklist := m.worklist) && t == m.(fields := m.fields[o := kids]);
    forall p | p in t.fields && p !in U ensures Avoids(t.fields[p], U) { assert p == o || p in s.fields; }
    assert forall u :: u in t.color <==> u in s.color;
  }

  lemma AllocSpares(s: State, kids: seq<Ref>, size: nat, U: set<Ref>, c0: nat)
    requires Inv(s) && ReachableAll(s, kids) && Garbage(s, U, c0)
    ensures Garbage(Alloc(s, kids, size), U, c0)
  {
    hide Reachable, Closed, Live, TriColor, SumSizes, WorklistIsGray;
    GarbageUnreachable(s, U, c0);
    assert Avoids(kids, U);
    var o, t := s.nextRef, Alloc(s, kids, size);
    FreshIsUnlisted(s);
  }

  lemma ApplySpares(s: State, op: Op, U: set<Ref>, c0: nat)
    requires Inv(s) && Enabled(s, op) && Garbage(s, U, c0)
    ensures Garbage(Apply(s, op), U, c0)
  {
    hide Inv, Reachable, Store, Alloc, GcStep, GcCollect, CanStore, ReachableAll;
    match op
    case WriteRoots(roots) => SetRootsSpares(s, roots, U, c0);
    case WriteFields(o, kids, stored) => StoreSpares(s, o, kids, stored, U, c0);
    case New(kids, size) => AllocSpares(s, kids, size, U, c0);
    case Slice(b) => GcStepSpares(s, b, U, c0);
    case Collect => GcCollectSpares(s, U, c0);
  }

  lemma SetRootsSpares(s: State, roots: seq<Ref>, U: set<Ref>, c0: nat)
    requires ReachableAll(s, roots) && Garbage(s, U, c0)
    ensures Garbage(SetRoots(s, roots), U, c0)
  {
    GarbageUnreachable(s, U, c0);
  }

  lemma {:induction false} RunSpares(s: State, ops: seq<Op>, U: set<Ref>, c0: nat)
    requires Inv(s) && CanRun(s, ops) && Garbage(s, U, c0)
    ensures Garbage(Run(s, ops), U, c0)
    decreases |ops|
  {
    hide Inv, Garbage, CanRun, Apply, Enabled;
    if ops != [] {
      CanRunStep(s, ops);
      ApplyInv(s, ops[0]);
      ApplySpares(s, ops[0], U, c0);
      RunSpares(Apply(s, ops[0]), ops[1..], U, c0);
    }
  }

  ghost function Unreachable(s: State): set<Ref> { set o | o in s.color && !Reachable(s, o) }

  /** Completeness: whatever was unreachable while the collector was idle is gone once a cycle has
      ended, for every slicing and every interleaving with the mutator. */
  lemma CycleFreesGarbage(s: State, ops: seq<Op>, u: Ref)
    requires Inv(s) && s.phase == IDLE && CanRun(s, ops)
    requires u in s.color && !Reachable(s, u)
    requires Run(s, ops).collections > s.collections
    ensures var t := Run(s, ops); u !in t.color && u !in t.first && u !in t.newborn
  {
    var U := Unreachable(s);
    UnreachableIsGarbage(s);
    hide Reachable, CanRun, Run;
    RunSpares(s, ops, U, s.collections);
    RunIsSafe(s, ops);
  }

  lemma UnreachableIsGarbage(s: State)
    requires Inv(s) && s.phase == IDLE
    ensures Garbage(s, Unreachable(s), s.collections)
  {
    hide Reachable;
    ReachableRoots(s);
    forall p | p in s.fields && p !in Unreachable(s) ensures Avoids(s.fields[p], Unreachable(s)) {
      ReachableFields(s, p);
    }
  }

  // ---------------------------------------------------------------- survivors keep their order

  /** The marked objects of a list, in order. */
  ghost function Marked(s: State, q: seq<Ref>): seq<Ref>
  {
    if q == [] then []
    else (if q[0] in s.color && s.color[q[0]] != White then [q[0]] else []) + Marked(s, q[1..])
  }

  /** What the list will be when the sweep is over. */
  ghost function Survivors(s: State): seq<Ref> {
    if s.sweepPos <= |s.first| then s.first[..s.sweepPos] + Marked(s, s.first[s.sweepPos..]) else s.first
  }

  lemma {:induction false} MarkedIn(s: State, t: State, q: seq<Ref>)
    requires forall o :: o in q ==> (o in s.color <==> o in t.color) && (o in s.color ==> s.color[o] == t.color[o])
    ensures Marked(s, q) == Marked(t, q)
  {
    if q != [] { MarkedIn(s, t, q[1..]); }
  }

  lemma SweepOneSurvivors(s: State)
    requires Inv(s) && s.phase == SWEEP && s.sweepPos < |s.first|
    ensures Survivors(SweepOne(s)) == Survivors(s)
  {
    hide Closed, Live, SumSizes, Distinct, Shape, Marked, PhaseOk;
    var o, t := s.first[s.sweepPos], SweepOne(s);
    var before, rest := s.first[..s.sweepPos], s.first[s.sweepPos + 1..];
    SweptShape(s);
    assert s.first[s.sweepPos..] == [o] + rest;
    if s.color[o] == White { assert t.first == before + rest && t.sweepPos == |before|; }
    assert t.first[t.sweepPos..] == rest;
    MarkedIn(s, t, rest);
    MarkedHead(s, o, rest);
    if s.color[o] != White {
      assert t.first[..t.sweepPos] == before + [o];
      assert before + [o] + Marked(t, rest) == before + ([o] + Marked(s, rest));
    } else {
      assert t.first[..t.sweepPos] == before;
    }
  }

  lemma SweptShape(s: State)
    requires Shape(s) && s.sweepPos < |s.first|
    ensures s.first[s.sweepPos] in s.color && s.first[s.sweepPos] !in s.first[s.sweepPos + 1..]
  {
    OnlyOnce(s.first, s.newborn, s.sweepPos);
    assert s.first[s.sweepPos] in s.first;
  }

  lemma MarkedHead(s: State, o: Ref, rest: seq<Ref>)
    ensures Marked(s, [o] + rest) == (if o in s.color
        && s.color[o] != White then [o] + Marked(s, rest) else Marked(s, rest))
  {
    assert ([o] + rest)[1..] == rest;
  }

  lemma {:induction false} SweepStepSurvivors(s: State, budget: nat)
    requires Inv(s) && s.phase == SWEEP
    ensures Survivors(SweepStep(s, budget).0) == Survivors(s)
    ensures SweepStep(s, budget).0.newborn == s.newborn && SweepStep(s, budget).0.collections == s.collections
    decreases budget
  {
    hide Inv, Survivors;
    if budget > 0 && s.sweepPos < |s.first| {
      SweepOneInv(s);
      SweepOneSurvivors(s);
      SweepStepSurvivors(SweepOne(s), budget - 1);
    }
  }

  lemma {:induction false} SweepAllSurvivors(s: State)
    requires Inv(s) && s.phase == SWEEP
    ensures Survivors(SweepAll(s)) == Survivors(s)
    ensures SweepAll(s).newborn == s.newborn && SweepAll(s).collections == s.collections
    decreases |s.first| - s.sweepPos
  {
    hide Inv, Survivors;
    if s.sweepPos < |s.first| {
      SweepOneInv(s);
      SweepOneSurvivors(s);
      SweepAllSurvivors(SweepOne(s));
    }
  }

  /** Mutator steps while sweeping do not change what will survive. */
  lemma MutatorSurvivors(s: State, op: Op)
    requires Inv(s) && s.phase == SWEEP && Enabled(s, op) && !op.Slice? && !op.Collect?
    ensures var t := Apply(s, op);
      t.phase == SWEEP && t.collections == s.collections && Survivors(t) == Survivors(s)
  {
    hide Reachable, Closed, Live, SumSizes, Distinct;
    var t := Apply(s, op);
    FreshIsUnlisted(s);
    var rest := s.first[s.sweepPos..];
    MarkedIn(s, t, rest);
  }

  /** The end of a sweep: the list is the newborns followed by the marked objects in their order,
      all white, and `sweepLive` is the sum of the sizes of the marked ones. */
  ghost predicate CycleEnds(s: State, t: State, K: seq<Ref>) {
    && t.phase == IDLE && t.collections == s.collections + 1
    && t.first == s.newborn + K && t.newborn == []
    && (forall o :: o in t.first ==> o in t.color && t.color[o] == White)
    && t.sweepLive == SumSizes(t, K)
  }

  lemma SweepEnds(s: State, w: State, K: seq<Ref>)
    requires Inv(w) && w.phase == SWEEP && w.sweepPos >= |w.first|
    requires Survivors(w) == K && w.newborn == s.newborn && w.collections == s.collections
    ensures CycleEnds(s, FinishCycle(w), K)
  {
    var t := FinishCycle(w);
    assert w.first[..w.sweepPos] == w.first && w.first[w.sweepPos..] == [];
    assert K == w.first;
    SumSizesIn(w, t, K);
  }

  /** One step of the sweep phase either leaves the survivors to be, or ends the cycle with them. */
  lemma SweepPhaseStep(s: State, op: Op)
    requires Inv(s) && s.phase == SWEEP && Enabled(s, op)
    ensures var t, K := Apply(s, op), Survivors(s);
      || (t.phase == SWEEP && t.collections == s.collections && Survivors(t) == K)
      || ((op.Slice? || op.Collect?) && CycleEnds(s, t, K))
  {
    hide Inv, Survivors, SweepStep, SweepAll, FinishCycle, CycleEnds, Enabled, Store, Alloc, SetRoots;
    match op
    case Slice(b) =>
      SweepStepInv(s, b * 2);
      SweepStepSurvivors(s, b * 2);
      var (t, swept) := SweepStep(s, b * 2);
      if swept { SweepEnds(s, t, Survivors(s)); }
    case Collect =>
      SweepAllInv(s);
      SweepAllSurvivors(s);
      SweepEnds(s, SweepAll(s), Survivors(s));
    case _ => MutatorSurvivors(s, op);
  }

  /** Over a whole sweep phase: from its start, through any steps, to the step that ends it. */
  lemma {:induction false} SweepKeepsMarked(s: State, ops: seq<Op>, last: Op)
    requires Inv(s) && s.phase == SWEEP && CanRun(s, ops + [last])
    requires Run(s, ops).collections == s.collections
    requires Run(s, ops + [last]).collections != s.collections
    ensures CycleEnds(Run(s, ops), Run(s, ops + [last]), Survivors(s))
    ensures s.sweepPos == 0 ==> Survivors(s) == Marked(s, s.first)
    decreases |ops|
  {
    hide Inv, Survivors, Apply, Enabled, CycleEnds;
    if s.sweepPos == 0 { AtSweepStart(s); }
    var all := ops + [last];
    CanRunStep(s, all);
    ApplyInv(s, all[0]);
    SweepPhaseStep(s, all[0]);
    if ops == [] {
      assert Run(s, all) == Apply(s, last) by { assert all[1..] == []; }
      EndsOnce(s, Apply(s, last), Survivors(s));
    } else {
      assert all[1..] == ops[1..] + [last];
      RunCounts(Apply(s, ops[0]), ops[1..]);
      EndsOnce(s, Apply(s, ops[0]), Survivors(s));
      SweepKeepsMarked(Apply(s, ops[0]), ops[1..], last);
    }
  }

  lemma EndsOnce(s: State, t: State, K: seq<Ref>)
    ensures CycleEnds(s, t, K) ==> t.collections == s.collections + 1
  {
  }

  lemma AtSweepStart(s: State)
    requires s.sweepPos == 0
    ensures Survivors(s) == Marked(s, s.first)
  {
    assert s.first[0..] == s.first && s.first[..0] == [];
  }

  /** The number of collections only grows. */
  lemma {:induction false} RunCounts(s: State, ops: seq<Op>)
    ensures Run(s, ops).collections >= s.collections
    decreases |ops|
  {
    if ops != [] {
      ApplyCounts(s, ops[0]);
      RunCounts(Apply(s, ops[0]), ops[1..]);
    }
  }

  lemma {:induction false} MarkAllCounts(s: State, os: seq<Ref>)
    ensures MarkAll(s, os).collections == s.collections
    decreases |os|
  {
    if os != [] { MarkAllCounts(s, os[..|os| - 1]); }
  }

  lemma ScanOneCounts(s: State)
    requires s.worklist != []
    ensures ScanOne(s).collections == s.collections
  {
    var o := s.worklist[|s.worklist| - 1];
    MarkAllCounts(s.(worklist := s.worklist[..|s.worklist| - 1],
                     color := if o in s.color then s.color[o := Black] else s.color), Fields(s, o));
  }

  lemma {:induction false} MarkStepCounts(s: State, budget: nat)
    ensures MarkStep(s, budget).0.collections == s.collections
    decreases budget
  {
    if budget > 0 && s.worklist != [] {
      ScanOneCounts(s);
      MarkStepCounts(ScanOne(s), budget - 1);
    }
  }

  lemma {:induction false} DrainCounts(s: State)
    ensures Drain(s).collections == s.collections
    decreases Whites(s), |s.worklist|
  {
    if s.worklist != [] {
      ScanOneShrinks(s);
      ScanOneCounts(s);
      DrainCounts(ScanOne(s));
    }
  }

  lemma {:induction false} SweepStepCounts(s: State, budget: nat)
    ensures SweepStep(s, budget).0.collections == s.collections
    decreases budget
  {
    if budget > 0 && s.sweepPos < |s.first| { SweepStepCounts(SweepOne(s), budget - 1); }
  }

  lemma {:induction false} SweepAllCounts(s: State)
    ensures SweepAll(s).collections == s.collections
    decreases |s.first| - s.sweepPos
  {
    if s.sweepPos < |s.first| { SweepAllCounts(SweepOne(s)); }
  }

  lemma ApplyCounts(s: State, op: Op)
    ensures Apply(s, op).collections >= s.collections
  {
    hide MarkAll, MarkStep, Drain, SweepStep, SweepAll;
    MarkAllCounts(s.(phase := MARK), s.roots);
    match op
    case Slice(b) =>
      MarkStepCounts(s, b);
      var t := MarkStep(s, b).0;
      MarkAllCounts(t, t.roots);
      DrainCounts(MarkAll(t, t.roots));
      SweepStepCounts(s, b * 2);
    case Collect =>
      var m := if s.phase == IDLE then BeginCycle(s) else s;
      DrainCounts(m);
      var d := Drain(m);
      MarkAllCounts(d, d.roots);
      DrainCounts(MarkAll(d, d.roots));
      SweepAllCounts(if m.phase == MARK then FinishMarking(d) else m);
    case WriteFields(o, kids, stored) => MarkAllCounts(s, stored);
    case _ =>
  }
}
