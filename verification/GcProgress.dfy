/** The collector gets on: enough slices end the cycle, whatever their budgets, and what is unreachable is
 gone after at most two cycles. */
module GcProgress {
  import opened GcModel
  import opened GcSafety
  import opened GcCycles

  // ---------------------------------------------------------------- beginning

  /** The first slice of a cycle starts marking, with every root at least grey. */
  lemma BeginGreysRoots(s: State, stepBudget: nat)
    requires Inv(s) && s.phase == IDLE
    ensures var t := GcStep(s, stepBudget);
      && t.phase == MARK && t.collections == s.collections
      && forall o :: o in s.roots ==> o in t.color && t.color[o] != White
  {
    hide MarkAll, Live;
    var m := s.(phase := MARK);
    BeginCycleInv(s);
    StartIsGray(s);
    MarkAllEffect(m, s.roots);
    MarkAllCounts(m, s.roots);
    forall o | o in s.roots ensures o in s.color { RootsAllocated(s, o); }
  }

  lemma StartIsGray(s: State)
    requires Inv(s) && s.phase == IDLE
    ensures WorklistIsGray(s.(phase := MARK))
  {
    hide Live;
    assert forall o :: o in s.color ==> s.color[o] == White;
  }

  lemma RootsAllocated(s: State, o: Ref)
    requires Inv(s) && o in s.roots
    ensures o in s.color
  {
    ReachableFromRoots(s, o);
    ReachableIsAllocated(s);
  }

  /** A whole collection is one more cycle, at once. */
  lemma CollectCounts(s: State)
    ensures GcCollect(s).collections == s.collections + 1 && GcCollect(s).phase == IDLE
  {
    hide MarkAll, Drain, SweepAll;
    MarkAllCounts(s.(phase := MARK), s.roots);
    var m := if s.phase == IDLE then BeginCycle(s) else s;
    DrainCounts(m);
    var d := Drain(m);
    MarkAllCounts(d, d.roots);
    DrainCounts(MarkAll(d, d.roots));
    SweepAllCounts(if m.phase == MARK then FinishMarking(d) else m);
  }

  // ---------------------------------------------------------------- how much is left to do

  /** Greying moves an object from the white ones to the worklist. */
  lemma MarkObjectMoves(s: State, o: Ref)
    ensures var t := MarkObject(s, o); |Whites(t)| + |t.worklist| == |Whites(s)| + |s.worklist|
  {
    var t := MarkObject(s, o);
    if o in s.color && s.color[o] == White { assert Whites(t) == Whites(s) - {o}; }
  }

  lemma {:induction false} MarkAllMoves(s: State, os: seq<Ref>)
    ensures var t := MarkAll(s, os);
      && |Whites(t)| + |t.worklist| == |Whites(s)| + |s.worklist|
      && t.first == s.first && t.phase == s.phase && t.color.Keys == s.color.Keys
    decreases |os|
  {
    hide MarkObject;
    if os != [] {
      var before := MarkAll(s, os[..|os| - 1]);
      MarkAllMoves(s, os[..|os| - 1]);
      MarkObjectMoves(before, os[|os| - 1]);
      MarkObjectKeeps(before, os[|os| - 1]);
    }
  }

  lemma MarkObjectKeeps(s: State, o: Ref)
    ensures var t := MarkObject(s, o); t.first == s.first && t.phase == s.phase && t.color.Keys == s.color.Keys
  {
  }

  /** Scanning takes one object off for good. */
  lemma ScanOneWorks(s: State)
    requires Inv(s) && s.phase == MARK && s.worklist != []
    ensures var t := ScanOne(s);
      && |Whites(t)| + |t.worklist| + 1 == |Whites(s)| + |s.worklist|
      && t.first == s.first && t.phase == MARK && t.color.Keys == s.color.Keys
  {
    hide MarkAll, Live, Shape, Closed, TriColor;
    var o := s.worklist[|s.worklist| - 1];
    assert o in s.worklist;
    var u := s.(worklist := s.worklist[..|s.worklist| - 1], color := s.color[o := Black]);
    assert Whites(u) == Whites(s);
    MarkAllMoves(u, Fields(s, o));
  }

  lemma {:induction false} MarkStepWorks(s: State, budget: nat)
    requires Inv(s) && s.phase == MARK
    ensures var (t, drained) := MarkStep(s, budget);
      && |Whites(t)| + |t.worklist| <= |Whites(s)| + |s.worklist|
      && (budget > 0 && !drained ==> |Whites(t)| + |t.worklist| < |Whites(s)| + |s.worklist|)
      && t.first == s.first && t.phase == MARK && t.color.Keys == s.color.Keys
    decreases budget
  {
    hide Inv, ScanOne, Whites;
    if budget > 0 && s.worklist != [] {
      ScanOneInv(s);
      ScanOneWorks(s);
      MarkStepWorks(ScanOne(s), budget - 1);
    }
  }

  lemma {:induction false} SweepStepWorks(s: State, budget: nat)
    requires s.sweepPos <= |s.first|
    ensures var (t, swept) := SweepStep(s, budget);
      && t.sweepPos <= |t.first| && |t.first| - t.sweepPos <= |s.first| - s.sweepPos
      && (budget > 0 && !swept ==> |t.first| - t.sweepPos < |s.first| - s.sweepPos)
      && t.phase == s.phase && t.color.Keys <= s.color.Keys
    decreases budget
  {
    if budget > 0 && s.sweepPos < |s.first| {
      SweepStepWorks(SweepOne(s), budget - 1);
    }
  }

  /** Slices that are enough to end the cycle. */
  ghost function Work(s: State): nat {
    match s.phase
    case IDLE => |s.color| + |s.first| + 3
    case MARK => |Whites(s)| + |s.worklist| + |s.first| + 2
    case SWEEP => 1 + if s.sweepPos <= |s.first| then |s.first| - s.sweepPos else 0
  }

  /** Every slice with a budget either ends the cycle or leaves less to do. */
  lemma SliceWorks(s: State, stepBudget: nat)
    requires Inv(s) && stepBudget > 0
    ensures var t := GcStep(s, stepBudget);
      || (t.collections == s.collections && Work(t) < Work(s))
      || (t.collections == s.collections + 1 && t.phase == IDLE)
    ensures GcStep(s, stepBudget).color.Keys <= s.color.Keys
  {
    hide Inv, MarkStep, SweepStep, MarkAll, Drain;
    match s.phase
    case IDLE => BeginWorks(s);
    case MARK => MarkSliceWorks(s, stepBudget);
    case SWEEP =>
      assert s.sweepPos <= |s.first| by { SweepInside(s); }
      SweepStepWorks(s, stepBudget * 2);
      SweepStepCounts(s, stepBudget * 2);
  }

  lemma SweepInside(s: State)
    requires Inv(s) && s.phase == SWEEP
    ensures s.sweepPos <= |s.first|
  {
  }

  lemma BeginWorks(s: State)
    requires Inv(s) && s.phase == IDLE
    ensures var t := BeginCycle(s);
      t.collections == s.collections && t.phase == MARK && Work(t) < Work(s) && t.color.Keys == s.color.Keys
  {
    hide MarkAll, Live, Shape;
    var m := s.(phase := MARK);
    MarkAllMoves(m, s.roots);
    MarkAllCounts(m, s.roots);
    assert Whites(m) <= s.color.Keys;
    SmallerSet(Whites(m), s.color.Keys);
  }

  lemma SmallerSet(a: set<Ref>, b: set<Ref>)
    requires a <= b
    ensures |a| <= |b|
  {
    assert b == a + (b - a);
  }

  lemma MarkSliceWorks(s: State, stepBudget: nat)
    requires Inv(s) && s.phase == MARK && stepBudget > 0
    ensures var t := GcStep(s, stepBudget);
      t.collections == s.collections && Work(t) < Work(s) && t.color.Keys <= s.color.Keys
  {
    hide Inv, MarkStep, MarkAll, Drain, Whites;
    MarkStepInv(s, stepBudget);
    MarkStepWorks(s, stepBudget);
    MarkStepCounts(s, stepBudget);
    var (t, drained) := MarkStep(s, stepBudget);
    if drained { FinishWorks(t); }
  }

  lemma FinishWorks(s: State)
    requires Inv(s) && s.phase == MARK
    ensures var t := FinishMarking(s);
      t.collections == s.collections && t.phase == SWEEP && t.sweepPos == 0 && t.first == s.first
        && t.color.Keys == s.color.Keys
  {
    hide Inv, MarkAll, Drain;
    MarkAllInv(s, s.roots);
    MarkAllMoves(s, s.roots);
    MarkAllCounts(s, s.roots);
    DrainInv(MarkAll(s, s.roots));
    DrainCounts(MarkAll(s, s.roots));
    DrainKeys(MarkAll(s, s.roots));
  }

  lemma {:induction false} DrainKeys(s: State)
    requires Inv(s) && s.phase == MARK
    ensures Drain(s).color.Keys == s.color.Keys && Drain(s).first == s.first
    decreases Whites(s), |s.worklist|
  {
    hide Inv, ScanOne, Whites;
    if s.worklist != [] {
      ScanOneInv(s);
      ScanOneShrinks(s);
      ScanOneWorks(s);
      DrainKeys(ScanOne(s));
    }
  }

  // ---------------------------------------------------------------- enough slices

  /** Slices with some budget each. */
  ghost predicate Slices(ops: seq<Op>) { forall i :: 0 <= i < |ops| ==> ops[i].Slice? && ops[i].stepBudget > 0 }

  lemma {:induction false} SlicesRun(s: State, ops: seq<Op>)
    requires Slices(ops)
    ensures CanRun(s, ops)
    decreases |ops|
  {
    hide Apply;
    if ops != [] { SlicesRun(Apply(s, ops[0]), ops[1..]); }
  }

  /** However the slices are cut: after at most `Work` of them the cycle has ended. */
  lemma {:induction false} EverySlicingEnds(s: State, ops: seq<Op>) returns (n: nat)
    requires Inv(s) && Slices(ops) && |ops| >= Work(s)
    ensures 0 < n <= Work(s)
    ensures var t := Run(s, ops[..n]); t.collections == s.collections + 1 && t.phase == IDLE
    ensures Run(s, ops[..n]).color.Keys <= s.color.Keys
    decreases |ops|
  {
    hide Inv, GcStep, Work;
    SomeWork(s);
    var b := ops[0].stepBudget;
    var t := Apply(s, ops[0]);
    assert t == GcStep(s, b);
    SliceWorks(s, b);
    GcStepInv(s, b);
    if t.collections == s.collections + 1 && t.phase == IDLE {
      n := 1;
      assert ops[..1][1..] == [];
      assert Run(s, ops[..1]) == Run(t, []);
    } else {
      n := EverySlicingEnds(t, ops[1..]);
      assert ops[..n + 1][0] == ops[0] && ops[..n + 1][1..] == ops[1..][..n];
      n := n + 1;
    }
  }

  lemma SomeWork(s: State)
    ensures Work(s) > 0
  {
  }

  lemma {:induction false} RunInTwo(s: State, a: seq<Op>, b: seq<Op>)
    ensures Run(s, a + b) == Run(Run(s, a), b)
    decreases |a|
  {
    hide Apply;
    if a == [] {
      assert a + b == b;
    } else {
      assert (a + b)[0] == a[0] && (a + b)[1..] == a[1..] + b;
      RunInTwo(Apply(s, a[0]), a[1..], b);
    }
  }

  // ---------------------------------------------------------------- garbage goes

  lemma {:induction false} SlicesShrink(s: State, ops: seq<Op>)
    requires Inv(s) && Slices(ops)
    ensures var t := Run(s, ops); Inv(t) && Shrinks(s, t) && t.color.Keys <= s.color.Keys
    decreases |ops|
  {
    hide Inv, GcStep, Shrinks;
    if ops == [] {
      NothingShrinks(s);
    } else {
      var t := Apply(s, ops[0]);
      assert t == GcStep(s, ops[0].stepBudget);
      GcStepInv(s, ops[0].stepBudget);
      SliceWorks(s, ops[0].stepBudget);
      CollectorShrinks(s, ops[0]);
      SlicesShrink(t, ops[1..]);
      ShrinksTwice(s, t, Run(t, ops[1..]));
    }
  }

  lemma NothingShrinks(s: State)
    ensures Shrinks(s, s)
  {
  }

  lemma ShrinksTwice(s: State, t: State, u: State)
    requires Shrinks(s, t) && Shrinks(t, u)
    ensures Shrinks(s, u)
  {
  }

  /** What was unreachable stays so: the collector adds no reference. */
  lemma {:induction false} OnlyLess(s: State, t: State, o: Ref, n: nat)
    requires Shrinks(s, t) && ReachableIn(t, o, n)
    ensures ReachableIn(s, o, n)
    decreases n
  {
    if n > 0 {
      var p :| ReachableIn(t, p, n - 1) && o in Fields(t, p);
      OnlyLess(s, t, p, n - 1);
      assert o in Fields(s, p);
    }
  }

  lemma StaysUnreachable(s: State, t: State, u: Ref)
    requires Shrinks(s, t) && !Reachable(s, u)
    ensures !Reachable(t, u)
  {
    if Reachable(t, u) {
      var n: nat :| ReachableIn(t, u, n);
      OnlyLess(s, t, u, n);
    }
  }

  lemma {:induction false} DistinctFits(q: seq<Ref>, keys: set<Ref>)
    requires Distinct(q) && forall o :: o in q ==> o in keys
    ensures |q| <= |keys|
    decreases |q|
  {
    if q != [] {
      var rest, last := q[..|q| - 1], q[|q| - 1];
      assert last !in rest;
      DistinctFits(rest, keys - {last});
    }
  }

  lemma IdleWork(s: State)
    requires Inv(s) && s.phase == IDLE
    ensures Work(s) <= 2 * |s.color| + 3
  {
    hide Live;
    assert s.first + s.newborn == s.first;
    DistinctFits(s.first, s.color.Keys);
  }

  /** Whatever is unreachable, in whatever phase, is gone after enough slices, whatever their budgets: what
      is left of this cycle, and one whole cycle. */
  lemma GarbageGoes(s: State, ops: seq<Op>, u: Ref)
    requires Inv(s) && Slices(ops) && u in s.color && !Reachable(s, u)
    requires |ops| >= (if s.phase == IDLE then 0 else Work(s)) + 2 * |s.color| + 3
    ensures var t := Run(s, ops); u !in t.color && u !in t.first && u !in t.newborn
  {
    hide Inv, Reachable, Run, CanRun, Shrinks, Work;
    if s.phase == IDLE {
      IdleGarbageGoes(s, ops, u);
    } else {
      var n := EverySlicingEnds(s, ops);
      var t, rest := Run(s, ops[..n]), ops[n..];
      assert ops == ops[..n] + rest;
      RunInTwo(s, ops[..n], rest);
      SlicesShrink(s, ops[..n]);
      SmallerSet(t.color.Keys, s.color.Keys);
      if u in t.color {
        StaysUnreachable(s, t, u);
        IdleGarbageGoes(t, rest, u);
      } else {
        SlicesShrink(t, rest);
        NotListed(Run(t, rest), u);
      }
    }
  }

  lemma IdleGarbageGoes(s: State, ops: seq<Op>, u: Ref)
    requires Inv(s) && s.phase == IDLE && Slices(ops) && u in s.color && !Reachable(s, u)
    requires |ops| >= 2 * |s.color| + 3
    ensures var t := Run(s, ops); u !in t.color && u !in t.first && u !in t.newborn
  {
    hide Inv, Reachable, Run, CanRun, Work;
    IdleWork(s);
    var n := EverySlicingEnds(s, ops);
    assert ops == ops[..n] + ops[n..];
    RunInTwo(s, ops[..n], ops[n..]);
    RunCounts(Run(s, ops[..n]), ops[n..]);
    SlicesRun(s, ops);
    CycleFreesGarbage(s, ops, u);
  }

  lemma NotListed(s: State, u: Ref)
    requires Inv(s) && u !in s.color
    ensures u !in s.first && u !in s.newborn
  {
  }

  /** And a whole collection from idle frees it at once. */
  lemma CollectFrees(s: State, u: Ref)
    requires Inv(s) && s.phase == IDLE && u in s.color && !Reachable(s, u)
    ensures var t := GcCollect(s); u !in t.color && u !in t.first && u !in t.newborn
  {
    hide Inv, Reachable, GcCollect;
    var ops := [Collect];
    assert ops[1..] == [];
    assert Run(s, ops) == GcCollect(s) by { assert Run(s, ops) == Run(Apply(s, Collect), []); }
    CollectCounts(s);
    assert CanRun(s, ops) by { assert CanRun(GcCollect(s), []); }
    CycleFreesGarbage(s, ops, u);
  }
}
