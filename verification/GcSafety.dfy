/** Every step keeps the invariant, hence every interleaving is safe; and a cycle frees exactly
 what it should. */
module GcSafety {
  import opened GcModel

  // ---------------------------------------------------------------- sweeping

  lemma FinishMarkingInv(s: State)
    requires Inv(s) && s.phase == MARK
    ensures Inv(FinishMarking(s)) && FinishMarking(s).phase == SWEEP
  {
    MarkedAll(s);
    hide MarkAll, Drain, Reachable;
    var t := Drain(MarkAll(s, s.roots));
    var u := FinishMarking(s);
    assert u == s.(color := t.color, worklist := [], sweepPos := 0, sweepLive := 0, phase := SWEEP);
    forall o | o in u.roots ensures o in Live(u) { ReachableFromRoots(t, o); }
    forall p, o | p in Live(u) && o in Fields(u, p) ensures o in Live(u) {
      assert p in u.first && u.first[0..] == u.first;
      assert t.color[p] == Black && o in Fields(t, p) && NonWhite(t, o);
      assert p in Live(t) && o in Live(t);
    }
  }

  lemma ReachableFromRoots(s: State, o: Ref)
    requires o in s.roots
    ensures Reachable(s, o)
  {
    ReachableRoots(s);
  }

  lemma SumSizesIn(s: State, t: State, q: seq<Ref>)
    requires forall o :: o in q ==> Size(s, o) == Size(t, o)
    ensures SumSizes(s, q) == SumSizes(t, q)
    decreases |q|
  {
    if q != [] { SumSizesIn(s, t, q[..|q| - 1]); }
  }

  lemma SweepOneInv(s: State)
    requires Inv(s) && s.phase == SWEEP && s.sweepPos < |s.first|
    ensures Inv(SweepOne(s)) && SweepOne(s).phase == SWEEP
  {
    var o := s.first[s.sweepPos];
    assert o in s.first && o in s.color;
    if s.color[o] != White { SweepKeep(s); } else { SweepFree(s); }
  }

  lemma SweepKeep(s: State)
    requires Inv(s) && s.phase == SWEEP && s.sweepPos < |s.first| && s.color[s.first[s.sweepPos]] != White
    ensures Inv(SweepOne(s))
  {
    hide Live, Distinct, SumSizes;
    var o, t := s.first[s.sweepPos], SweepOne(s);
    assert o in s.first;
    KeptLive(s, t);
    assert forall p :: Fields(t, p) == Fields(s, p);
    assert t.first[..t.sweepPos] == s.first[..s.sweepPos] + [o];
    KeptSum(s, t);
  }

  lemma KeptLive(s: State, t: State)
    requires Shape(s) && s.phase == SWEEP && s.sweepPos < |s.first| && s.first[s.sweepPos] in s.color
    requires s.color[s.first[s.sweepPos]] != White
    requires t == s.(color := s.color[s.first[s.sweepPos] := White],
                     sweepPos := s.sweepPos + 1, sweepLive := t.sweepLive)
    ensures Live(t) == Live(s)
  {
    var o := s.first[s.sweepPos];
    OnlyOnce(s.first, s.newborn, s.sweepPos);
    assert s.first[s.sweepPos..] == [o] + t.first[t.sweepPos..];
    assert forall p :: p in Live(t) <==> p in Live(s);
  }

  lemma KeptSum(s: State, t: State)
    requires s.sweepPos < |s.first|
    requires t == s.(color := t.color, sweepPos := s.sweepPos + 1, sweepLive := t.sweepLive)
    ensures SumSizes(t, t.first[..t.sweepPos]) == SumSizes(s, s.first[..s.sweepPos]) + Size(s, s.first[s.sweepPos])
  {
    var q := t.first[..t.sweepPos];
    assert q[..|q| - 1] == s.first[..s.sweepPos];
    SumSizesIn(s, t, s.first[..s.sweepPos]);
  }

  lemma OnlyOnce(a: seq<Ref>, b: seq<Ref>, i: nat)
    requires Distinct(a + b) && i < |a|
    ensures a[i] !in a[..i] && a[i] !in a[i + 1..] && a[i] !in b
  {
    var q := a + b;
    forall j | 0 <= j < |q| && j != i ensures q[j] != a[i] { assert q[i] == a[i]; }
    assert forall j :: 0 <= j < |b| ==> b[j] == q[|a| + j];
    assert forall j :: i < j < |a| ==> a[j] == q[j];
    assert forall j :: 0 <= j < i ==> a[j] == q[j];
  }

  lemma SweepFree(s: State)
    requires Inv(s) && s.phase == SWEEP && s.sweepPos < |s.first| && s.color[s.first[s.sweepPos]] == White
    ensures Inv(SweepOne(s))
  {
    hide Live, Distinct, SumSizes, Shape, Closed;
    var o, t := s.first[s.sweepPos], SweepOne(s);
    var before, after := s.first[..s.sweepPos], s.first[s.sweepPos + 1..];
    assert s.first == before + [o] + after && t.first == before + after;
    FreedShape(s, t, before, o, after);
    FreedLive(s, t, before, o, after);
    assert t.first[..t.sweepPos] == before;
    SumSizesIn(s, t, before);
    FreedClosed(s, t, o);
  }

  lemma FreedShape(s: State, t: State, before: seq<Ref>, o: Ref, after: seq<Ref>)
    requires Shape(s) && s.first == before + [o] + after
    requires t == s.(first := before + after, color := s.color - {o}, fields := s.fields - {o}, size := s.size - {o})
    ensures Shape(t) && o !in before + after + s.newborn
    ensures o !in before && o !in after && o in s.color
  {
    RemoveDistinct(before, o, after, s.newborn);
    hide Distinct;
    assert o !in before + after + s.newborn;
    assert forall p :: p in s.first <==> p == o || p in t.first;
    assert forall p :: p in before + after + s.newborn <==> p in t.first || p in s.newborn;
  }

  lemma FreedClosed(s: State, t: State, o: Ref)
    requires Closed(s, Live(s)) && Live(t) == Live(s) && t.roots == s.roots
    requires t.fields == s.fields - {o}
    ensures Closed(t, Live(t))
  {
    hide Live;
    forall p, q | p in Live(t) && q in Fields(t, p) ensures q in Live(t) {
      assert p in Live(s) && q in Fields(s, p);
    }
  }

  lemma FreedLive(s: State, t: State, before: seq<Ref>, o: Ref, after: seq<Ref>)
    requires s.phase == SWEEP && |before| == s.sweepPos && o in s.color
    requires s.first == before + [o] + after && s.color[o] == White && o !in before && o !in after
    requires t == s.(first := before + after, color := s.color - {o}, fields := s.fields - {o}, size := s.size - {o})
    ensures Live(t) == Live(s)
  {
    assert t.first[t.sweepPos..] == after && s.first[s.sweepPos..] == [o] + after;
    assert Doomed(s, o);
    assert forall p :: p in Live(t) <==> p in Live(s);
  }

  lemma RemoveDistinct(a: seq<Ref>, o: Ref, b: seq<Ref>, c: seq<Ref>)
    requires Distinct(a + [o] + b + c)
    ensures Distinct(a + b + c) && o !in a + b + c
  {
    var q, r := a + [o] + b + c, a + b + c;
    assert forall i :: 0 <= i < |r| ==> r[i] == q[if i < |a| then i else i + 1];
    assert q[|a|] == o;
  }

  lemma {:induction false} SweepStepInv(s: State, budget: nat)
    requires Inv(s) && s.phase == SWEEP
    ensures var (t, swept) := SweepStep(s, budget);
      Inv(t) && t.phase == SWEEP && (swept <==> t.sweepPos >= |t.first|)
    decreases budget
  {
    hide Inv, SweepOne;
    if budget > 0 && s.sweepPos < |s.first| {
      SweepOneInv(s);
      SweepStepInv(SweepOne(s), budget - 1);
    }
  }

  lemma {:induction false} SweepAllInv(s: State)
    requires Inv(s) && s.phase == SWEEP
    ensures var t := SweepAll(s); Inv(t) && t.phase == SWEEP && t.sweepPos >= |t.first|
    decreases |s.first| - s.sweepPos
  {
    hide Inv;
    if s.sweepPos < |s.first| {
      SweepOneInv(s);
      SweepAllInv(SweepOne(s));
    }
  }

  lemma FinishCycleInv(s: State)
    requires Inv(s) && s.phase == SWEEP && s.sweepPos >= |s.first|
    ensures Inv(FinishCycle(s)) && FinishCycle(s).phase == IDLE
  {
    var t := FinishCycle(s);
    assert s.first[..s.sweepPos] == s.first && s.first[s.sweepPos..] == [];
    SwapDistinct(s.first, s.newborn);
    assert t.first + t.newborn == s.newborn + s.first;
    assert Live(t) == Live(s);
    assert forall p :: Fields(t, p) == Fields(s, p);
  }

  lemma SwapDistinct(a: seq<Ref>, b: seq<Ref>)
    requires Distinct(a + b)
    ensures Distinct(b + a)
  {
    var q, r := a + b, b + a;
    assert forall i :: 0 <= i < |r| ==> r[i] == q[if i < |b| then |a| + i else i - |b|];
  }

  // ---------------------------------------------------------------- whole collector steps

  lemma GcStepInv(s: State, stepBudget: nat)
    requires Inv(s)
    ensures Inv(GcStep(s, stepBudget))
  {
    hide Inv, MarkStep, SweepStep, FinishMarking, FinishCycle, BeginCycle;
    match s.phase
    case IDLE => BeginCycleInv(s);
    case MARK =>
      MarkStepInv(s, stepBudget);
      var (t, drained) := MarkStep(s, stepBudget);
      if drained { FinishMarkingInv(t); }
    case SWEEP =>
      SweepStepInv(s, stepBudget * 2);
      var (t, swept) := SweepStep(s, stepBudget * 2);
      if swept { FinishCycleInv(t); }
  }

  lemma GcCollectInv(s: State)
    requires Inv(s)
    ensures Inv(GcCollect(s)) && GcCollect(s).phase == IDLE
  {
    hide Inv, Drain, SweepAll, FinishMarking, FinishCycle, BeginCycle;
    var m := if s.phase == IDLE then BeginCycle(s) else s;
    if s.phase == IDLE { BeginCycleInv(s); }
    if m.phase == MARK {
      DrainInv(m);
      FinishMarkingInv(Drain(m));
    }
    var w := if m.phase == MARK then FinishMarking(Drain(m)) else m;
    SweepAllInv(w);
    FinishCycleInv(SweepAll(w));
  }

  // ---------------------------------------------------------------- mutator steps

  /** The mutator only has references it can reach. */
  ghost predicate CanStore(s: State, o: Ref, kids: seq<Ref>, stored: seq<Ref>) {
    && Reachable(s, o) && ReachableAll(s, stored)
    && forall k :: k in kids ==> k in Fields(s, o) || k in stored
  }

  lemma StoreInv(s: State, o: Ref, kids: seq<Ref>, stored: seq<Ref>)
    requires Inv(s) && CanStore(s, o, kids, stored)
    ensures Inv(Store(s, o, kids, stored))
  {
    hide Reachable, MarkAll, Distinct;
    ReachableIsAllocated(s);
    assert forall k :: k in kids ==> k in Live(s);
    var t := Store(s, o, kids, stored);
    if s.phase == MARK {
      MarkAllInv(s, stored);
      MarkAllEffect(s, stored);
      var u := MarkAll(s, stored);
      StoredInv(u, o, kids);
      RewireClosed(u, t, o);
    } else {
      RewireClosed(s, t, o);
      if s.phase == SWEEP { SumSizesIn(s, t, s.first[..s.sweepPos]); }
    }
  }

  /** After shading, the new contents of a container are not white. */
  lemma StoredInv(u: State, o: Ref, kids: seq<Ref>)
    requires Inv(u) && u.phase == MARK && o in u.color
    requires forall k :: k in kids ==> k in Fields(u, o) || NonWhite(u, k)
    ensures var t := u.(fields := u.fields[o := kids]); WorklistIsGray(t) && TriColor(t)
  {
    var t := u.(fields := u.fields[o := kids]);
    forall p, k | p in t.color && t.color[p] == Black && k in Fields(t, p) ensures NonWhite(t, k) {
      if p == o {
        assert k in kids;
        assert k in Fields(u, o) ==> NonWhite(u, k);
      } else {
        assert k in Fields(u, p) && NonWhite(u, k);
      }
    }
  }

  lemma RewireClosed(s: State, t: State, o: Ref)
    requires Shape(s) && Closed(s, Live(s)) && o in s.color
    requires t.fields.Keys == s.fields.Keys && t == s.(fields := t.fields)
    requires forall p :: p != o ==> Fields(t, p) == Fields(s, p)
    requires forall k :: k in Fields(t, o) ==> k in Live(s)
    ensures Shape(t) && Closed(t, Live(t))
  {
    assert forall p :: Doomed(t, p) <==> Doomed(s, p);
    assert Live(t) == Live(s);
  }

  lemma SetRootsInv(s: State, roots: seq<Ref>)
    requires Inv(s) && ReachableAll(s, roots)
    ensures Inv(SetRoots(s, roots))
  {
    hide Reachable;
    ReachableIsAllocated(s);
    var t := SetRoots(s, roots);
    assert forall o :: o in roots ==> o in Live(s);
    assert Shape(t);
    assert forall p :: Doomed(t, p) <==> Doomed(s, p);
    assert Live(t) == Live(s);
    assert forall p :: Fields(t, p) == Fields(s, p);
    assert Closed(t, Live(t));
    if s.phase == SWEEP { SumSizesIn(s, t, s.first[..s.sweepPos]); }
    assert forall p, k :: p in s.color && s.color[p] == Black && k in Fields(t, p) ==> k in Fields(s, p);
    assert forall k :: NonWhite(t, k) <==> NonWhite(s, k);
  }

  lemma AllocInv(s: State, kids: seq<Ref>, size: nat)
    requires Inv(s) && ReachableAll(s, kids)
    ensures Inv(Alloc(s, kids, size))
  {
    hide Reachable, Distinct, Live, Shape;
    ReachableIsAllocated(s);
    var o, t := s.nextRef, Alloc(s, kids, size);
    AllocShape(s, kids, size);
    AllocLive(s, kids, size);
    FreshIsUnlisted(s);
    forall p, k | p in Live(t) && k in Fields(t, p) ensures k in Live(t) {
      if p != o { assert p in Live(s) && k in Fields(s, p); } else { assert k in Live(s); }
    }
    match s.phase
    case IDLE =>
    case MARK => AllocMark(s, kids, size);
    case SWEEP => SumSizesIn(s, t, s.first[..s.sweepPos]);
  }

  lemma FreshIsUnlisted(s: State)
    requires Shape(s)
    ensures s.nextRef !in s.color && s.nextRef !in s.first && s.nextRef !in s.newborn
  {
  }

  lemma AllocShape(s: State, kids: seq<Ref>, size: nat)
    requires Shape(s)
    ensures Shape(Alloc(s, kids, size))
  {
    var o, t := s.nextRef, Alloc(s, kids, size);
    assert o !in s.first + s.newborn;
    if s.phase == SWEEP {
      var q, r := s.first + s.newborn, t.first + t.newborn;
      assert forall i :: 0 <= i < |r| && i != |s.first| ==> r[i] == q[if i < |s.first| then i else i - 1];
      assert r[|s.first|] == o;
    } else {
      assert t.first + t.newborn == [o] + (s.first + s.newborn);
    }
  }

  lemma AllocLive(s: State, kids: seq<Ref>, size: nat)
    requires Shape(s)
    ensures var t := Alloc(s, kids, size); s.nextRef in Live(t) && forall p :: p in Live(s) ==> p in Live(t)
    ensures var t := Alloc(s, kids, size); forall p :: p in Live(t) && p != s.nextRef ==> p in Live(s)
  {
    var o, t := s.nextRef, Alloc(s, kids, size);
    assert o !in s.first;
    if s.phase == SWEEP && s.sweepPos <= |s.first| { assert o !in s.first[s.sweepPos..]; }
  }

  lemma AllocMark(s: State, kids: seq<Ref>, size: nat)
    requires Shape(s) && Closed(s, Live(s)) && s.phase == MARK && WorklistIsGray(s) && TriColor(s)
    ensures var t := Alloc(s, kids, size); WorklistIsGray(t) && TriColor(t)
  {
    var o, t := s.nextRef, Alloc(s, kids, size);
    forall p, k | p in t.color && t.color[p] == Black && k in Fields(t, p) ensures NonWhite(t, k) {
      assert p != o && k in Fields(s, p) && p in Live(s) && k in Live(s) && NonWhite(s, k);
    }
  }

  // ---------------------------------------------------------------- runs

  datatype Op =
    | WriteRoots(roots: seq<Ref>)
    | WriteFields(o: Ref, kids: seq<Ref>, stored: seq<Ref>)
    | New(kids: seq<Ref>, size: nat)
    | Slice(stepBudget: nat)
    | Collect

  ghost predicate Enabled(s: State, op: Op) {
    match op
    case WriteRoots(roots) => ReachableAll(s, roots)
    case WriteFields(o, kids, stored) => CanStore(s, o, kids, stored)
    case New(kids, _) => ReachableAll(s, kids)
    case Slice(_) => true
    case Collect => true
  }

  ghost function Apply(s: State, op: Op): State {
    match op
    case WriteRoots(roots) => SetRoots(s, roots)
    case WriteFields(o, kids, stored) => Store(s, o, kids, stored)
    case New(kids, size) => Alloc(s, kids, size)
    case Slice(b) => GcStep(s, b)
    case Collect => GcCollect(s)
  }

  ghost predicate CanRun(s: State, ops: seq<Op>)
    decreases |ops|
  {
    ops == [] || (Enabled(s, ops[0]) && CanRun(Apply(s, ops[0]), ops[1..]))
  }

  ghost function Run(s: State, ops: seq<Op>): State
    decreases |ops|
  {
    if ops == [] then s else Run(Apply(s, ops[0]), ops[1..])
  }

  lemma ApplyInv(s: State, op: Op)
    requires Inv(s) && Enabled(s, op)
    ensures Inv(Apply(s, op))
  {
    hide Inv, Reachable, SetRoots, Store, Alloc, GcStep, GcCollect, CanStore;
    match op
    case WriteRoots(roots) => SetRootsInv(s, roots);
    case WriteFields(o, kids, stored) => StoreInv(s, o, kids, stored);
    case New(kids, size) => AllocInv(s, kids, size);
    case Slice(b) => GcStepInv(s, b);
    case Collect => GcCollectInv(s);
  }

  /** Safety: in every interleaving of mutator and collector steps, whatever the slicing, no object
      that can be reached has been freed, and the tri-colour invariant holds. */
  lemma {:induction false} RunIsSafe(s: State, ops: seq<Op>)
    requires Inv(s) && CanRun(s, ops)
    ensures var t := Run(s, ops);
      && Inv(t)
      && (forall o :: Reachable(t, o) ==> o in t.color && (o in t.first || o in t.newborn))
      && (t.phase == MARK ==> WorklistIsGray(t) && TriColor(t))
    decreases |ops|
  {
    hide Reachable, CanRun, Apply;
    if ops == [] {
      ReachableIsAllocated(s);
    } else {
      CanRunStep(s, ops);
      ApplyInv(s, ops[0]);
      RunIsSafe(Apply(s, ops[0]), ops[1..]);
    }
  }

  lemma CanRunStep(s: State, ops: seq<Op>)
    requires CanRun(s, ops) && ops != []
    ensures Enabled(s, ops[0]) && CanRun(Apply(s, ops[0]), ops[1..])
  {
  }
}
