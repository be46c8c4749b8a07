/** The heap and its collector as the object that is updated in place.  `S()` is the abstract state;
 each method is proved to do the step of the model and to keep the invariant. */
module GcHeap {
  import opened GcModel
  import opened GcSafety

  class Heap {
    var first: seq<Ref>
    var newborn: seq<Ref>
    var color: map<Ref, Color>
    var fields: map<Ref, seq<Ref>>
    var size: map<Ref, nat>
    var roots: seq<Ref>
    var worklist: seq<Ref>
    var phase: Phase
    var sweepCursor: nat
    var sweepLive: nat
    var collections: nat
    var nextRef: Ref
    const stepBudget: nat

    ghost function S(): State
      reads this
    {
      State(first, newborn, color, fields, size, roots, worklist, phase, sweepCursor, sweepLive, collections, nextRef)
    }

    constructor (budget: nat)
      ensures S() == State([], [], map[], map[], map[], [], [], IDLE, 0, 0, 0, 0)
      ensures Inv(S()) && stepBudget == budget
    {
      first, newborn, color, fields, size, roots, worklist := [], [], map[], map[], map[], [], [];
      phase, sweepCursor, sweepLive, collections, nextRef, stepBudget := IDLE, 0, 0, 0, 0, budget;
    }

    method MarkObject(o: Ref)
      requires o in color
      modifies this`color, this`worklist
      ensures S() == GcModel.MarkObject(old(S()), o)
    {
      if color[o] != White { return; }
      color := color[o := Gray];
      worklist := worklist + [o];
    }

    /** Marks a sequence of references: the roots, or what an object points to. */
    method MarkEach(os: seq<Ref>)
      requires forall o :: o in os ==> o in color
      modifies this`color, this`worklist
      ensures S() == MarkAll(old(S()), os) && color.Keys == old(color.Keys)
    {
      ghost var s := S();
      var k := 0;
      while k < |os|
        invariant k <= |os| && color.Keys == old(color.Keys)
        invariant S() == MarkAll(s, os[..k])
      {
        assert os[..k + 1][..k] == os[..k];
        MarkObject(os[k]);
        k := k + 1;
      }
      assert os[..k] == os;
    }

    /** Processes up to `budget` grey objects; true when the worklist drained. */
    method MarkStep(budget: nat) returns (drained: bool)
      requires Inv(S()) && phase == MARK
      modifies this`color, this`worklist
      ensures (S(), drained) == GcModel.MarkStep(old(S()), budget)
      ensures Inv(S()) && (drained <==> worklist == [])
      ensures GcModel.Drain(S()) == GcModel.Drain(old(S()))
    {
      hide Inv, MarkAll, Drain, GcModel.MarkStep, ScanOne, Whites;
      ghost var s := S();
      var left := budget;
      while left > 0
        invariant Inv(S()) && phase == MARK
        invariant GcModel.MarkStep(s, budget) == GcModel.MarkStep(S(), left)
        invariant Drain(S()) == Drain(s)
      {
        ghost var t := S();
        OneMarkStep(t, left);
        if worklist == [] { return true; }
        ScanOneInv(t);
        DrainStep(t);
        var o := worklist[|worklist| - 1];
        GrayHasFields(t);
        worklist := worklist[..|worklist| - 1];
        color := color[o := Black];
        MarkEach(fields[o]);
        ScannedOne(t, S(), o);
        left := left - 1;
      }
      OneMarkStep(S(), left);
      return worklist == [];
    }

    lemma OneMarkStep(s: State, left: nat)
      ensures s.worklist == [] ==> GcModel.MarkStep(s, left) == (s, true)
      ensures left == 0 ==> GcModel.MarkStep(s, left) == (s, s.worklist == [])
      ensures left > 0 && s.worklist != [] ==> GcModel.MarkStep(s, left) == GcModel.MarkStep(ScanOne(s), left - 1)
    {
    }

    lemma ScannedOne(s: State, t: State, o: Ref)
      requires s.worklist != [] && o == s.worklist[|s.worklist| - 1] && o in s.color && o in s.fields
      requires t == MarkAll(s.(worklist := s.worklist[..|s.worklist| - 1], color := s.color[o := Black]), s.fields[o])
      ensures t == ScanOne(s)
    {
    }

    lemma DrainStep(s: State)
      requires s.worklist != []
      ensures Drain(s) == Drain(ScanOne(s))
    {
      ScanOneShrinks(s);
    }

    lemma GrayHasFields(s: State)
      requires Inv(s) && s.phase == MARK && s.worklist != []
      ensures var o := s.worklist[|s.worklist| - 1];
        && o in s.color && o in s.fields && forall k :: k in s.fields[o] ==> k in s.color
    {
      var o := s.worklist[|s.worklist| - 1];
      assert o in s.worklist && o in Live(s);
      assert forall k :: k in Fields(s, o) ==> k in Live(s);
    }

    /** Drains the worklist, slice by slice. */
    method MarkUntilDone(budget: nat)
      requires Inv(S()) && phase == MARK && budget > 0
      modifies this`color, this`worklist
      ensures S() == Drain(old(S())) && Inv(S())
    {
      hide Inv, MarkAll, GcModel.MarkStep;
      ghost var s := S();
      var done := false;
      while !done
        invariant Inv(S()) && phase == MARK && Drain(S()) == Drain(s)
        invariant done ==> worklist == []
        decreases !done, Whites(S()), |worklist|
      {
        ghost var t := S();
        done := MarkStep(budget);
        MarkStepProgress(t, budget);
      }
    }

    /** A slice that does not drain the worklist makes progress. */
    lemma {:induction false} MarkStepProgress(s: State, budget: nat)
      ensures var (t, done) := GcModel.MarkStep(s, budget);
        Whites(t) < Whites(s) || (Whites(t) == Whites(s)
          && (|t.worklist| < |s.worklist| || t.worklist == [] || budget == 0))
      decreases budget
    {
      if budget > 0 && s.worklist != [] {
        ScanOneShrinks(s);
        MarkStepProgress(ScanOne(s), budget - 1);
      }
    }

    method MarkAllRoots()
      requires Inv(S()) && phase != SWEEP
      modifies this`color, this`worklist
      ensures S() == MarkAll(old(S()), roots)
    {
      assert forall o :: o in roots ==> o in Live(S());
      MarkEach(roots);
    }

    /** The atomic end of marking. */
    method FinishMarking(budget: nat)
      requires Inv(S()) && phase == MARK && budget > 0
      modifies this
      ensures S() == GcModel.FinishMarking(old(S())) && Inv(S()) && phase == SWEEP
    {
      hide Inv, MarkAll, Drain;
      ghost var s := S();
      FinishMarkingInv(s);
      MarkAllInv(s, s.roots);
      MarkAllRoots();
      MarkUntilDone(budget);
      sweepCursor := 0;
      sweepLive := 0;
      phase := SWEEP;
    }

    /** Sweeps up to `budget` objects from the cursor; true when done. */
    method SweepStep(budget: nat) returns (swept: bool)
      requires Inv(S()) && phase == SWEEP
      modifies this
      ensures (S(), swept) == GcModel.SweepStep(old(S()), budget)
      ensures Inv(S()) && phase == SWEEP && (swept <==> sweepCursor >= |first|)
      ensures SweepAll(S()) == SweepAll(old(S()))
      ensures !swept && budget > 0 ==> |first| - sweepCursor < old(|first| - sweepCursor)
    {
      hide Inv, SweepAll, GcModel.SweepStep;
      ghost var s := S();
      var left := budget;
      while left > 0
        invariant Inv(S()) && phase == SWEEP
        invariant GcModel.SweepStep(s, budget) == GcModel.SweepStep(S(), left)
        invariant SweepAll(S()) == SweepAll(s)
        invariant |first| - sweepCursor <= |s.first| - s.sweepPos - (budget - left)
      {
        ghost var t := S();
        OneSweepStep(t, left);
        if sweepCursor >= |first| { return true; }
        SweepOneInv(t);
        SweepAllStep(t);
        ListedHasSize(t);
        var o := first[sweepCursor];
        if color[o] != White {
          color := color[o := White];
          sweepLive := sweepLive + size[o];
          sweepCursor := sweepCursor + 1;
        } else {
          first := first[..sweepCursor] + first[sweepCursor + 1..];
          color, fields, size := color - {o}, fields - {o}, size - {o};
        }
        left := left - 1;
      }
      OneSweepStep(S(), left);
      return sweepCursor >= |first|;
    }

    lemma OneSweepStep(s: State, left: nat)
      ensures s.sweepPos >= |s.first| ==> GcModel.SweepStep(s, left) == (s, true)
      ensures left == 0 ==> GcModel.SweepStep(s, left) == (s, s.sweepPos >= |s.first|)
      ensures left > 0 && s.sweepPos < |s.first| ==>
        GcModel.SweepStep(s, left) == GcModel.SweepStep(SweepOne(s), left - 1)
    {
    }

    lemma SweepAllStep(s: State)
      requires s.sweepPos < |s.first|
      ensures SweepAll(s) == SweepAll(SweepOne(s))
    {
    }

    lemma ListedHasSize(s: State)
      requires Inv(s) && s.sweepPos < |s.first|
      ensures s.first[s.sweepPos] in s.color && s.first[s.sweepPos] in s.size
    {
      assert s.first[s.sweepPos] in s.first;
    }

    method FinishCycle()
      requires Inv(S()) && phase == SWEEP && sweepCursor >= |first|
      modifies this
      ensures S() == GcModel.FinishCycle(old(S())) && Inv(S())
    {
      hide Inv;
      FinishCycleInv(S());
      if newborn != [] {
        first := newborn + first;
        newborn := [];
      }
      phase := IDLE;
      sweepCursor := 0;
      collections := collections + 1;
    }

    /** One incremental slice. */
    method GcStep()
      requires Inv(S()) && stepBudget > 0
      modifies this
      ensures S() == GcModel.GcStep(old(S()), stepBudget) && Inv(S())
    {
      hide Inv, GcModel.MarkStep, GcModel.SweepStep, MarkAll, Drain;
      match phase
      case IDLE =>
        BeginCycleInv(S());
        StartIsMarkable(S());
        phase := MARK;
        MarkAllRoots();
      case MARK =>
        var drained := MarkStep(stepBudget);
        if drained { FinishMarking(stepBudget * 4); }
      case SWEEP =>
        var swept := SweepStep(stepBudget * 2);
        if swept { FinishCycle(); }
    }

    lemma StartIsMarkable(s: State)
      requires Inv(s) && s.phase == IDLE
      ensures Inv(s.(phase := MARK))
    {
      RecolorInv(s, s.(phase := MARK));
      assert forall o :: o in s.color ==> s.color[o] == White;
    }

    /** One full cycle in a single pause. */
    method GcCollect()
      requires Inv(S())
      modifies this
      ensures S() == GcModel.GcCollect(old(S())) && Inv(S()) && phase == IDLE
    {
      hide Inv, GcModel.MarkStep, GcModel.SweepStep, MarkAll, Drain, SweepAll;
      GcCollectInv(S());
      if phase == IDLE {
        BeginCycleInv(S());
        StartIsMarkable(S());
        phase := MARK;
        MarkAllRoots();
      }
      if phase == MARK {
        MarkUntilDone(4096);
        FinishMarking(4096);
      }
      ghost var w := S();
      var swept := false;
      while !swept
        invariant Inv(S()) && phase == SWEEP && SweepAll(S()) == SweepAll(w)
        invariant swept ==> sweepCursor >= |first|
        decreases !swept, |first| - sweepCursor
      {
        swept := SweepStep(65536);
      }
      SweepAllDone(S());
      FinishCycle();
    }

    lemma SweepAllDone(s: State)
      requires s.sweepPos >= |s.first|
      ensures SweepAll(s) == s
    {
    }

    // -------------------------------------------------------------- what the mutator does

    /** The write barrier: shades a reference that is stored while marking. */
    method Shade(o: Ref)
      requires Inv(S()) && o in color
      modifies this`color, this`worklist
      ensures S() == GcModel.Shade(old(S()), [o]) && color.Keys == old(color.Keys)
    {
      MarkOne(S(), o);
      if phase == MARK { MarkObject(o); }
    }

    lemma MarkOne(s: State, o: Ref)
      ensures MarkAll(s, [o]) == GcModel.MarkObject(s, o)
    {
      assert [o][..|[o]| - 1] == [];
      assert MarkAll(s, []) == s;
    }

    /** Stores one reference into a container that then holds `kids`. */
    method StoreRef(o: Ref, kids: seq<Ref>, v: Ref)
      requires Inv(S()) && CanStore(S(), o, kids, [v])
      modifies this
      ensures S() == Store(old(S()), o, kids, [v]) && Inv(S())
    {
      hide Inv, Reachable;
      StoreInv(S(), o, kids, [v]);
      ReachableIsAllocated(S());
      assert v in [v];
      Shade(v);
      fields := fields[o := kids];
    }

    method SetRoots(newRoots: seq<Ref>)
      requires Inv(S()) && ReachableAll(S(), newRoots)
      modifies this
      ensures S() == GcModel.SetRoots(old(S()), newRoots) && Inv(S())
    {
      SetRootsInv(S(), newRoots);
      roots := newRoots;
    }

    /** Allocates a white object; while sweeping it goes on the side list. */
    method Alloc(kids: seq<Ref>, bytes: nat) returns (o: Ref)
      requires Inv(S()) && ReachableAll(S(), kids)
      modifies this
      ensures S() == GcModel.Alloc(old(S()), kids, bytes) && Inv(S())
      ensures o == old(nextRef) && old(o !in color)
    {
      hide Inv, Reachable;
      AllocInv(S(), kids, bytes);
      AllocFresh(S());
      o := nextRef;
      nextRef := nextRef + 1;
      color, fields, size := color[o := White], fields[o := kids], size[o := bytes];
      if phase == SWEEP { newborn := [o] + newborn; } else { first := [o] + first; }
      roots := roots + [o];
    }

    lemma AllocFresh(s: State)
      requires Inv(s)
      ensures s.nextRef !in s.color
    {
    }
  }
}
