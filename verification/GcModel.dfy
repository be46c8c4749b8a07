/** The incremental tri-colour collector as transitions on heap states: marking in slices, the
 atomic finish of marking, sweeping in slices, and the mutator's steps in between.

 An object is an identity that is never given out twice; what it points to is a sequence of
 references, in the order in which it marks them. */
module GcModel {

  type Ref = nat

  datatype Color = White | Gray | Black
  datatype Phase = IDLE | MARK | SWEEP

  datatype State = State(
    first: seq<Ref>,              // all objects, from the head of the list
    newborn: seq<Ref>,            // objects born while sweeping
    color: map<Ref, Color>,
    fields: map<Ref, seq<Ref>>,
    size: map<Ref, nat>,
    roots: seq<Ref>,
    worklist: seq<Ref>,
    phase: Phase,
    sweepPos: nat,                // list entries the sweep cursor has passed
    sweepLive: nat,
    collections: nat,
    nextRef: Ref)

  // ---------------------------------------------------------------- the collector's steps

  ghost function Whites(s: State): set<Ref> { set o | o in s.color && s.color[o] == White }

  /** Greys a white object. */
  function MarkObject(s: State, o: Ref): (s': State)
    ensures Whites(s') <= Whites(s)
    ensures Whites(s') == Whites(s) ==> s' == s
  {
    if o in s.color && s.color[o] == White then
      var s' := s.(color := s.color[o := Gray], worklist := s.worklist + [o]);
      assert o in Whites(s) && o !in Whites(s');
      s'
    else s
  }

  function MarkAll(s: State, os: seq<Ref>): (s': State)
    ensures Whites(s') <= Whites(s)
    ensures Whites(s') == Whites(s) ==> s' == s
    decreases |os|
  {
    if os == [] then s else MarkObject(MarkAll(s, os[..|os| - 1]), os[|os| - 1])
  }

  function Fields(s: State, o: Ref): seq<Ref> { if o in s.fields then s.fields[o] else [] }

  /** Takes one object from the worklist, blackens it and greys what it points to. */
  function ScanOne(s: State): State
    requires s.worklist != []
  {
    var o := s.worklist[|s.worklist| - 1];
    MarkAll(s.(worklist := s.worklist[..|s.worklist| - 1],
               color := if o in s.color then s.color[o := Black] else s.color), Fields(s, o))
  }

  function MarkStep(s: State, budget: nat): (r: (State, bool))
    decreases budget
  {
    if budget == 0 then (s, s.worklist == [])
    else if s.worklist == [] then (s, true)
    else MarkStep(ScanOne(s), budget - 1)
  }

  /** Marking until the worklist is empty. */
  ghost function Drain(s: State): State
    decreases Whites(s), |s.worklist|
  {
    if s.worklist == [] then s
    else
      ScanOneShrinks(s);
      Drain(ScanOne(s))
  }

  lemma ScanOneShrinks(s: State)
    requires s.worklist != []
    ensures var s' := ScanOne(s);
      Whites(s') <= Whites(s) && (Whites(s') == Whites(s) ==> |s'.worklist| < |s.worklist|)
  {
    var o := s.worklist[|s.worklist| - 1];
    var t := s.(worklist := s.worklist[..|s.worklist| - 1],
                color := if o in s.color then s.color[o := Black] else s.color);
    assert Whites(t) <= Whites(s);
  }

  /** The atomic end of marking: the roots are not barriered, so they are scanned again. */
  ghost function FinishMarking(s: State): State {
    Drain(MarkAll(s, s.roots)).(sweepPos := 0, sweepLive := 0, phase := SWEEP)
  }

  function SweepStep(s: State, budget: nat): (r: (State, bool))
    decreases budget
  {
    if budget == 0 then (s, s.sweepPos >= |s.first|)
    else if s.sweepPos >= |s.first| then (s, true)
    else SweepStep(SweepOne(s), budget - 1)
  }

  function SweepOne(s: State): State
    requires s.sweepPos < |s.first|
  {
    var o := s.first[s.sweepPos];
    if o in s.color && s.color[o] != White then
      s.(color := s.color[o := White], sweepLive := s.sweepLive + Size(s, o), sweepPos := s.sweepPos + 1)
    else
      s.(first := s.first[..s.sweepPos] + s.first[s.sweepPos + 1..],
         color := s.color - {o}, fields := s.fields - {o}, size := s.size - {o})
  }

  function Size(s: State, o: Ref): nat { if o in s.size then s.size[o] else 0 }

  /** Sweeping until the end of the list. */
  ghost function SweepAll(s: State): State
    decreases |s.first| - s.sweepPos
  {
    if s.sweepPos >= |s.first| then s else SweepAll(SweepOne(s))
  }

  function FinishCycle(s: State): State {
    s.(first := s.newborn + s.first, newborn := [], phase := IDLE, sweepPos := 0, collections := s.collections + 1)
  }

  ghost function BeginCycle(s: State): State { MarkAll(s.(phase := MARK), s.roots) }

  ghost function GcStep(s: State, stepBudget: nat): State {
    match s.phase
    case IDLE => BeginCycle(s)
    case MARK =>
      var (t, drained) := MarkStep(s, stepBudget);
      if drained then FinishMarking(t) else t
    case SWEEP =>
      var (t, swept) := SweepStep(s, stepBudget * 2);
      if swept then FinishCycle(t) else t
  }

  ghost function GcCollect(s: State): State {
    var m := if s.phase == IDLE then BeginCycle(s) else s;
    var w := if m.phase == MARK then FinishMarking(Drain(m)) else m;
    FinishCycle(SweepAll(w))
  }

  // ---------------------------------------------------------------- the mutator's steps

  /** The write barrier. */
  function Shade(s: State, vs: seq<Ref>): State {
    if s.phase == MARK then MarkAll(s, vs) else s
  }

  /** Stores into a container: `stored` are the references written, `kids` what it holds then. */
  function Store(s: State, o: Ref, kids: seq<Ref>, stored: seq<Ref>): State {
    var t := Shade(s, stored);
    t.(fields := t.fields[o := kids])
  }

  function SetRoots(s: State, roots: seq<Ref>): State { s.(roots := roots) }

  /** A new object, white, held by the mutator; while sweeping it goes on the newborn list. */
  function Alloc(s: State, kids: seq<Ref>, size: nat): State {
    var o := s.nextRef;
    var t := s.(color := s.color[o := White], fields := s.fields[o := kids], size := s.size[o := size],
                nextRef := o + 1, roots := s.roots + [o]);
    if s.phase == SWEEP then t.(newborn := [o] + s.newborn) else t.(first := [o] + s.first)
  }

  // ---------------------------------------------------------------- reachability

  ghost predicate ReachableIn(s: State, o: Ref, n: nat)
    decreases n
  {
    if n == 0 then o in s.roots
    else exists p :: ReachableIn(s, p, n - 1) && o in Fields(s, p)
  }

  ghost predicate Reachable(s: State, o: Ref) { exists n: nat :: ReachableIn(s, o, n) }

  ghost predicate ReachableAll(s: State, os: seq<Ref>) { forall o :: o in os ==> Reachable(s, o) }

  /** `P` holds the roots and everything its members point to. */
  ghost predicate Closed(s: State, P: iset<Ref>) {
    && (forall o :: o in s.roots ==> o in P)
    && (forall p, o :: p in P && o in Fields(s, p) ==> o in P)
  }

  lemma {:induction false} ClosedHoldsReachable(s: State, P: iset<Ref>, o: Ref, n: nat)
    requires Closed(s, P) && ReachableIn(s, o, n)
    ensures o in P
    decreases n
  {
    if n > 0 {
      var p :| ReachableIn(s, p, n - 1) && o in Fields(s, p);
      ClosedHoldsReachable(s, P, p, n - 1);
    }
  }

  lemma ReachableInside(s: State, P: iset<Ref>)
    requires Closed(s, P)
    ensures forall o :: Reachable(s, o) ==> o in P
  {
    forall o | Reachable(s, o) ensures o in P {
      var n: nat :| ReachableIn(s, o, n);
      ClosedHoldsReachable(s, P, o, n);
    }
  }

  lemma ReachableRoots(s: State)
    ensures ReachableAll(s, s.roots)
  {
    forall o | o in s.roots ensures Reachable(s, o) { assert ReachableIn(s, o, 0); }
  }

  lemma ReachableFields(s: State, p: Ref)
    requires Reachable(s, p)
    ensures ReachableAll(s, Fields(s, p))
  {
    var n: nat :| ReachableIn(s, p, n);
    forall o | o in Fields(s, p) ensures Reachable(s, o) { assert ReachableIn(s, o, n + 1); }
  }

  // ---------------------------------------------------------------- the invariant

  ghost predicate Distinct(q: seq<Ref>) { forall i, j :: 0 <= i < j < |q| ==> q[i] != q[j] }

  /** The sweep has not reached it and will free it. */
  ghost predicate Doomed(s: State, o: Ref) {
    s.phase == SWEEP && s.sweepPos <= |s.first| && o in s.first[s.sweepPos..] && o in s.color && s.color[o] == White
  }

  ghost function Live(s: State): iset<Ref> { iset o | o in s.color && !Doomed(s, o) }

  ghost predicate Shape(s: State) {
    && Distinct(s.first + s.newborn)
    && (forall o :: o in s.color <==> o in s.first || o in s.newborn)
    && s.fields.Keys == s.color.Keys && s.size.Keys == s.color.Keys
    && (forall o :: o in s.color ==> o < s.nextRef)
  }

  /** The worklist is exactly the grey set. */
  ghost predicate WorklistIsGray(s: State) {
    && Distinct(s.worklist)
    && (forall o :: o in s.worklist <==> o in s.color && s.color[o] == Gray)
  }

  ghost predicate NonWhite(s: State, o: Ref) { o in s.color ==> s.color[o] != White }

  /** No black object points to a white one. */
  ghost predicate TriColor(s: State) {
    forall p, o :: p in s.color && s.color[p] == Black && o in Fields(s, p) ==> NonWhite(s, o)
  }

  ghost predicate AllWhite(s: State, q: seq<Ref>) { forall o :: o in q && o in s.color ==> s.color[o] == White }

  ghost function SumSizes(s: State, q: seq<Ref>): nat {
    if q == [] then 0 else SumSizes(s, q[..|q| - 1]) + Size(s, q[|q| - 1])
  }

  ghost predicate PhaseOk(s: State) {
    match s.phase
    case IDLE => s.newborn == [] && s.worklist == [] && AllWhite(s, s.first)
    case MARK => s.newborn == [] && WorklistIsGray(s) && TriColor(s)
    case SWEEP =>
      && s.worklist == [] && s.sweepPos <= |s.first|
      && AllWhite(s, s.first[..s.sweepPos]) && AllWhite(s, s.newborn)
      && (forall o :: o in s.color ==> s.color[o] != Gray)
      && s.sweepLive == SumSizes(s, s.first[..s.sweepPos])
  }

  /** What every step of collector and mutator keeps. */
  ghost predicate Inv(s: State) { Shape(s) && Closed(s, Live(s)) && PhaseOk(s) }

  /** Nothing the mutator can reach has been freed. */
  lemma ReachableIsAllocated(s: State)
    requires Inv(s)
    ensures forall o :: Reachable(s, o) ==> o in Live(s) && o in s.color
  {
    ReachableInside(s, Live(s));
  }

  // ---------------------------------------------------------------- marking keeps the invariant

  /** What greying does: only white objects among `os` change, all of `os` end up non-white. */
  lemma {:induction false} MarkAllEffect(s: State, os: seq<Ref>)
    requires WorklistIsGray(s)
    ensures var t := MarkAll(s, os);
      && t == s.(color := t.color, worklist := t.worklist)
      && t.color.Keys == s.color.Keys
      && WorklistIsGray(t)
      && (forall o :: o in s.color && s.color[o] != White ==> t.color[o] == s.color[o])
      && (forall o :: o in s.color && s.color[o] == White ==> t.color[o] == if o in os then Gray else White)
    decreases |os|
  {
    if os != [] {
      var before, o := os[..|os| - 1], os[|os| - 1];
      MarkAllEffect(s, before);
      MarkObjectEffect(MarkAll(s, before), o);
      assert os == before + [o];
    }
  }

  lemma MarkObjectEffect(s: State, o: Ref)
    requires WorklistIsGray(s)
    ensures var t := MarkObject(s, o);
      && t == s.(color := t.color, worklist := t.worklist)
      && t.color.Keys == s.color.Keys
      && WorklistIsGray(t)
      && (forall p :: p in s.color && (s.color[p] != White || p != o) ==> t.color[p] == s.color[p])
      && (o in s.color && s.color[o] == White ==> t.color[o] == Gray)
  {
    if o in s.color && s.color[o] == White {
      var t := MarkObject(s, o);
      assert forall p :: p in t.worklist <==> p in s.worklist || p == o;
    }
  }

  /** While not sweeping, liveness does not depend on colours. */
  lemma RecolorInv(s: State, t: State)
    requires Shape(s) && Closed(s, Live(s)) && s.phase != SWEEP
    requires t == s.(color := t.color, worklist := t.worklist, phase := t.phase) && t.color.Keys == s.color.Keys
    requires t.phase != SWEEP
    ensures Shape(t) && Closed(t, Live(t))
  {
    assert forall o :: o in t.color <==> o in s.color;
    assert Live(t) == Live(s);
    assert forall p :: Fields(t, p) == Fields(s, p);
  }

  lemma MarkAllInv(s: State, os: seq<Ref>)
    requires Inv(s) && s.phase == MARK
    ensures Inv(MarkAll(s, os)) && MarkAll(s, os).phase == MARK
  {
    hide MarkAll;
    var t := MarkAll(s, os);
    MarkAllEffect(s, os);
    RecolorInv(s, t);
    forall p, o | p in t.color && t.color[p] == Black && o in Fields(t, p) ensures NonWhite(t, o) {
      assert s.color[p] == Black && o in Fields(s, p) && NonWhite(s, o);
    }
  }

  lemma BeginCycleInv(s: State)
    requires Inv(s) && s.phase == IDLE
    ensures Inv(BeginCycle(s)) && BeginCycle(s).phase == MARK
  {
    var t := s.(phase := MARK);
    RecolorInv(s, t);
    assert forall o :: o in t.color ==> t.color[o] == White;
    assert Inv(t);
    MarkAllInv(t, s.roots);
  }

  lemma ScanOneInv(s: State)
    requires Inv(s) && s.phase == MARK && s.worklist != []
    ensures Inv(ScanOne(s)) && ScanOne(s).phase == MARK
  {
    hide MarkAll, Live, Shape, Closed, WorklistIsGray;
    var o, kids := s.worklist[|s.worklist| - 1], Fields(s, s.worklist[|s.worklist| - 1]);
    var u := s.(worklist := s.worklist[..|s.worklist| - 1], color := s.color[o := Black]);
    PopGray(s);
    MarkAllEffect(u, kids);
    var t := MarkAll(u, kids);
    RecolorInv(s, t);
    forall p, q | p in t.color && t.color[p] == Black && q in Fields(t, p) ensures NonWhite(t, q) {
      if p != o { assert s.color[p] == Black && q in Fields(s, p) && NonWhite(s, q); }
    }
  }

  lemma PopGray(s: State)
    requires WorklistIsGray(s) && s.worklist != []
    ensures var o := s.worklist[|s.worklist| - 1];
      o in s.color && WorklistIsGray(s.(worklist := s.worklist[..|s.worklist| - 1], color := s.color[o := Black]))
  {
    var o, rest := s.worklist[|s.worklist| - 1], s.worklist[..|s.worklist| - 1];
    assert o in s.worklist;
    assert s.worklist == rest + [o];
    assert forall p :: p in s.worklist <==> p in rest || p == o;
    assert o !in rest;
  }

  lemma {:induction false} MarkStepInv(s: State, budget: nat)
    requires Inv(s) && s.phase == MARK
    ensures var t := MarkStep(s, budget).0; Inv(t) && t.phase == MARK
    ensures MarkStep(s, budget).1 <==> MarkStep(s, budget).0.worklist == []
    decreases budget
  {
    hide Inv, ScanOne;
    if budget > 0 && s.worklist != [] {
      ScanOneInv(s);
      MarkStepInv(ScanOne(s), budget - 1);
    }
  }

  lemma {:induction false} DrainInv(s: State)
    requires Inv(s) && s.phase == MARK
    ensures Inv(Drain(s)) && Drain(s).phase == MARK && Drain(s).worklist == []
    ensures forall o :: o in s.color && s.color[o] != White ==> o in Drain(s).color && Drain(s).color[o] != White
    ensures Drain(s) == s.(color := Drain(s).color, worklist := [])
    decreases Whites(s), |s.worklist|
  {
    if s.worklist != [] {
      ScanOneInv(s);
      ScanOneShrinks(s);
      DrainInv(ScanOne(s));
      ScanOneKeeps(s);
    }
  }

  lemma ScanOneKeeps(s: State)
    requires Inv(s) && s.phase == MARK && s.worklist != []
    ensures var t := ScanOne(s);
      && t == s.(color := t.color, worklist := t.worklist) && t.color.Keys == s.color.Keys
      && forall o :: o in s.color && s.color[o] != White ==> t.color[o] != White
  {
    hide Live, Shape, Closed, WorklistIsGray, MarkAll;
    PopGray(s);
    var o := s.worklist[|s.worklist| - 1];
    MarkAllEffect(s.(worklist := s.worklist[..|s.worklist| - 1], color := s.color[o := Black]), Fields(s, o));
  }

  /** After the root rescan and the last drain, everything reachable is black. */
  lemma MarkedAll(s: State)
    requires Inv(s) && s.phase == MARK
    ensures var t := Drain(MarkAll(s, s.roots));
      && Inv(t) && t.phase == MARK && t.worklist == []
      && t == s.(color := t.color, worklist := [])
      && (forall o :: o in t.color ==> t.color[o] != Gray)
      && forall o :: Reachable(t, o) ==> o in t.color && t.color[o] == Black
  {
    hide Drain, MarkAll, Reachable, Shape, Distinct;
    var u := MarkAll(s, s.roots);
    MarkAllInv(s, s.roots);
    MarkAllEffect(s, s.roots);
    DrainInv(u);
    var t := Drain(u);
    NoneGray(t);
    BlackIsClosed(s, u, t);
    ReachableInside(t, Blacks(t));
  }

  ghost function Blacks(s: State): iset<Ref> { iset o | o in s.color && s.color[o] == Black }

  lemma NoneGray(t: State)
    requires WorklistIsGray(t) && t.worklist == []
    ensures forall o :: o in t.color ==> t.color[o] != Gray
  {
    forall o | o in t.color ensures t.color[o] != Gray { assert o !in t.worklist; }
  }

  lemma BlackIsClosed(s: State, u: State, t: State)
    requires Closed(s, Live(s)) && Closed(t, Live(t)) && TriColor(t) && t.phase == MARK
    requires u.color.Keys == s.color.Keys && t == s.(color := t.color, worklist := [])
    requires forall o :: o in s.roots && o in u.color ==> u.color[o] != White
    requires forall o :: o in u.color && u.color[o] != White ==> o in t.color && t.color[o] != White
    requires forall o :: o in t.color ==> t.color[o] != Gray
    ensures Closed(t, Blacks(t))
  {
    var blacks := Blacks(t);
    forall o | o in t.roots ensures o in blacks { assert o in Live(s); }
    forall p, o | p in blacks && o in Fields(t, p) ensures o in blacks {
      assert NonWhite(t, o) && p in Live(t) && o in Live(t);
    }
  }
}
