/** Programs of the regex engine run on decisions.

 `Exec` runs a program on a list of decisions, one for each SPLIT it meets.  Compiled code is proved
 to do what its tree does (`EmitRuns`), so that finding the accepting list that comes first in
 priority is finding the preferred match of the tree. */
module RegexMachine {
  import opened RegexMeaning
  import opened RegexCompile

  // ---------------------------------------------------------------- programs that can run

  /** Control never leaves the program, and only a jump to a SPLIT goes backwards. */
  ghost predicate Runnable(code: seq<Inst>, classes: seq<CharClass>) {
    forall pc: nat :: pc < |code| ==> RunnableAt(code, classes, pc)
  }

  ghost predicate RunnableAt(code: seq<Inst>, classes: seq<CharClass>, pc: nat)
    requires pc < |code|
  {
    match code[pc]
    case MATCH => true
    case SPLIT(x, y) => x < |code| && y < |code|
    case JMP(x) => x < |code| && (x > pc || code[x].SPLIT?)
    case CLASS(k) => pc + 1 < |code| && k < |classes|
    case SAVE(slot) => pc + 1 < |code| && slot < CAP_SLOTS
    case _ => pc + 1 < |code|
  }

  lemma CanRun(code: seq<Inst>, classes: seq<CharClass>, pc: nat)
    requires Runnable(code, classes) && pc < |code|
    ensures RunnableAt(code, classes, pc)
  {
  }

  /** Falls at every instruction that costs no step. */
  ghost function Rank(code: seq<Inst>, pc: nat): nat
    requires pc < |code|
  {
    if code[pc].SPLIT? then 0 else |code| - pc
  }

  // ---------------------------------------------------------------- running on decisions

  datatype Verdict = Fails | Accepts(caps: Caps)

  ghost function Exec(code: seq<Inst>, classes: seq<CharClass>, text: string, pc: nat, sp: nat, caps: Caps,
                      ds: seq<bool>): Verdict
    requires Runnable(code, classes) && pc < |code|
    decreases |ds|, Rank(code, pc)
  {
    assert RunnableAt(code, classes, pc);
    match code[pc]
    case CHAR(c) => if sp < |text| && text[sp] == c then Exec(code, classes, text, pc + 1, sp + 1, caps, ds) else Fails
    case ANY =>
      if sp < |text| && text[sp] != '\n' && sp + Utf8CharLen(text[sp]) <= |text|
      then Exec(code, classes, text, pc + 1, sp + Utf8CharLen(text[sp]), caps, ds) else Fails
    case CLASS(k) =>
      if sp < |text| && ClassHas(classes[k], text[sp])
      then Exec(code, classes, text, pc + 1, sp + 1, caps, ds) else Fails
    case SPLIT(x, y) =>
      if ds == [] then Fails
      else Exec(code, classes, text, if ds[0] then x else y, sp, caps, ds[1..])
    case JMP(x) => Exec(code, classes, text, x, sp, caps, ds)
    case SAVE(slot) => Exec(code, classes, text, pc + 1, sp, caps[slot := sp], ds)
    case BOL => if sp == 0 then Exec(code, classes, text, pc + 1, sp, caps, ds) else Fails
    case EOL => if sp == |text| then Exec(code, classes, text, pc + 1, sp, caps, ds) else Fails
    case MATCH => if ds == [] then Accepts(caps) else Fails
  }

  /** `a` takes the first branch where `b` first differs from it by taking the second. */
  ghost predicate Before(a: seq<bool>, b: seq<bool>) {
    exists k: nat :: k < |a| && k < |b| && a[..k] == b[..k] && a[k] && !b[k]
  }

  lemma BeforeBehind(pre: seq<bool>, a: seq<bool>, b: seq<bool>)
    requires Before(a, b)
    ensures Before(pre + a, pre + b)
  {
    var k: nat :| k < |a| && k < |b| && a[..k] == b[..k] && a[k] && !b[k];
    var n := |pre| + k;
    assert (pre + a)[..n] == pre + a[..k] && (pre + b)[..n] == pre + b[..k];
    assert (pre + a)[n] == a[k] && (pre + b)[n] == b[k];
  }

  /** Priority is a strict order. */
  lemma BeforeIsAsymmetric(a: seq<bool>, b: seq<bool>)
    requires Before(a, b)
    ensures !Before(b, a) && a != b
  {
    var k: nat :| k < |a| && k < |b| && a[..k] == b[..k] && a[k] && !b[k];
    forall n: nat | n < k ensures a[n] == b[n] { assert a[..k][n] == b[..k][n]; }
    forall n: nat | k < n <= |a| && n <= |b| ensures a[..n] != b[..n] { assert a[..n][k] != b[..n][k]; }
  }

  // ---------------------------------------------------------------- compiled code does what the tree means

  ghost predicate Placed(code: seq<Inst>, base: nat, piece: seq<Inst>)
    ensures Placed(code, base, piece) ==> base + |piece| < |code|
  {
    base + |piece| < |code| && code[base..base + |piece|] == piece
  }

  lemma PlacedPart(code: seq<Inst>, base: nat, piece: seq<Inst>, off: nat, part: seq<Inst>)
    requires Placed(code, base, piece)
    requires off + |part| <= |piece| && piece[off..off + |part|] == part
    ensures Placed(code, base + off, part)
  {
    var p := base + off;
    forall k | 0 <= k < |part| ensures code[p..p + |part|][k] == part[k] {
      assert code[p + k] == code[base..base + |piece|][off + k] == piece[off..off + |part|][k];
    }
  }

  lemma PlacedAt(code: seq<Inst>, base: nat, piece: seq<Inst>, k: nat)
    requires Placed(code, base, piece) && k < |piece|
    ensures code[base + k] == piece[k]
  {
    assert code[base + k] == code[base..base + |piece|][k];
  }

  /** What follows a piece of code whose outcome is `o`. */
  ghost function Then(code: seq<Inst>, classes: seq<CharClass>, text: string, pc: nat, o: Outcome): Verdict
    requires Runnable(code, classes) && pc < |code|
  {
    match o
    case NoMatch => Fails
    case Ok(sp, caps, ds) => Exec(code, classes, text, pc, sp, caps, ds)
  }

  ghost predicate Ready(re: Re, base: nat, code: seq<Inst>, classes: seq<CharClass>)
    ensures Ready(re, base, code, classes) ==> Runnable(code, classes) && WellFormed(re, MAX_GROUPS)
  {
    && Runnable(code, classes)
    && WellFormed(re, MAX_GROUPS) && ClassesIn(re, classes)
    && Placed(code, base, Emit(re, base))
  }

  /** The code of a tree, wherever it stands in a program, does what the tree does and goes on
      behind it. */
  lemma {:induction false} EmitRuns(re: Re, base: nat, code: seq<Inst>, classes: seq<CharClass>, text: string,
                                    sp: nat, caps: Caps, ds: seq<bool>)
    requires Ready(re, base, code, classes)
    ensures Exec(code, classes, text, base, sp, caps, ds)
            == Then(code, classes, text, base + |Emit(re, base)|, Interp(re, text, sp, caps, ds))
    decreases |ds|, re, 3, 0
  {
    match re
    case Empty =>
    case Cat(_, _) => CatRuns(re, base, code, classes, text, sp, caps, ds);
    case Alt(_, _) => AltRuns(re, base, code, classes, text, sp, caps, ds);
    case Group(_, _) => GroupRuns(re, base, code, classes, text, sp, caps, ds);
    case Rep(_, _, _, _) => RepRuns(re, base, code, classes, text, sp, caps, ds);
    case _ => LeafRuns(re, base, code, classes, text, sp, caps, ds);
  }

  lemma LeafRuns(re: Re, base: nat, code: seq<Inst>, classes: seq<CharClass>, text: string,
                 sp: nat, caps: Caps, ds: seq<bool>)
    requires Ready(re, base, code, classes)
    requires re.Chr? || re.Any? || re.Cls? || re.Bol? || re.Eol?
    ensures Exec(code, classes, text, base, sp, caps, ds)
            == Then(code, classes, text, base + |Emit(re, base)|, Interp(re, text, sp, caps, ds))
  {
    PlacedAt(code, base, Emit(re, base), 0);
  }

  lemma {:induction false} CatRuns(re: Re, base: nat, code: seq<Inst>, classes: seq<CharClass>, text: string,
                                   sp: nat, caps: Caps, ds: seq<bool>)
    requires re.Cat? && Ready(re, base, code, classes)
    ensures Exec(code, classes, text, base, sp, caps, ds)
            == Then(code, classes, text, base + |Emit(re, base)|, Interp(re, text, sp, caps, ds))
    decreases |ds|, re, 2, 0
  {
    hide Emit, Interp, WellFormed, ClassesIn, Ready, Runnable, Placed, Exec;
    CatReady(re, base, code, classes);
    InterpCat(re, text, sp, caps, ds);
    var mid := base + |Emit(re.first, base)|;
    EmitRuns(re.first, base, code, classes, text, sp, caps, ds);
    var o := Interp(re.first, text, sp, caps, ds);
    if o.Ok? { EmitRuns(re.second, mid, code, classes, text, o.sp, o.caps, o.ds); }
  }

  lemma InterpCat(re: Re, text: string, sp: nat, caps: Caps, ds: seq<bool>)
    requires re.Cat? && WellFormed(re, MAX_GROUPS)
    ensures var o := Interp(re.first, text, sp, caps, ds);
      Interp(re, text, sp, caps, ds) == if o.NoMatch? then NoMatch else Interp(re.second, text, o.sp, o.caps, o.ds)
  {
  }

  lemma CatReady(re: Re, base: nat, code: seq<Inst>, classes: seq<CharClass>)
    requires re.Cat? && Ready(re, base, code, classes)
    ensures var x := Emit(re.first, base); var y := Emit(re.second, base + |x|);
      && |Emit(re, base)| == |x| + |y|
      && Ready(re.first, base, code, classes) && Ready(re.second, base + |x|, code, classes)
  {
    var x := Emit(re.first, base);
    var y := Emit(re.second, base + |x|);
    assert Emit(re, base) == x + y;
    hide Emit, Placed;
    PlacedPart(code, base, x + y, 0, x);
    PlacedPart(code, base, x + y, |x|, y);
  }

  lemma {:induction false} AltRuns(re: Re, base: nat, code: seq<Inst>, classes: seq<CharClass>, text: string,
                                   sp: nat, caps: Caps, ds: seq<bool>)
    requires re.Alt? && Ready(re, base, code, classes)
    ensures Exec(code, classes, text, base, sp, caps, ds)
            == Then(code, classes, text, base + |Emit(re, base)|, Interp(re, text, sp, caps, ds))
    decreases |ds|, re, 2, 0
  {
    hide Emit, Interp, WellFormed, ClassesIn, Ready, Placed;
    AltReady(re, base, code, classes);
    InterpAlt(re, text, sp, caps, ds);
    var x := Emit(re.left, base + 1);
    if ds != [] {
      if ds[0] {
        EmitRuns(re.left, base + 1, code, classes, text, sp, caps, ds[1..]);
      } else {
        EmitRuns(re.right, base + |x| + 2, code, classes, text, sp, caps, ds[1..]);
      }
    }
  }

  lemma InterpAlt(re: Re, text: string, sp: nat, caps: Caps, ds: seq<bool>)
    requires re.Alt? && WellFormed(re, MAX_GROUPS)
    ensures Interp(re, text, sp, caps, ds)
      == if ds == [] then NoMatch else Interp(if ds[0] then re.left else re.right, text, sp, caps, ds[1..])
  {
  }

  lemma AltReady(re: Re, base: nat, code: seq<Inst>, classes: seq<CharClass>)
    requires re.Alt? && Ready(re, base, code, classes)
    ensures var x := Emit(re.left, base + 1); var l2 := base + |x| + 2; var y := Emit(re.right, l2);
      && |Emit(re, base)| == |x| + |y| + 2 && l2 + |y| < |code|
      && code[base] == SPLIT(base + 1, l2) && code[l2 - 1] == JMP(l2 + |y|)
      && Ready(re.left, base + 1, code, classes) && Ready(re.right, l2, code, classes)
  {
    hide Emit, Placed, AltCode, Runnable, Ready, WellFormed, ClassesIn;
    AltPieces(re, base, code, classes);
    var x := Emit(re.left, base + 1);
    var y := Emit(re.right, base + |x| + 2);
    var all := AltCode(x, y, base);
    AltCodeAt(x, y, base);
    PlacedAt(code, base, all, 0);
    PlacedAt(code, base, all, |x| + 1);
    PlacedPart(code, base, all, 1, x);
    PlacedPart(code, base, all, |x| + 2, y);
    MakeReady(re.left, base + 1, code, classes);
    MakeReady(re.right, base + |x| + 2, code, classes);
  }

  lemma MakeReady(re: Re, base: nat, code: seq<Inst>, classes: seq<CharClass>)
    requires Runnable(code, classes) && WellFormed(re, MAX_GROUPS) && ClassesIn(re, classes)
    requires Placed(code, base, Emit(re, base))
    ensures Ready(re, base, code, classes)
  {
  }

  lemma AltPieces(re: Re, base: nat, code: seq<Inst>, classes: seq<CharClass>)
    requires re.Alt? && Ready(re, base, code, classes)
    ensures var x := Emit(re.left, base + 1); var y := Emit(re.right, base + |x| + 2);
      && Emit(re, base) == AltCode(x, y, base) && Placed(code, base, AltCode(x, y, base))
      && WellFormed(re.left, MAX_GROUPS) && ClassesIn(re.left, classes)
      && WellFormed(re.right, MAX_GROUPS) && ClassesIn(re.right, classes)
  {
    EmitAlt(re, base);
  }

  lemma AltCodeAt(x: seq<Inst>, y: seq<Inst>, base: nat)
    ensures var all := AltCode(x, y, base); var l2 := base + |x| + 2;
      && all[0] == SPLIT(base + 1, l2) && all[1 + |x|] == JMP(l2 + |y|)
      && all[1..1 + |x|] == x && all[|x| + 2..|x| + 2 + |y|] == y
  {
  }

  lemma {:induction false} GroupRuns(re: Re, base: nat, code: seq<Inst>, classes: seq<CharClass>, text: string,
                                     sp: nat, caps: Caps, ds: seq<bool>)
    requires re.Group? && Ready(re, base, code, classes)
    ensures Exec(code, classes, text, base, sp, caps, ds)
            == Then(code, classes, text, base + |Emit(re, base)|, Interp(re, text, sp, caps, ds))
    decreases |ds|, re, 2, 0
  {
    hide Emit, Interp, WellFormed, ClassesIn, Ready, Placed;
    GroupReady(re, base, code, classes);
    InterpGroup(re, text, sp, caps, ds);
    EmitRuns(re.body, base + 1, code, classes, text, sp, caps[2 * re.n := sp], ds);
  }

  lemma InterpGroup(re: Re, text: string, sp: nat, caps: Caps, ds: seq<bool>)
    requires re.Group? && WellFormed(re, MAX_GROUPS)
    ensures var o := Interp(re.body, text, sp, caps[2 * re.n := sp], ds);
      Interp(re, text, sp, caps, ds) == if o.NoMatch? then NoMatch else Ok(o.sp, o.caps[2 * re.n + 1 := o.sp], o.ds)
  {
  }

  lemma GroupReady(re: Re, base: nat, code: seq<Inst>, classes: seq<CharClass>)
    requires re.Group? && Ready(re, base, code, classes)
    ensures var x := Emit(re.body, base + 1);
      && re.n < MAX_GROUPS
      && |Emit(re, base)| == |x| + 2 && base + |x| + 2 < |code|
      && code[base] == SAVE(2 * re.n) && code[base + |x| + 1] == SAVE(2 * re.n + 1)
      && Ready(re.body, base + 1, code, classes)
  {
    var x := Emit(re.body, base + 1);
    var all := GroupCode(re.n, x);
    assert Emit(re, base) == all;
    assert base + |all| < |code|;
    hide Emit, Placed;
    PlacedAt(code, base, all, 0);
    PlacedAt(code, base, all, |x| + 1);
    PlacedPart(code, base, all, 1, x);
  }

  lemma {:induction false} RepRuns(re: Re, base: nat, code: seq<Inst>, classes: seq<CharClass>, text: string,
                                   sp: nat, caps: Caps, ds: seq<bool>)
    requires re.Rep? && Ready(re, base, code, classes)
    ensures Exec(code, classes, text, base, sp, caps, ds)
            == Then(code, classes, text, base + |Emit(re, base)|, Interp(re, text, sp, caps, ds))
    decreases |ds|, re, 2, 0
  {
    hide Emit, Interp, WellFormed, ClassesIn, Ready, Placed, Exec, Copies, Tail, MoveAll, More, Times, Runnable;
    RepReady(re, base, code, classes);
    InterpRep(re, text, sp, caps, ds);
    var at := base + Scale(re.lo, |Emit(re.body, base)|);
    CopiesRun(re.body, re.lo, 0, base, code, classes, text, sp, caps, ds);
    var o := Times(re.body, re.lo, text, sp, caps, ds);
    if o.Ok? { TailRuns(re.body, re.extra, re.lazy, at, code, classes, text, o.sp, o.caps, o.ds); }
  }

  lemma InterpRep(re: Re, text: string, sp: nat, caps: Caps, ds: seq<bool>)
    requires re.Rep? && WellFormed(re, MAX_GROUPS)
    ensures var o := Times(re.body, re.lo, text, sp, caps, ds);
      Interp(re, text, sp, caps, ds)
      == if o.NoMatch? then NoMatch else More(re.body, re.extra, re.lazy, text, o.sp, o.caps, o.ds)
  {
  }

  lemma RepReady(re: Re, base: nat, code: seq<Inst>, classes: seq<CharClass>)
    requires re.Rep? && Ready(re, base, code, classes)
    ensures var body := Emit(re.body, base); var at := base + Scale(re.lo, |body|);
      var tail := Tail(Emit(re.body, at), re.extra, re.lazy, at);
      && |Emit(re, base)| == Scale(re.lo, |body|) + |tail|
      && WellFormed(re.body, MAX_GROUPS) && ClassesIn(re.body, classes)
      && Placed(code, base, Copies(body, re.lo)) && Placed(code, at, tail)
  {
    var body := Emit(re.body, base);
    var done := Scale(re.lo, |body|);
    var at := base + done;
    EmitMoves(re.body, base, done);
    var head, tail := Copies(body, re.lo), Tail(Emit(re.body, at), re.extra, re.lazy, at);
    assert Emit(re, base) == RepCode(body, re.lo, re.extra, re.lazy, base);
    hide Emit, Placed, Tail, Copies;
    assert RepCode(body, re.lo, re.extra, re.lazy, base) == head + tail && |head| == done;
    PlacedPart(code, base, head + tail, 0, head);
    PlacedPart(code, base, head + tail, done, tail);
  }

  lemma {:induction false} TailRuns(b: Re, extra: Limit, lazy: bool, at: nat, code: seq<Inst>, classes: seq<CharClass>,
                                    text: string, sp: nat, caps: Caps, ds: seq<bool>)
    requires Runnable(code, classes) && WellFormed(b, MAX_GROUPS) && ClassesIn(b, classes)
    requires Placed(code, at, Tail(Emit(b, at), extra, lazy, at))
    ensures var tail := Tail(Emit(b, at), extra, lazy, at);
      Exec(code, classes, text, at, sp, caps, ds)
      == Then(code, classes, text, at + |tail|, More(b, extra, lazy, text, sp, caps, ds))
    decreases |ds|, b, 5, 0
  {
    hide Emit, Placed, Exec, MoveAll, More, Optional, WellFormed, ClassesIn;
    match extra
    case Unbounded => StarRuns(b, lazy, at, code, classes, text, sp, caps, ds);
    case AtMost(k) => OptionalRuns(b, lazy, k, 0, at, code, classes, text, sp, caps, ds);
  }

  /** From the `j`-th of `k` mandatory copies on. */
  lemma {:induction false} CopiesRun(b: Re, k: nat, j: nat, base: nat, code: seq<Inst>, classes: seq<CharClass>,
                                     text: string, sp: nat, caps: Caps, ds: seq<bool>)
    requires j <= k && Runnable(code, classes) && WellFormed(b, MAX_GROUPS) && ClassesIn(b, classes)
    requires Placed(code, base, Copies(Emit(b, base), k))
    requires base + Scale(j, |Emit(b, base)|) < |code|
    ensures var len := |Emit(b, base)|;
      Exec(code, classes, text, base + Scale(j, len), sp, caps, ds)
      == Then(code, classes, text, base + Scale(k, len), Times(b, k - j, text, sp, caps, ds))
    decreases |ds|, b, 4, k - j
  {
    hide Emit, Exec, MoveAll, Interp, Placed, WellFormed, ClassesIn, Copies, Runnable;
    if j < k {
      var body := Emit(b, base);
      var off := Scale(j, |body|);
      CopiesAt(body, k, j);
      EmitMoves(b, base, off);
      PlacedPart(code, base, Copies(body, k), off, Emit(b, base + off));
      EmitRuns(b, base + off, code, classes, text, sp, caps, ds);
      var o := Interp(b, text, sp, caps, ds);
      if o.Ok? { CopiesRun(b, k, j + 1, base, code, classes, text, o.sp, o.caps, o.ds); }
    }
  }

  lemma {:induction false} StarRuns(b: Re, lazy: bool, at: nat, code: seq<Inst>, classes: seq<CharClass>,
                                    text: string, sp: nat, caps: Caps, ds: seq<bool>)
    requires Runnable(code, classes) && WellFormed(b, MAX_GROUPS) && ClassesIn(b, classes)
    requires Placed(code, at, StarCode(lazy, MoveAll(Emit(b, at), 1), at))
    ensures Exec(code, classes, text, at, sp, caps, ds)
      == Then(code, classes, text, at + |Emit(b, at)| + 2, More(b, Unbounded, lazy, text, sp, caps, ds))
    decreases |ds|, b, 4, 0
  {
    hide Emit, Interp, Placed, WellFormed, ClassesIn, StarCode, MoveAll, Ready;
    StarReady(b, lazy, at, code, classes);
    if ds != [] && ds[0] != lazy {
      EmitRuns(b, at + 1, code, classes, text, sp, caps, ds[1..]);
      var o := Interp(b, text, sp, caps, ds[1..]);
      if o.Ok? { StarRuns(b, lazy, at, code, classes, text, o.sp, o.caps, o.ds); }
    }
  }

  lemma StarReady(b: Re, lazy: bool, at: nat, code: seq<Inst>, classes: seq<CharClass>)
    requires Runnable(code, classes) && WellFormed(b, MAX_GROUPS) && ClassesIn(b, classes)
    requires Placed(code, at, StarCode(lazy, MoveAll(Emit(b, at), 1), at))
    ensures var len := |Emit(b, at)|;
      && at + len + 2 < |code|
      && code[at] == Branch(lazy, at + 1, at + 2 + len) && code[at + len + 1] == JMP(at)
      && |Emit(b, at + 1)| == len && Ready(b, at + 1, code, classes)
  {
    hide Emit, MoveAll, Placed, WellFormed, ClassesIn, Runnable, Branch;
    EmitMoves(b, at, 1);
    var x := Emit(b, at + 1);
    var all := StarCode(lazy, x, at);
    PlacedAt(code, at, all, 0);
    PlacedAt(code, at, all, |x| + 1);
    PlacedPart(code, at, all, 1, x);
  }

  /** From the `j`-th of `k` optional copies on. */
  lemma {:induction false} OptionalRuns(b: Re, lazy: bool, k: nat, j: nat, at: nat, code: seq<Inst>,
                                        classes: seq<CharClass>, text: string, sp: nat, caps: Caps, ds: seq<bool>)
    requires j <= k && Runnable(code, classes) && WellFormed(b, MAX_GROUPS) && ClassesIn(b, classes)
    requires var body := Emit(b, at); Placed(code, at, Optional(lazy, body, k, at, at + Scale(k, |body| + 1)))
    requires at + Scale(j, |Emit(b, at)| + 1) < |code|
    ensures var step := |Emit(b, at)| + 1;
      Exec(code, classes, text, at + Scale(j, step), sp, caps, ds)
      == Then(code, classes, text, at + Scale(k, step), More(b, AtMost(k - j), lazy, text, sp, caps, ds))
    decreases |ds|, b, 4, k - j
  {
    hide Emit, Interp, Placed, WellFormed, ClassesIn, Optional, Ready;
    if j < k {
      OptionalReady(b, lazy, k, j, at, code, classes);
      if ds != [] && ds[0] != lazy {
        EmitRuns(b, at + Scale(j, |Emit(b, at)| + 1) + 1, code, classes, text, sp, caps, ds[1..]);
        var o := Interp(b, text, sp, caps, ds[1..]);
        if o.Ok? { OptionalRuns(b, lazy, k, j + 1, at, code, classes, text, o.sp, o.caps, o.ds); }
      }
    }
  }

  lemma OptionalReady(b: Re, lazy: bool, k: nat, j: nat, at: nat, code: seq<Inst>, classes: seq<CharClass>)
    requires j < k && Runnable(code, classes) && WellFormed(b, MAX_GROUPS) && ClassesIn(b, classes)
    requires var body := Emit(b, at); Placed(code, at, Optional(lazy, body, k, at, at + Scale(k, |body| + 1)))
    ensures var len := |Emit(b, at)|; var here := at + Scale(j, len + 1);
      && here + 1 + len < |code|
      && code[here] == Branch(lazy, here + 1, at + Scale(k, len + 1))
      && |Emit(b, here + 1)| == len && Ready(b, here + 1, code, classes)
  {
    hide Emit, MoveAll, Placed, WellFormed, ClassesIn, Optional, Runnable, Branch;
    var body := Emit(b, at);
    var end := at + Scale(k, |body| + 1);
    var off := Scale(j, |body| + 1);
    var all := Optional(lazy, body, k, at, end);
    OptionalAt(lazy, body, k, at, end, j);
    PlacedAt(code, at, all, off);
    EmitMoves(b, at, off + 1);
    assert at + (off + 1) == at + off + 1;
    PlacedPart(code, at, all, off + 1, Emit(b, at + off + 1));
  }

  // ---------------------------------------------------------------- whole programs

  lemma ProgramRunnable(re: Re, classes: seq<CharClass>)
    requires WellFormed(re, MAX_GROUPS) && ClassesIn(re, classes)
    ensures Runnable(Program(re), classes)
  {
    hide WellFormed, ClassesIn, Emit;
    var x := Emit(re, 1);
    var code := Program(re);
    EmitClosed(re, 1, classes);
    forall pc: nat | pc < |code| ensures RunnableAt(code, classes, pc) {
      if 1 <= pc <= |x| {
        assert ClosedAt(x, 1, 1 + |x|, pc - 1, |classes|) && code[pc] == x[pc - 1];
        if code[pc].JMP? && code[pc].target <= pc { assert code[code[pc].target] == x[code[pc].target - 1]; }
      }
    }
  }

  /** The captures of a whole match: slots 0 and 1 hold its two ends. */
  ghost function Whole(o: Outcome): Verdict {
    if o.Ok? && o.ds == [] then Accepts(o.caps[1 := o.sp]) else Fails
  }

  ghost function Start(from: nat): Caps { NoCaps()[0 := from] }

  lemma ProgramRuns(re: Re, classes: seq<CharClass>, text: string, from: nat, ds: seq<bool>)
    requires WellFormed(re, MAX_GROUPS) && ClassesIn(re, classes)
    requires Runnable(Program(re), classes)
    ensures Exec(Program(re), classes, text, 0, from, NoCaps(), ds) == Whole(Interp(re, text, from, Start(from), ds))
  {
    hide WellFormed, ClassesIn, Emit, Interp;
    var x, code := Emit(re, 1), Program(re);
    assert code[1..1 + |x|] == x;
    EmitRuns(re, 1, code, classes, text, from, Start(from), ds);
    var o := Interp(re, text, from, Start(from), ds);
    if o.Ok? {
      assert code[1 + |x|] == SAVE(1) && code[2 + |x|] == MATCH;
      SaveThenMatch(code, classes, text, 1 + |x|, o.sp, o.caps, o.ds);
    }
  }

  lemma SaveThenMatch(code: seq<Inst>, classes: seq<CharClass>, text: string, pc: nat, sp: nat, caps: Caps,
                      ds: seq<bool>)
    requires Runnable(code, classes) && pc + 1 < |code| && code[pc] == SAVE(1) && code[pc + 1] == MATCH
    ensures Exec(code, classes, text, pc, sp, caps, ds) == if ds == [] then Accepts(caps[1 := sp]) else Fails
  {
  }

  // ---------------------------------------------------------------- what the search finds

  /** No decisions lead to a match from here. */
  ghost predicate Dead(code: seq<Inst>, classes: seq<CharClass>, text: string, pc: nat, sp: nat, caps: Caps)
    requires Runnable(code, classes) && pc < |code|
  {
    forall ds :: Exec(code, classes, text, pc, sp, caps, ds) == Fails
  }

  /** `ds` leads to a match from here, and every other way to match has lower priority. */
  ghost predicate First(code: seq<Inst>, classes: seq<CharClass>, text: string, pc: nat, sp: nat, caps: Caps,
                        ds: seq<bool>, after: Caps)
    requires Runnable(code, classes) && pc < |code|
  {
    && Exec(code, classes, text, pc, sp, caps, ds) == Accepts(after)
    && forall d :: Exec(code, classes, text, pc, sp, caps, d).Accepts? ==> d == ds || Before(ds, d)
  }

  /** From (pc, sp), only decisions starting with `pre` can match, and then the run is at (pc', sp'). */
  ghost predicate Leads(code: seq<Inst>, classes: seq<CharClass>, text: string, caps: Caps,
                        pc: nat, sp: nat, pre: seq<bool>, pc': nat, sp': nat)
    requires Runnable(code, classes) && pc < |code| && pc' < |code|
  {
    && (forall d :: Exec(code, classes, text, pc, sp, caps, pre + d) == Exec(code, classes, text, pc', sp', caps, d))
    && (forall d :: Exec(code, classes, text, pc, sp, caps, d).Accepts? ==> pre <= d)
  }

  lemma LeadsDead(code: seq<Inst>, classes: seq<CharClass>, text: string, caps: Caps,
                  pc: nat, sp: nat, pre: seq<bool>, pc': nat, sp': nat)
    requires Runnable(code, classes) && pc < |code| && pc' < |code|
    requires Leads(code, classes, text, caps, pc, sp, pre, pc', sp')
    requires Dead(code, classes, text, pc', sp', caps)
    ensures Dead(code, classes, text, pc, sp, caps)
  {
    hide Exec;
    forall d ensures Exec(code, classes, text, pc, sp, caps, d) == Fails {
      if Exec(code, classes, text, pc, sp, caps, d).Accepts? {
        assert d == pre + d[|pre|..];
      }
    }
  }

  lemma LeadsFirst(code: seq<Inst>, classes: seq<CharClass>, text: string, caps: Caps,
                   pc: nat, sp: nat, pre: seq<bool>, pc': nat, sp': nat, ds: seq<bool>, after: Caps)
    requires Runnable(code, classes) && pc < |code| && pc' < |code|
    requires Leads(code, classes, text, caps, pc, sp, pre, pc', sp')
    requires First(code, classes, text, pc', sp', caps, ds, after)
    ensures First(code, classes, text, pc, sp, caps, pre + ds, after)
  {
    hide Exec, Before;
    forall d | Exec(code, classes, text, pc, sp, caps, d).Accepts? ensures d == pre + ds || Before(pre + ds, d) {
      var rest := d[|pre|..];
      assert d == pre + rest;
      if rest != ds { BeforeBehind(pre, ds, rest); }
    }
  }

  /** One instruction without a choice. */
  lemma LeadsOn(code: seq<Inst>, classes: seq<CharClass>, text: string, caps: Caps,
                pc: nat, sp: nat, pre: seq<bool>, pc': nat, sp': nat, pc'': nat, sp'': nat)
    requires Runnable(code, classes) && pc < |code| && pc' < |code| && pc'' < |code|
    requires Leads(code, classes, text, caps, pc, sp, pre, pc', sp')
    requires forall d :: Exec(code, classes, text, pc', sp', caps, d) == Exec(code, classes, text, pc'', sp'', caps, d)
    ensures Leads(code, classes, text, caps, pc, sp, pre, pc'', sp'')
  {
    hide Exec;
  }

  /** A SPLIT whose first branch is dead. */
  lemma LeadsSecond(code: seq<Inst>, classes: seq<CharClass>, text: string, caps: Caps,
                    pc: nat, sp: nat, pre: seq<bool>, pc': nat, sp': nat)
    requires Runnable(code, classes) && pc < |code| && pc' < |code| && code[pc'].SPLIT?
    requires code[pc'].x < |code| && code[pc'].y < |code|
    requires Leads(code, classes, text, caps, pc, sp, pre, pc', sp')
    requires Dead(code, classes, text, code[pc'].x, sp', caps)
    ensures Leads(code, classes, text, caps, pc, sp, pre + [false], code[pc'].y, sp')
  {
    SplitExec(code, classes, text, caps, pc', sp');
    hide Exec;
    var y := code[pc'].y;
    forall d ensures Exec(code, classes, text, pc, sp, caps, (pre + [false]) + d)
         == Exec(code, classes, text, y, sp', caps, d) {
      assert (pre + [false]) + d == pre + ([false] + d);
    }
    forall d | Exec(code, classes, text, pc, sp, caps, d).Accepts? ensures pre + [false] <= d {
      var rest := d[|pre|..];
      assert d == pre + rest;
      assert rest != [] ==> rest == [rest[0]] + rest[1..];
      assert rest == [false] + rest[1..];
    }
  }

  /** A SPLIT tries `x` on true and `y` on false, and needs a decision. */
  lemma SplitExec(code: seq<Inst>, classes: seq<CharClass>, text: string, caps: Caps, pc: nat, sp: nat)
    requires Runnable(code, classes) && pc < |code| && code[pc].SPLIT?
    ensures code[pc].x < |code| && code[pc].y < |code|
    ensures Exec(code, classes, text, pc, sp, caps, []) == Fails
    ensures forall d ::
      Exec(code, classes, text, pc, sp, caps, [true] + d)
      == Exec(code, classes, text, code[pc].x, sp, caps, d)
    ensures forall d ::
      Exec(code, classes, text, pc, sp, caps, [false] + d)
      == Exec(code, classes, text, code[pc].y, sp, caps, d)
  {
    assert RunnableAt(code, classes, pc);
    forall d, b: bool
      ensures Exec(code, classes, text, pc, sp, caps, [b] + d)
              == Exec(code, classes, text, if b then code[pc].x else code[pc].y, sp, caps, d)
    {
      assert ([b] + d)[1..] == d;
    }
    forall d ensures Exec(code, classes, text, pc, sp, caps, [true] + d)
         == Exec(code, classes, text, code[pc].x, sp, caps, d) {
      assert ([true] + d)[1..] == d;
    }
    forall d ensures Exec(code, classes, text, pc, sp, caps, [false] + d)
         == Exec(code, classes, text, code[pc].y, sp, caps, d) {
      assert ([false] + d)[1..] == d;
    }
  }

  /** A match found through the first branch of a SPLIT is the first one. */
  lemma SplitFirst(code: seq<Inst>, classes: seq<CharClass>, text: string, caps: Caps, pc: nat, sp: nat,
                   ds: seq<bool>, after: Caps)
    requires Runnable(code, classes) && pc < |code| && code[pc].SPLIT? && code[pc].x < |code|
    requires First(code, classes, text, code[pc].x, sp, caps, ds, after)
    ensures First(code, classes, text, pc, sp, caps, [true] + ds, after)
  {
    SplitExec(code, classes, text, caps, pc, sp);
    hide Exec;
    forall d | Exec(code, classes, text, pc, sp, caps, d).Accepts? ensures d == [true] + ds || Before([true] + ds, d) {
      if d[0] {
        assert d == [true] + d[1..];
        if d[1..] != ds { BeforeBehind([true], ds, d[1..]); }
      } else {
        assert ([true] + ds)[..0] == d[..0];
      }
    }
  }

  lemma LeadsNowhere(code: seq<Inst>, classes: seq<CharClass>, text: string, caps: Caps, pc: nat, sp: nat)
    requires Runnable(code, classes) && pc < |code|
    ensures Leads(code, classes, text, caps, pc, sp, [], pc, sp)
  {
    hide Exec;
    forall d ensures Exec(code, classes, text, pc, sp, caps, [] + d) == Exec(code, classes, text, pc, sp, caps, d) {
      assert [] + d == d;
    }
  }

  datatype Move = Halt | To(pc: nat, sp: nat)

  /** What an instruction that neither chooses, saves nor accepts does. */
  ghost function Step(code: seq<Inst>, classes: seq<CharClass>, text: string, pc: nat, sp: nat): Move
    requires Runnable(code, classes) && pc < |code|
    requires !code[pc].SPLIT? && !code[pc].SAVE? && !code[pc].MATCH?
  {
    assert RunnableAt(code, classes, pc);
    match code[pc]
    case CHAR(c) => if sp < |text| && text[sp] == c then To(pc + 1, sp + 1) else Halt
    case ANY =>
      if sp < |text| && text[sp] != '\n' && sp + Utf8CharLen(text[sp]) <= |text|
      then To(pc + 1, sp + Utf8CharLen(text[sp])) else Halt
    case CLASS(k) => if sp < |text| && ClassHas(classes[k], text[sp]) then To(pc + 1, sp + 1) else Halt
    case JMP(x) => To(x, sp)
    case BOL => if sp == 0 then To(pc + 1, sp) else Halt
    case EOL => if sp == |text| then To(pc + 1, sp) else Halt
  }

  lemma Stuck(code: seq<Inst>, classes: seq<CharClass>, text: string, caps: Caps,
              pc: nat, sp: nat, pre: seq<bool>, pc': nat, sp': nat)
    requires Runnable(code, classes) && pc < |code| && pc' < |code|
    requires Leads(code, classes, text, caps, pc, sp, pre, pc', sp')
    requires !code[pc'].SPLIT? && !code[pc'].SAVE? && !code[pc'].MATCH?
    requires Step(code, classes, text, pc', sp') == Halt
    ensures Dead(code, classes, text, pc, sp, caps)
  {
    hide Leads;
    assert RunnableAt(code, classes, pc');
    assert Dead(code, classes, text, pc', sp', caps);
    LeadsDead(code, classes, text, caps, pc, sp, pre, pc', sp');
  }

  lemma Onward(code: seq<Inst>, classes: seq<CharClass>, text: string, caps: Caps,
               pc: nat, sp: nat, pre: seq<bool>, pc': nat, sp': nat, pc'': nat, sp'': nat)
    requires Runnable(code, classes) && pc < |code| && pc' < |code| && pc'' < |code|
    requires Leads(code, classes, text, caps, pc, sp, pre, pc', sp')
    requires !code[pc'].SPLIT? && !code[pc'].SAVE? && !code[pc'].MATCH?
    requires Step(code, classes, text, pc', sp') == To(pc'', sp'')
    ensures Leads(code, classes, text, caps, pc, sp, pre, pc'', sp'')
  {
    hide Leads;
    assert RunnableAt(code, classes, pc');
    LeadsOn(code, classes, text, caps, pc, sp, pre, pc', sp', pc'', sp'');
  }

  /** A SAVE, seen from the run that goes on behind it with the slot set. */
  lemma SaveFirst(code: seq<Inst>, classes: seq<CharClass>, text: string, caps: Caps,
                  pc: nat, sp: nat, ds: seq<bool>, after: Caps)
    requires Runnable(code, classes) && pc + 1 < |code| && code[pc].SAVE? && code[pc].slot < CAP_SLOTS
    requires First(code, classes, text, pc + 1, sp, caps[code[pc].slot := sp], ds, after)
    ensures First(code, classes, text, pc, sp, caps, ds, after)
  {
    SaveExec(code, classes, text, caps, pc, sp);
    hide Exec, Before;
  }

  lemma SaveDead(code: seq<Inst>, classes: seq<CharClass>, text: string, caps: Caps, pc: nat, sp: nat)
    requires Runnable(code, classes) && pc + 1 < |code| && code[pc].SAVE? && code[pc].slot < CAP_SLOTS
    requires Dead(code, classes, text, pc + 1, sp, caps[code[pc].slot := sp])
    ensures Dead(code, classes, text, pc, sp, caps)
  {
    SaveExec(code, classes, text, caps, pc, sp);
    hide Exec;
  }

  lemma SaveExec(code: seq<Inst>, classes: seq<CharClass>, text: string, caps: Caps, pc: nat, sp: nat)
    requires Runnable(code, classes) && pc + 1 < |code| && code[pc].SAVE? && code[pc].slot < CAP_SLOTS
    ensures forall d :: Exec(code, classes, text, pc, sp, caps, d)
                        == Exec(code, classes, text, pc + 1, sp, caps[code[pc].slot := sp], d)
  {
  }

  lemma MatchFirst(code: seq<Inst>, classes: seq<CharClass>, text: string, caps: Caps,
                   pc: nat, sp: nat, pre: seq<bool>, pc': nat, sp': nat)
    requires Runnable(code, classes) && pc < |code| && pc' < |code|
    requires Leads(code, classes, text, caps, pc, sp, pre, pc', sp')
    requires code[pc'].MATCH?
    ensures First(code, classes, text, pc, sp, caps, pre, caps)
  {
    hide Leads;
    assert First(code, classes, text, pc', sp', caps, [], caps);
    LeadsFirst(code, classes, text, caps, pc, sp, pre, pc', sp', [], caps);
    assert pre + [] == pre;
  }

  // ---------------------------------------------------------------- the match of a tree

  /** The decisions `ds` match at `from` with captures `after`, and nothing of higher priority does. */
  ghost predicate PreferredBy(re: Re, text: string, from: nat, ds: seq<bool>, after: Caps)
    requires WellFormed(re, MAX_GROUPS)
  {
    && Whole(Interp(re, text, from, Start(from), ds)) == Accepts(after)
    && forall d :: Whole(Interp(re, text, from, Start(from), d)).Accepts? ==> d == ds || Before(ds, d)
  }

  ghost predicate Preferred(re: Re, text: string, from: nat, after: Caps)
    requires WellFormed(re, MAX_GROUPS)
  {
    exists ds :: PreferredBy(re, text, from, ds, after)
  }

  ghost predicate NoMatchAt(re: Re, text: string, from: nat) {
    forall j: nat :: !Means(re, text, from, j)
  }

  /** A group is unset, or lies in order inside the match. */
  ghost predicate GroupSettled(c: Caps, g: nat)
    requires g < MAX_GROUPS
  {
    (c[2 * g] == -1 && c[2 * g + 1] == -1) || c[0] <= c[2 * g] <= c[2 * g + 1] <= c[1]
  }

  /** What a match looks like to the operations built on it. */
  ghost predicate MatchShape(re: Re, text: string, from: nat, c: Caps) {
    && c[0] == from && from <= c[1] && (from <= |text| ==> c[1] <= |text|)
    && Means(re, text, from, c[1])
    && forall g: nat :: 1 <= g < MAX_GROUPS ==> GroupSettled(c, g)
  }

  lemma PreferredShape(re: Re, text: string, from: nat, c: Caps)
    requires WellFormed(re, MAX_GROUPS) && FreshGroups(re, 1)
    requires Preferred(re, text, from, c)
    ensures MatchShape(re, text, from, c)
  {
    hide Interp, FreshGroups, WellFormed;
    var ds :| PreferredBy(re, text, from, ds, c);
    var o := Interp(re, text, from, Start(from), ds);
    InterpSound(re, text, from, Start(from), ds);
    FreshIsDistinct(re);
    InterpSettles(re, text, from, Start(from), ds, 0);
    NotBelow(re, 1, 0);
    forall g: nat | 1 <= g < MAX_GROUPS ensures GroupSettled(c, g) {
      InterpSettles(re, text, from, Start(from), ds, g);
    }
  }

  lemma FreshIsDistinct(re: Re)
    requires FreshGroups(re, 1)
    ensures Distinct(re) && GroupsFrom(re, 1)
  {
  }

  /** At most one set of captures is preferred. */
  lemma PreferredIsUnique(re: Re, text: string, from: nat, c1: Caps, c2: Caps)
    requires WellFormed(re, MAX_GROUPS)
    requires Preferred(re, text, from, c1) && Preferred(re, text, from, c2)
    ensures c1 == c2
  {
    hide Interp, Before;
    var d1 :| PreferredBy(re, text, from, d1, c1);
    var d2 :| PreferredBy(re, text, from, d2, c2);
    if Before(d1, d2) { BeforeIsAsymmetric(d1, d2); }
  }

  /** The first way to run the program to a match is the preferred match of the tree. */
  lemma FirstIsPreferred(re: Re, classes: seq<CharClass>, text: string, from: nat, ds: seq<bool>, after: Caps)
    requires WellFormed(re, MAX_GROUPS) && ClassesIn(re, classes) && Runnable(Program(re), classes)
    requires First(Program(re), classes, text, 0, from, NoCaps(), ds, after)
    ensures PreferredBy(re, text, from, ds, after)
  {
    hide Interp, Exec, Before, Emit, Runnable, WellFormed, ClassesIn;
    ProgramRuns(re, classes, text, from, ds);
    forall d | Whole(Interp(re, text, from, Start(from), d)).Accepts? ensures d == ds || Before(ds, d) {
      ProgramRuns(re, classes, text, from, d);
    }
  }

  /** If no decisions run the program to a match, the tree has no match. */
  lemma DeadHasNoMatch(re: Re, classes: seq<CharClass>, text: string, from: nat)
    requires WellFormed(re, MAX_GROUPS) && ClassesIn(re, classes) && Runnable(Program(re), classes)
    requires Dead(Program(re), classes, text, 0, from, NoCaps())
    ensures NoMatchAt(re, text, from)
  {
    hide Interp, Exec, Emit, Runnable, WellFormed, ClassesIn, Means;
    forall j: nat ensures !Means(re, text, from, j) {
      if Means(re, text, from, j) {
        var ds, c := InterpComplete(re, text, from, j, Start(from));
        ProgramRuns(re, classes, text, from, ds);
        assert false;
      }
    }
  }
}
