/** `Rx::Matcher`: recursive backtracking over the program, with a step budget and a depth limit,
 and the operations built on it. */
module RegexMatcher {
  import opened RegexMeaning
  import opened RegexCompile
  import opened RegexMachine

  const MAX_STEPS := 1000000
  const MAX_DEPTH := 8000

  class Matcher {
    const code: seq<Inst>
    const classes: seq<CharClass>
    const groupCount: nat
    const text: string
    ghost const re: Re

    var steps: nat
    var budgetHit: bool
    const caps: array<int>

    constructor (code: seq<Inst>, classes: seq<CharClass>, groupCount: nat, text: string, ghost re: Re)
      requires code == Program(re) && 1 <= groupCount <= MAX_GROUPS
      requires WellFormed(re, groupCount) && ClassesIn(re, classes) && FreshGroups(re, 1)
      ensures Valid() && !budgetHit && steps == 0 && fresh(caps)
      ensures this.code == code && this.classes == classes && this.groupCount == groupCount
      ensures this.text == text && this.re == re
    {
      this.code, this.classes, this.groupCount, this.text, this.re := code, classes, groupCount, text, re;
      steps, budgetHit := 0, false;
      caps := new int[CAP_SLOTS](_ => -1);
      new;
      MoreTables(re, groupCount, MAX_GROUPS, classes, classes);
      ProgramRunnable(re, classes);
    }

    ghost predicate Compiled()
    {
      && code == Program(re) && 1 <= groupCount <= MAX_GROUPS
      && WellFormed(re, groupCount) && WellFormed(re, MAX_GROUPS)
      && ClassesIn(re, classes) && FreshGroups(re, 1)
      && Runnable(code, classes)
    }

    ghost predicate Valid()
      reads this
    {
      && Compiled() && caps.Length == CAP_SLOTS
      && steps <= MAX_STEPS + 1 && (!budgetHit ==> steps <= MAX_STEPS)
    }

    method ClassMatches(cc: CharClass, c: char) returns (yes: bool)
      ensures yes == ClassHas(cc, c)
    {
      var hit := false;
      var k := 0;
      while k < |cc.ranges|
        invariant k <= |cc.ranges|
        invariant hit <==> InRanges(cc.ranges[..k], c)
      {
        assert cc.ranges[..k + 1] == cc.ranges[..k] + [cc.ranges[k]];
        if cc.ranges[k].0 <= c && c <= cc.ranges[k].1 {
          hit := true;
          assert cc.ranges[..k + 1][k].0 <= c <= cc.ranges[..k + 1][k].1;
          break;
        }
        k := k + 1;
      }
      return if cc.negate then !hit else hit;
    }

    lemma CanBeRun()
      requires Compiled()
      ensures Runnable(code, classes)
    {
    }

    /** An instruction that neither chooses, saves nor accepts. */
    method Advance(pc: nat, sp: nat) returns (go: bool, nextPc: nat, nextSp: nat)
      requires Compiled() && pc < |code|
      requires !code[pc].SPLIT? && !code[pc].SAVE? && !code[pc].MATCH?
      ensures Step(code, classes, text, pc, sp) == if go then To(nextPc, nextSp) else Halt
      ensures go ==> nextPc < |code| && Rank(code, nextPc) < Rank(code, pc)
    {
      hide WellFormed, ClassesIn, FreshGroups, Program, ClassHas, Runnable;
      CanRun(code, classes, pc);
      nextPc, nextSp := pc + 1, sp;
      match code[pc] {
        case CHAR(ch) =>
          if sp >= |text| || text[sp] != ch { return false, pc, sp; }
          nextSp := sp + 1;
        case ANY =>
          if sp >= |text| || text[sp] == '\n' { return false, pc, sp; }
          var len := Utf8CharLen(text[sp]);
          if sp + len > |text| { return false, pc, sp; }
          nextSp := sp + len;
        case CLASS(idx) =>
          var hit := false;
          if sp < |text| { hit := ClassMatches(classes[idx], text[sp]); }
          if !hit { return false, pc, sp; }
          nextSp := sp + 1;
        case JMP(x) => nextPc := x;
        case BOL => if sp != 0 { return false, pc, sp; }
        case EOL => if sp != |text| { return false, pc, sp; }
      }
      go := true;
    }

    /** Tries every way to run from (from, at) in order of priority.  A failed run leaves the
        captures alone; a run that ends for lack of budget says so and is a failure. */
    method Run(from: nat, at: nat, depth: nat) returns (ok: bool, ghost ds: seq<bool>)
      requires Valid() && !budgetHit && from < |code| && depth <= MAX_DEPTH + 1
      modifies this`steps, this`budgetHit, caps
      ensures Valid() && old(steps) < steps
      ensures ok ==> !budgetHit && First(code, classes, text, from, at, old(caps[..]), ds, caps[..])
      ensures !ok ==> caps[..] == old(caps[..])
      ensures !ok && !budgetHit ==> Dead(code, classes, text, from, at, old(caps[..]))
      decreases MAX_STEPS + 1 - steps, 0
    {
      hide Exec, First, Dead, Leads, Before, WellFormed, ClassesIn, FreshGroups, Program, ClassHas, Runnable, Step,
          Rank, Compiled;
      CanBeRun();
      ghost var c0: Caps := caps[..];
      ds := [];
      Spend();
      if budgetHit { return false, []; }
      if depth > MAX_DEPTH { budgetHit := true; return false, []; }
      var pc: nat, sp: nat := from, at;
      ghost var pre: seq<bool> := [];
      LeadsNowhere(code, classes, text, c0, from, at);
      while true
        invariant Valid() && !budgetHit && pc < |code| && old(steps) < steps
        invariant caps[..] == c0
        invariant Leads(code, classes, text, c0, from, at, pre, pc, sp)
        decreases MAX_STEPS + 1 - steps, Rank(code, pc)
      {
        CanRun(code, classes, pc);
        match code[pc] {
          case SPLIT(_, y) =>
            ok, ds := RunFirst(pc, sp, depth);
            if ok {
              LeadsFirst(code, classes, text, c0, from, at, pre, pc, sp, ds, caps[..]);
              return true, pre + ds;
            }
            if budgetHit { return false, []; }
            LeadsSecond(code, classes, text, c0, from, at, pre, pc, sp);
            pre := pre + [false];
            pc := y;
          case SAVE(_) =>
            ok, ds := RunSave(pc, sp, depth);
            if ok {
              LeadsFirst(code, classes, text, c0, from, at, pre, pc, sp, ds, caps[..]);
              return true, pre + ds;
            }
            if !budgetHit { LeadsDead(code, classes, text, c0, from, at, pre, pc, sp); }
            return false, [];
          case MATCH =>
            MatchFirst(code, classes, text, c0, from, at, pre, pc, sp);
            return true, pre;
          case _ =>
            var go, nextPc, nextSp := Advance(pc, sp);
            if !go {
              Stuck(code, classes, text, c0, from, at, pre, pc, sp);
              return false, [];
            }
            Onward(code, classes, text, c0, from, at, pre, pc, sp, nextPc, nextSp);
            pc, sp := nextPc, nextSp;
        }
      }
    }

    /** One step of the budget. */
    method Spend()
      requires Valid() && !budgetHit
      modifies this`steps, this`budgetHit
      ensures Valid() && steps == old(steps) + 1
    {
      steps := steps + 1;
      if steps > MAX_STEPS { budgetHit := true; }
    }

    /** The first choice of a SPLIT; the second one costs a step. */
    method RunFirst(pc: nat, sp: nat, depth: nat) returns (ok: bool, ghost ds: seq<bool>)
      requires Valid() && !budgetHit && pc < |code| && depth <= MAX_DEPTH && code[pc].SPLIT?
      modifies this`steps, this`budgetHit, caps
      ensures Valid() && old(steps) < steps && code[pc].x < |code| && code[pc].y < |code|
      ensures ok ==> !budgetHit && First(code, classes, text, pc, sp, old(caps[..]), ds, caps[..])
      ensures !ok ==> caps[..] == old(caps[..])
      ensures !ok && !budgetHit ==> Dead(code, classes, text, code[pc].x, sp, old(caps[..]))
      decreases MAX_STEPS + 1 - steps, 1
    {
      hide Exec, First, Dead, WellFormed, ClassesIn, FreshGroups, Program, Runnable;
      CanRun(code, classes, pc);
      ghost var c0: Caps := caps[..];
      ok, ds := Run(code[pc].x, sp, depth + 1);
      if ok {
        SplitFirst(code, classes, text, c0, pc, sp, ds, caps[..]);
        ds := [true] + ds;
      } else if !budgetHit {
        Spend();
      }
    }

    /** A SAVE sets its slot for what follows, and puts the old value back if that fails. */
    method RunSave(pc: nat, sp: nat, depth: nat) returns (ok: bool, ghost ds: seq<bool>)
      requires Valid() && !budgetHit && pc < |code| && depth <= MAX_DEPTH && code[pc].SAVE?
      modifies this`steps, this`budgetHit, caps
      ensures Valid() && old(steps) < steps
      ensures ok ==> !budgetHit && First(code, classes, text, pc, sp, old(caps[..]), ds, caps[..])
      ensures !ok ==> caps[..] == old(caps[..])
      ensures !ok && !budgetHit ==> Dead(code, classes, text, pc, sp, old(caps[..]))
      decreases MAX_STEPS + 1 - steps, 1
    {
      hide Exec, First, Dead, WellFormed, ClassesIn, FreshGroups, Program, Runnable;
      CanRun(code, classes, pc);
      ghost var c0: Caps := caps[..];
      var slot := code[pc].slot;
      var before := caps[slot];
      caps[slot] := sp;
      assert caps[..] == c0[slot := sp];
      ok, ds := Run(pc + 1, sp, depth + 1);
      if ok {
        SaveFirst(code, classes, text, c0, pc, sp, ds, caps[..]);
      } else {
        caps[slot] := before;
        assert caps[..] == c0;
        if !budgetHit { SaveDead(code, classes, text, c0, pc, sp); }
      }
    }

    /** Tries to match starting exactly at `from`. */
    method MatchAt(from: nat) returns (ok: bool)
      requires Valid() && !budgetHit
      modifies this`steps, this`budgetHit, caps
      ensures Valid() && (ok ==> !budgetHit)
      ensures ok ==> Preferred(re, text, from, caps[..]) && MatchShape(re, text, from, caps[..])
      ensures !ok && !budgetHit ==> NoMatchAt(re, text, from)
    {
      hide First, Dead, Preferred, MatchShape, NoMatchAt, Exec, Interp;
      for k := 0 to caps.Length
        invariant Valid() && !budgetHit
        invariant forall j :: 0 <= j < k ==> caps[j] == -1
      {
        caps[k] := -1;
      }
      assert caps[..] == NoCaps();
      ghost var ds;
      ok, ds := Run(0, from, 0);
      if ok {
        FirstIsPreferred(re, classes, text, from, ds, caps[..]);
        PreferredFor(re, text, from, ds, caps[..]);
        PreferredShape(re, text, from, caps[..]);
      } else if !budgetHit {
        DeadHasNoMatch(re, classes, text, from);
      }
    }

    lemma PreferredFor(re: Re, text: string, from: nat, ds: seq<bool>, c: Caps)
      requires WellFormed(re, MAX_GROUPS) && PreferredBy(re, text, from, ds, c)
      ensures Preferred(re, text, from, c)
    {
    }
  }
}
