/** `Rx::Compiler`: recursive descent over the pattern text with code emitted as it goes.  Each
 method is proved to leave the code of the tree that the reference reading gives. */
module RegexCompiler {
  import opened RegexMeaning
  import opened RegexCompile

  // A fragment is an instruction range at the tail of the code.
  datatype Frag = Frag(start: nat, end: nat)

  const TOO_LARGE := "pattern too large"

  class Compiler {
    const pat: string
    var i: nat
    var code: seq<Inst>
    var classes: seq<CharClass>
    var groupCount: nat
    var error: string

    constructor (pattern: string)
      ensures pat == pattern && Fresh()
    {
      pat := pattern;
      i, code, classes, groupCount, error := 0, [], [], 1, "";
    }

    ghost predicate Fresh()
      reads this
    {
      i == 0 && code == [] && classes == [] && groupCount == 1 && error == ""
    }

    ghost predicate Valid()
      reads this
    {
      i <= |pat| && 1 <= groupCount <= MAX_GROUPS && error == ""
    }

    /** The parse agrees with the reading `r`, which started at code address `start`. */
    ghost predicate Follows(r: Reading, before: seq<Inst>)
      reads this
    {
      r.Good? && r == Good(r.re, i, groupCount, classes) && code == before + Emit(r.re, |before|)
    }

    /** What a failed parse leaves: a message, and a reason; code that is too large is still there. */
    ghost predicate Failed(r: Reading)
      reads this
    {
      error != "" && (r.Bad? || (error == TOO_LARGE && |code| > MAX_PROG))
    }

    method Fail(msg: string)
      requires error == "" && msg != ""
      modifies this`error
      ensures error == msg
    {
      error := msg;
    }

    method Overflow() returns (over: bool)
      requires error == ""
      modifies this`error
      ensures over == (|code| > MAX_PROG)
      ensures error == if over then TOO_LARGE else ""
    {
      over := |code| > MAX_PROG;
      if over { Fail(TOO_LARGE); }
    }

    method Compile() returns (ok: bool)
      requires Fresh()
      modifies this
      ensures var r := ReadPattern(pat);
        if ok then error == "" && r.Good? && r == Good(r.re, i, groupCount, classes) && code == Program(r.re)
        else Failed(r)
    {
      code := code + [SAVE(0)];
      var f;
      ok, f := ParseAlt();
      if !ok { return; }
      if i < |pat| {
        Fail("unexpected ')' in pattern");
        return false;
      }
      code := code + [SAVE(1)];
      code := code + [MATCH];
    }

    method ParseAlt() returns (ok: bool, f: Frag)
      requires Valid()
      modifies this
      ensures var r := ReadAlt(pat, old(i), old(groupCount), old(classes));
        if ok then Valid() && Follows(r, old(code)) && f == Frag(old(|code|), |code|) else Failed(r)
      decreases |pat| - i, 4
    {
      hide AltCode, Emit, MoveAll, ReadSeq;
      ghost var before, whole := code, ReadAlt(pat, i, groupCount, classes);
      var start := |code|;
      var left;
      ok, left := ParseSeq();
      if !ok { return false, Frag(0, 0); }
      ghost var tree := ReadSeq(pat, old(i), old(groupCount), old(classes), Empty).re;
      while i < |pat| && pat[i] == '|'
        invariant Valid() && old(i) <= i && start == |before| && left == Frag(start, |code|)
        invariant WellFormed(tree, groupCount) && ClassesIn(tree, classes)
        invariant code == before + Emit(tree, start)
        invariant whole == ReadBars(pat, i, groupCount, classes, tree)
        decreases |pat| - i
      {
        i := i + 1;
        var split, l1 := left.start, left.start + 1;
        EmitMoves(tree, start, 1);
        assert code[start..] == Emit(tree, start);
        var over := InsertSplit(start);
        if over { return false, Frag(0, 0); }
        var jmp := |code|;
        code := code + [JMP(0)];
        var l2 := |code|;
        ghost var leftMoved, holes := Emit(tree, l1), code;
        ghost var seqReading := ReadSeq(pat, i, groupCount, classes, Empty);
        ghost var g0, cs0 := groupCount, classes;
        var right;
        ok, right := ParseSeq();
        if !ok { return false, Frag(0, 0); }
        code := code[split := SPLIT(l1, l2)];
        code := code[jmp := JMP(|code|)];
        left := Frag(start, |code|);
        MoreTables(tree, g0, groupCount, cs0, classes);
        assert holes == before + [SPLIT(0, 0)] + leftMoved + [JMP(0)];
        AltAssembled(before, tree, seqReading.re);
        tree := RegexMeaning.Alt(tree, seqReading.re);
      }
      return true, Frag(start, |code|);
    }

    /** Makes room for a SPLIT in front of the fragment at the tail; the fragment moves along. */
    method InsertSplit(start: nat) returns (over: bool)
      requires Valid() && start <= |code|
      modifies this`code, this`error
      ensures code == old(code[..start]) + [SPLIT(0, 0)] + MoveAll(old(code[start..]), 1)
      ensures error == (if over then TOO_LARGE else "") && (over ==> |code| > MAX_PROG)
    {
      hide MoveAll;
      var leftCode := code[start..];
      code := code[..start];
      code := code + [SPLIT(0, 0)];
      MoveTail(leftCode, |code| - start);
      over := Overflow();
    }

    /** The two holes of an alternative, once filled, complete its code. */
    lemma AltAssembled(before: seq<Inst>, a: Re, b: Re)
      ensures var x := Emit(a, |before| + 1);
        var holes := before + [SPLIT(0, 0)] + x + [JMP(0)];
        Filled(holes, |before|, Emit(b, |holes|)) == before + Emit(RegexMeaning.Alt(a, b), |before|)
    {
      hide Emit, Filled, AltCode;
      RegexCompile.EmitAlt(RegexMeaning.Alt(a, b), |before|);
      var x := Emit(a, |before| + 1);
      HolesFilled(before, x, Emit(b, |before| + |x| + 2));
      assert |before + [SPLIT(0, 0)] + x + [JMP(0)]| == |before| + |x| + 2;
    }

    function Filled(holes: seq<Inst>, split: nat, y: seq<Inst>): seq<Inst>
      requires split < |holes|
    {
      (holes + y)[split := SPLIT(split + 1, |holes|)][|holes| - 1 := JMP(|holes| + |y|)]
    }

    lemma HolesFilled(before: seq<Inst>, x: seq<Inst>, y: seq<Inst>)
      ensures var holes := before + [SPLIT(0, 0)] + x + [JMP(0)];
        Filled(holes, |before|, y) == before + AltCode(x, y, |before|)
    {
    }

    /** Appends a fragment that was compiled elsewhere, `delta` addresses further on. */
    method MoveTail(body: seq<Inst>, delta: nat)
      modifies this`code
      ensures code == old(code) + MoveAll(body, delta)
    {
      var k := 0;
      while k < |body|
        invariant k <= |body|
        invariant code == old(code) + MoveAll(body, delta)[..k]
      {
        var ins := body[k];
        if ins.SPLIT? {
          ins := ins.(x := ins.x + delta, y := ins.y + delta);
        } else if ins.JMP? {
          ins := ins.(target := ins.target + delta);
        }
        code := code + [ins];
        k := k + 1;
      }
    }

    method ParseSeq() returns (ok: bool, f: Frag)
      requires Valid()
      modifies this
      ensures var r := ReadSeq(pat, old(i), old(groupCount), old(classes), Empty);
        if ok then Valid() && Follows(r, old(code)) && f == Frag(old(|code|), |code|) else Failed(r)
      decreases |pat| - i, 3
    {
      hide MoveAll, RepCode, GroupCode, AltCode, ReadPiece;
      ghost var before, whole, tree := code, ReadSeq(pat, i, groupCount, classes, Empty), Empty;
      var start := |code|;
      while i < |pat| && pat[i] != '|' && pat[i] != ')'
        invariant Valid() && old(i) <= i
        invariant WellFormed(tree, groupCount) && ClassesIn(tree, classes)
        invariant code == before + Emit(tree, start)
        invariant whole == ReadSeq(pat, i, groupCount, classes, tree)
        decreases |pat| - i
      {
        ghost var piece, here := ReadPiece(pat, i, groupCount, classes), code;
        ghost var g0, cs0 := groupCount, classes;
        var p;
        ok, p := ParsePiece();
        if !ok { return false, Frag(0, 0); }
        MoreTables(tree, g0, groupCount, cs0, classes);
        assert code == before + (Emit(tree, start) + Emit(piece.re, start + |Emit(tree, start)|));
        tree := Cat(tree, piece.re);
      }
      return true, Frag(start, |code|);
    }

    method ParsePiece() returns (ok: bool, f: Frag)
      requires Valid()
      modifies this
      ensures var r := ReadPiece(pat, old(i), old(groupCount), old(classes));
        if ok then Valid() && Follows(r, old(code)) && f == Frag(old(|code|), |code|) else Failed(r)
      decreases |pat| - i, 2
    {
      hide Emit, ReadAtom, ReadBound, RepCode;
      ghost var before, reading := code, ReadAtom(pat, i, groupCount, classes);
      var atom;
      ok, atom := ParseAtom();
      if !ok { return false, Frag(0, 0); }
      assert code[..atom.start] == before && code[atom.start..] == Emit(reading.re, |before|);
      if i < |pat| {
        var q := pat[i];
        if q == '*' || q == '+' || q == '?' {
          i := i + 1;
          var lazy := i < |pat| && pat[i] == '?';
          if lazy { i := i + 1; }
          ok, f := ApplyRepeat(atom, if q == '+' then 1 else 0, if q == '?' then AtMost(1) else Unbounded, lazy);
          EmitRep(reading.re, atom.start);
          return;
        }
        if q == '{' {
          var found, lo, extra, lazy;
          ok, found, lo, extra, lazy := ParseBrace();
          if !ok { return false, Frag(0, 0); }
          if found {
            ok, f := ApplyRepeat(atom, lo, extra, lazy);
            EmitRep(reading.re, atom.start);
            return;
          }
        }
      }
      return true, atom;
    }

    /** A quantifier in braces; text that does not form one is left to be read as literals. */
    method ParseBrace() returns (ok: bool, found: bool, lo: nat, extra: Limit, lazy: bool)
      requires i < |pat| && pat[i] == '{' && error == ""
      modifies this`i, this`error
      ensures var q := ReadQuantifier(pat, old(i));
        if !ok then q.OutOfRange? && error != ""
        else
          error == "" && (!found ==> i == old(i))
          && q == (if found then Quantifier(lo, extra, lazy, i) else NoQuantifier)
    {
      var save := i;
      i := i + 1;
      extra, lazy := Unbounded, false;
      found, lo := ReadIntBound();
      if !found { i := save; return true, false, 0, extra, lazy; }
      var inRange := lo <= 1000;
      if i < |pat| && pat[i] == ',' {
        i := i + 1;
        if i < |pat| && pat[i] == '}' {
          extra := Unbounded;
        } else {
          var hi;
          found, hi := ReadIntBound();
          if !found { i := save; return true, false, 0, extra, lazy; }
          inRange := inRange && lo <= hi <= 1000;
          if inRange { extra := AtMost(hi - lo); }
        }
      } else {
        extra := AtMost(0);
      }
      if i >= |pat| || pat[i] != '}' { i := save; return true, false, 0, extra, lazy; }
      i := i + 1;
      if !inRange {
        Fail("repetition count out of range (limit 1000)");
        return false, false, 0, extra, lazy;
      }
      lazy := i < |pat| && pat[i] == '?';
      if lazy { i := i + 1; }
      return true, true, lo, extra, lazy;
    }

    lemma EmitRep(b: Re, base: nat)
      ensures forall lo, extra,
          lazy :: Emit(Rep(b, lo, extra, lazy), base) == RepCode(Emit(b, base), lo, extra, lazy, base)
    {
    }

    method ReadIntBound() returns (ok: bool, v: nat)
      requires i <= |pat|
      modifies this`i
      ensures i <= |pat|
      ensures ReadBound(pat, old(i)) == if ok then Bound(v, i) else NoBound
    {
      if i >= |pat| || pat[i] < '0' || pat[i] > '9' { return false, 0; }
      v := 0;
      while i < |pat| && pat[i] >= '0' && pat[i] <= '9'
        invariant old(i) <= i <= |pat| && v <= 100000
        invariant ReadBound(pat, old(i)) == ReadDigits(pat, i, v)
      {
        v := v * 10 + (pat[i] as int - '0' as int);
        if v > 100000 { return false, v; }
        i := i + 1;
      }
      return true, v;
    }

    /** Replaces the atom at the tail by its repetition. */
    method ApplyRepeat(atom: Frag, lo: nat, extra: Limit, lazy: bool) returns (ok: bool, out: Frag)
      requires Valid() && atom.start <= |code|
      modifies this`code, this`error
      ensures if ok then
          && Valid() && out == Frag(atom.start, |code|)
          && code == old(code[..atom.start]) + RepCode(old(code[atom.start..]), lo, extra, lazy, atom.start)
        else error == TOO_LARGE && |code| > MAX_PROG
    {
      hide MoveAll, Tail;
      var body := code[atom.start..];
      code := code[..atom.start];
      var start := |code|;
      ghost var before := code;
      var k := 0;
      while k < lo
        invariant k <= lo && Valid()
        invariant code == before + Copies(body, k)
      {
        MoveTail(body, |code| - atom.start);
        k := k + 1;
        var over := Overflow();
        if over { return false, Frag(0, 0); }
      }
      ghost var base, moved := |code|, MoveAll(body, |code| - atom.start);
      ok := RepeatTail(atom.start, body, extra, lazy);
      assert ok ==> code == before + RepCode(body, lo, extra, lazy, start);
      return ok, Frag(start, |code|);
    }

    /** The optional iterations, at the tail of the code; `body` was compiled at `origin`. */
    method RepeatTail(origin: nat, body: seq<Inst>, extra: Limit, lazy: bool) returns (ok: bool)
      requires Valid() && origin <= |code|
      modifies this`code, this`error
      ensures if ok then
          Valid() && code == old(code) + Tail(MoveAll(body, old(|code|) - origin), extra, lazy, old(|code|))
        else error == TOO_LARGE && |code| > MAX_PROG
    {
      hide MoveAll, StarCode, Optional;
      match extra
      case Unbounded => ok := StarTail(origin, body, lazy);
      case AtMost(n) => ok := OptionalCopies(origin, body, n, lazy);
    }

    /** Any number of iterations: a SPLIT, the body, and a jump back to the SPLIT. */
    method StarTail(origin: nat, body: seq<Inst>, lazy: bool) returns (ok: bool)
      requires Valid() && origin <= |code|
      modifies this`code, this`error
      ensures if ok then
          && Valid()
          && code == old(code) + StarCode(lazy, MoveAll(MoveAll(body, old(|code|) - origin), 1), old(|code|))
        else error == TOO_LARGE && |code| > MAX_PROG
    {
      hide MoveAll;
      ghost var base := |code|;
      var split := |code|;
      code := code + [SPLIT(0, 0)];
      var bodyStart := |code|;
      MoveTail(body, |code| - origin);
      MoveTwice(body, base - origin, 1);
      var over := Overflow();
      if over { return false; }
      var jmp := |code|;
      code := code + [JMP(0)];
      code := code[jmp := JMP(split)];
      var end := |code|;
      code := code[split := if lazy then SPLIT(end, bodyStart) else SPLIT(bodyStart, end)];
      assert code == old(code) + StarCode(lazy, MoveAll(MoveAll(body, base - origin), 1), base);
      return true;
    }

    method OptionalCopies(origin: nat, body: seq<Inst>, n: nat, lazy: bool) returns (ok: bool)
      requires Valid() && origin <= |code|
      modifies this`code, this`error
      ensures var base := old(|code|);
        if ok then
          && Valid()
          && code == old(code) + Optional(lazy, MoveAll(body, base - origin), n, base, base + Scale(n, |body| + 1))
        else error == TOO_LARGE && |code| > MAX_PROG
    {
      hide MoveAll, SameBut, Optional, Branch;
      ghost var base := |code|;
      ghost var moved := MoveAll(body, base - origin);
      ghost var finish := base + Scale(n, |body| + 1);
      var splits: seq<nat> := [];
      OptionalNone(lazy, moved, base, finish);
      var k := 0;
      while k < n
        invariant k <= n && Valid()
        invariant SplitsAt(splits, k, base, |body| + 1)
        invariant SameBut(code, old(code) + Optional(lazy, moved, k, base, finish), splits)
      {
        var split := |code|;
        OneMoreOptional(code, old(code), splits, body, origin, k, lazy, finish);
        code := code + [SPLIT(0, 0)];
        splits := splits + [split];
        MoveTail(body, |code| - origin);
        k := k + 1;
        var over := Overflow();
        if over { return false; }
      }
      ghost var goal := old(code) + Optional(lazy, moved, n, base, finish);
      SplitsInGoal(old(code), moved, n, lazy, splits);
      PatchSplits(splits, lazy, goal);
      return true;
    }

    lemma SplitsInGoal(pre: seq<Inst>, moved: seq<Inst>, n: nat, lazy: bool, splits: seq<nat>)
      requires SplitsAt(splits, n, |pre|, |moved| + 1)
      ensures var goal := pre + Optional(lazy, moved, n, |pre|, |pre| + Scale(n, |moved| + 1));
        forall s :: s in splits ==> s < |goal| && goal[s] == Branch(lazy, s + 1, |goal|)
    {
      hide Optional, Branch;
      var finish := |pre| + Scale(n, |moved| + 1);
      var goal := pre + Optional(lazy, moved, n, |pre|, finish);
      forall s | s in splits ensures s < |goal| && goal[s] == Branch(lazy, s + 1, |goal|) {
        var j: nat :| j < |splits| && splits[j] == s;
        OptionalAt(lazy, moved, n, |pre|, finish, j);
      }
    }

    /** An open branch and a copy of the body bring the code one optional copy further. */
    lemma OneMoreOptional(c: seq<Inst>, pre: seq<Inst>, holes: seq<nat>, body: seq<Inst>, origin: nat, k: nat,
                          lazy: bool, end: nat)
      requires origin <= |pre|
      requires SameBut(c, pre + Optional(lazy, MoveAll(body, |pre| - origin), k, |pre|, end), holes)
      ensures SameBut(c + [SPLIT(0, 0)] + MoveAll(body, |c| + 1 - origin),
                      pre + Optional(lazy, MoveAll(body, |pre| - origin), k + 1, |pre|, end), holes + [|c|])
    {
      hide MoveAll, Optional, Branch, SameBut;
      var base, moved := |pre|, MoveAll(body, |pre| - origin);
      var prev, at := pre + Optional(lazy, moved, k, base, end), Scale(k, |body| + 1);
      MoveTwice(body, base - origin, at + 1);
      OptionalGrows(lazy, moved, k + 1, base, end);
      var g, tail := Branch(lazy, base + at + 1, end), MoveAll(moved, at + 1);
      SameButGrows(c, prev, holes, g, tail);
      assert |c| + 1 - origin == base - origin + (at + 1);
      assert prev + [g] + tail == pre + (Optional(lazy, moved, k, base, end) + ([g] + tail));
    }

    lemma OptionalNone(lazy: bool, body: seq<Inst>, base: nat, end: nat)
      ensures Optional(lazy, body, 0, base, end) == []
    {
    }

    method PatchSplits(splits: seq<nat>, lazy: bool, ghost goal: seq<Inst>)
      requires SameBut(code, goal, splits)
      requires forall s :: s in splits ==> goal[s] == Branch(lazy, s + 1, |goal|)
      modifies this`code
      ensures code == goal
    {
      var end := |code|;
      var j := 0;
      while j < |splits|
        invariant j <= |splits| && SameBut(code, goal, splits[j..])
      {
        var s := splits[j];
        var bodyStart := s + 1;
        assert s in splits && splits[j..][0] == s && splits[j..][1..] == splits[j + 1..];
        PatchStep(code, goal, splits[j..]);
        code := code[s := if lazy then SPLIT(end, bodyStart) else SPLIT(bodyStart, end)];
        j := j + 1;
      }
    }

    lemma PatchStep(c: seq<Inst>, goal: seq<Inst>, holes: seq<nat>)
      requires SameBut(c, goal, holes) && holes != []
      ensures SameBut(c[holes[0] := goal[holes[0]]], goal, holes[1..])
    {
      assert forall h :: h in holes <==> h == holes[0] || h in holes[1..];
    }

    lemma SameButGrows(c: seq<Inst>, goal: seq<Inst>, holes: seq<nat>, g: Inst, tail: seq<Inst>)
      requires SameBut(c, goal, holes)
      ensures SameBut(c + [SPLIT(0, 0)] + tail, goal + [g] + tail, holes + [|c|])
    {
    }

    ghost predicate SplitsAt(splits: seq<nat>, k: nat, base: nat, step: nat) {
      |splits| == k && forall j: nat :: j < k ==> splits[j] == base + Scale(j, step)
    }

    /** `c` and `goal` agree outside the positions `holes`, which all lie inside. */
    ghost predicate SameBut(c: seq<Inst>, goal: seq<Inst>, holes: seq<nat>)
      ensures SameBut(c, goal, holes) ==> |c| == |goal| && forall k: nat :: k < |holes| ==> holes[k] < |c|
      ensures c == goal && holes == [] ==> SameBut(c, goal, holes)
    {
      && |c| == |goal|
      && (forall j: nat :: j < |c| && j !in holes ==> c[j] == goal[j])
      && (forall k: nat :: k < |holes| ==> holes[k] < |c|)
    }

    method ParseAtom() returns (ok: bool, f: Frag)
      requires Valid()
      modifies this
      ensures var r := ReadAtom(pat, old(i), old(groupCount), old(classes));
        if ok then Valid() && Follows(r, old(code)) && f == Frag(old(|code|), |code|) else Failed(r)
      decreases |pat| - i, 1
    {
      var start := |code|;
      if i >= |pat| {
        Fail("pattern ended unexpectedly");
        return false, Frag(0, 0);
      }
      var c := pat[i];
      if c == '(' {
        ok := ParseGroup();
        return ok, Frag(start, |code|);
      }
      if c == '^' { i := i + 1; code := code + [BOL]; return true, Frag(start, |code|); }
      if c == '$' { i := i + 1; code := code + [EOL]; return true, Frag(start, |code|); }
      if c == '.' { i := i + 1; code := code + [ANY]; return true, Frag(start, |code|); }
      if c == '[' {
        ok := ParseClass();
        return ok, Frag(start, |code|);
      }
      if c == '\\' {
        if i + 1 >= |pat| {
          Fail("dangling '\\'");
          return false, Frag(0, 0);
        }
        i := i + 1;
        var e := pat[i];
        i := i + 1;
        match e {
          case 'd' => EmitClass(CharClass(false, DIGITS));
          case 'D' => EmitClass(CharClass(true, DIGITS));
          case 'w' => EmitClass(CharClass(false, WORD));
          case 'W' => EmitClass(CharClass(true, WORD));
          case 's' => EmitClass(CharClass(false, SPACES));
          case 'S' => EmitClass(CharClass(true, SPACES));
          case 'n' => code := code + [CHAR('\n')];
          case 't' => code := code + [CHAR('\t')];
          case 'r' => code := code + [CHAR('\r')];
          case _ => code := code + [CHAR(e)];
        }
        return true, Frag(start, |code|);
      }
      if c == '*' || c == '+' || c == '?' || c == ')' {
        Fail("misplaced '" + [c] + "' in pattern");
        return false, Frag(0, 0);
      }
      i := i + 1;
      code := code + [CHAR(c)];
      return true, Frag(start, |code|);
    }

    method EmitClass(cc: CharClass)
      modifies this`code, this`classes
      ensures classes == old(classes) + [cc]
      ensures code == old(code) + [CLASS(old(|classes|))]
    {
      classes := classes + [cc];
      code := code + [CLASS(|classes| - 1)];
    }

    method ParseGroup() returns (ok: bool)
      requires Valid() && i < |pat| && pat[i] == '('
      modifies this
      ensures var r := ReadAtom(pat, old(i), old(groupCount), old(classes));
        if ok then Valid() && Follows(r, old(code)) else Failed(r)
      decreases |pat| - i, 0
    {
      hide AltCode, RepCode, MoveAll, ReadAlt;
      ghost var before := code;
      i := i + 1;
      var capturing := true;
      if i + 1 < |pat| && pat[i] == '?' && pat[i + 1] == ':' {
        capturing := false;
        i := i + 2;
      }
      var slot := 0;
      if capturing {
        if groupCount >= MAX_GROUPS {
          Fail("too many capture groups (limit 9)");
          return false;
        }
        slot := groupCount;
        groupCount := groupCount + 1;
        code := code + [SAVE(slot * 2)];
      }
      ghost var inner := ReadAlt(pat, i, groupCount, classes);
      var f;
      ok, f := ParseAlt();
      if !ok { return; }
      if i >= |pat| || pat[i] != ')' {
        Fail("missing ')'");
        return false;
      }
      i := i + 1;
      if capturing {
        code := code + [SAVE(slot * 2 + 1)];
        assert code == before + GroupCode(slot, Emit(inner.re, |before| + 1));
      }
      return true;
    }

    method ParseClass() returns (ok: bool)
      requires Valid() && i < |pat| && pat[i] == '['
      modifies this
      ensures var r := ReadAtom(pat, old(i), old(groupCount), old(classes));
        if ok then Valid() && Follows(r, old(code)) else Failed(r)
    {
      hide ReadClassBody;
      i := i + 1;
      var negate := false;
      if i < |pat| && pat[i] == '^' {
        negate := true;
        i := i + 1;
      }
      var ranges;
      ok, ranges := ParseClassBody();
      if ok { EmitClass(CharClass(negate, ranges)); }
    }

    /** The ranges up to the closing bracket; a bracket in the first place is a character. */
    method ParseClassBody() returns (ok: bool, ranges: seq<(char, char)>)
      requires i <= |pat| && error == ""
      modifies this`i, this`error
      ensures var r := ReadClassBody(pat, old(i), true, []);
        if ok then r == Ranges(ranges, i) && error == "" else r.BadRanges? && error != ""
    {
      hide ReadClassItem;
      ranges := [];
      var first := true;
      ghost var whole := ReadClassBody(pat, i, true, []);
      while i < |pat| && (pat[i] != ']' || first)
        invariant i <= |pat| && whole == ReadClassBody(pat, i, first, ranges) && error == ""
        decreases |pat| - i
      {
        var good, more := ParseClassItem();
        if !good { return false, ranges; }
        ranges := ranges + more;
        first := false;
      }
      if i >= |pat| {
        Fail("missing ']'");
        return false, ranges;
      }
      i := i + 1;
      ok := true;
    }

    method ParseClassItem() returns (ok: bool, more: seq<(char, char)>)
      requires i < |pat| && error == ""
      modifies this`i, this`error
      ensures var r := ReadClassItem(pat, old(i));
        if ok then r == Ranges(more, i) && error == "" else r.BadRanges? && error != ""
    {
      more := [];
      var lo;
      if pat[i] == '\\' && i + 1 < |pat| {
        i := i + 1;
        var e := pat[i];
        if e == 'd' { i := i + 1; return true, DIGITS; }
        if e == 'w' { i := i + 1; return true, WORD; }
        if e == 's' { i := i + 1; return true, SPACES; }
        if e == 'n' { lo := '\n'; } else if e == 't' { lo := '\t'; } else if e == 'r' { lo := '\r'; } else { lo := e; }
        i := i + 1;
      } else {
        lo := pat[i];
        i := i + 1;
      }
      var hi := lo;
      if i + 1 < |pat| && pat[i] == '-' && pat[i + 1] != ']' {
        i := i + 1;
        if pat[i] == '\\' && i + 1 < |pat| { i := i + 1; }
        hi := pat[i];
        i := i + 1;
        if hi < lo {
          error := "invalid class range";
          return false, [];
        }
      }
      return true, [(lo, hi)];
    }
  }
}
