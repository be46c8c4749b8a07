/** The pattern compiler: one pass over the pattern, emitting instructions and moving fragments
 that were already emitted when an alternative or a quantifier follows them.

 `ReadAlt` and its companions are the reference reading of a pattern as a tree; `Emit` is the
 code a tree stands for at a given address.  `Compiler` is proved to leave exactly that code. */
module RegexCompile {
  import opened Numerals
  import opened RegexMeaning

  const MAX_PROG := 10000

  datatype Inst =
    | CHAR(ch: char)
    | ANY
    | CLASS(classIdx: nat)
    | SPLIT(x: nat, y: nat)
    | JMP(target: nat)
    | SAVE(slot: nat)
    | BOL
    | EOL
    | MATCH

  // ---------------------------------------------------------------- reading a pattern

  datatype Reading = Bad | Good(re: Re, i: nat, groups: nat, classes: seq<CharClass>)

  datatype Bound = NoBound | Bound(v: nat, i: nat)

  /** A decimal number of at most 100000. */
  function ReadBound(pat: string, i: nat): (b: Bound)
    ensures b.Bound? ==> i < b.i <= |pat| && b.v <= 100000
  {
    if i < |pat| && IsDigit(pat[i]) then ReadDigits(pat, i, 0) else NoBound
  }

  function ReadDigits(pat: string, i: nat, v: nat): (b: Bound)
    requires i <= |pat| && v <= 100000
    ensures b.Bound? ==> i <= b.i <= |pat| && b.v <= 100000
    ensures b.Bound? && i < |pat| && IsDigit(pat[i]) ==> i < b.i
    decreases |pat| - i
  {
    if i < |pat| && IsDigit(pat[i]) then
      var w := v * 10 + (pat[i] as int - '0' as int);
      if w > 100000 then NoBound else ReadDigits(pat, i + 1, w)
    else Bound(v, i)
  }

  datatype Quantifier = NoQuantifier | OutOfRange | Quantifier(lo: nat, extra: Limit, lazy: bool, i: nat)

  function LazyMark(pat: string, i: nat): bool { i < |pat| && pat[i] == '?' }

  function Quantify(pat: string, lo: nat, extra: Limit, i: nat): Quantifier {
    Quantifier(lo, extra, LazyMark(pat, i), if LazyMark(pat, i) then i + 1 else i)
  }

  /** Both bounds of a brace are limited to 1000. */
  function BraceQuantify(pat: string, lo: nat, hi: nat, i: nat): Quantifier {
    if lo > 1000 || hi > 1000 || hi < lo then OutOfRange else Quantify(pat, lo, AtMost(hi - lo), i)
  }

  /** The quantifier at `i`, if one is there; a malformed brace is no quantifier. */
  function ReadQuantifier(pat: string, i: nat): (q: Quantifier)
    ensures q.Quantifier? ==> i < q.i <= |pat|
  {
    if i >= |pat| then NoQuantifier
    else if pat[i] == '*' then Quantify(pat, 0, Unbounded, i + 1)
    else if pat[i] == '+' then Quantify(pat, 1, Unbounded, i + 1)
    else if pat[i] == '?' then Quantify(pat, 0, AtMost(1), i + 1)
    else if pat[i] == '{' then
      match ReadBound(pat, i + 1)
      case NoBound => NoQuantifier
      case Bound(lo, j) =>
        if j < |pat| && pat[j] == '}' then BraceQuantify(pat, lo, lo, j + 1)
        else if j < |pat| && pat[j] == ',' then
          if j + 1 < |pat| && pat[j + 1] == '}' then
            if lo > 1000 then OutOfRange else Quantify(pat, lo, Unbounded, j + 2)
          else
            match ReadBound(pat, j + 1)
            case NoBound => NoQuantifier
            case Bound(hi, k) => if k < |pat| && pat[k] == '}' then BraceQuantify(pat, lo, hi, k + 1) else NoQuantifier
        else NoQuantifier
    else NoQuantifier
  }

  const DIGITS := [('0', '9')]
  const WORD := [('a', 'z'), ('A', 'Z'), ('0', '9'), ('_', '_')]
  const SPACES := [(' ', ' '), ('\t', '\t'), ('\n', '\n'), ('\r', '\r')]

  /** What a letter after a backslash stands for when it is one character. */
  function EscapedChar(e: char): char {
    if e == 'n' then '\n' else if e == 't' then '\t' else if e == 'r' then '\r' else e
  }

  datatype Ranges = BadRanges(error: string) | Ranges(rs: seq<(char, char)>, i: nat)

  /** One element of a bracketed class, at `i`. */
  function ReadClassItem(pat: string, i: nat): (r: Ranges)
    requires i < |pat|
    ensures r.Ranges? ==> i < r.i <= |pat|
  {
    if pat[i] == '\\' && i + 1 < |pat| then
      var e := pat[i + 1];
      if e == 'd' then Ranges(DIGITS, i + 2)
      else if e == 'w' then Ranges(WORD, i + 2)
      else if e == 's' then Ranges(SPACES, i + 2)
      else ReadClassRange(pat, EscapedChar(e), i + 2)
    else ReadClassRange(pat, pat[i], i + 1)
  }

  function ReadClassRange(pat: string, lo: char, i: nat): (r: Ranges)
    requires i <= |pat|
    ensures r.Ranges? ==> i <= r.i <= |pat|
  {
    if i + 1 < |pat| && pat[i] == '-' && pat[i + 1] != ']' then
      var k := if pat[i + 1] == '\\' && i + 2 < |pat| then i + 2 else i + 1;
      if pat[k] < lo then BadRanges("invalid class range") else Ranges([(lo, pat[k])], k + 1)
    else Ranges([(lo, lo)], i)
  }

  /** The elements of a class up to its closing bracket; a bracket in first place is an element. */
  function ReadClassBody(pat: string, i: nat, first: bool, rs: seq<(char, char)>): (r: Ranges)
    requires i <= |pat|
    ensures r.Ranges? ==> i < r.i <= |pat|
    decreases |pat| - i
  {
    if i < |pat| && (pat[i] != ']' || first) then
      match ReadClassItem(pat, i)
      case BadRanges(e) => BadRanges(e)
      case Ranges(more, j) => ReadClassBody(pat, j, false, rs + more)
    else if i >= |pat| then BadRanges("missing ']'")
    else Ranges(rs, i + 1)
  }

  function AddClass(cc: CharClass, i: nat, groups: nat, classes: seq<CharClass>): Reading {
    Good(Cls(|classes|, cc), i, groups, classes + [cc])
  }

  function ReadEscape(e: char, i: nat, groups: nat, classes: seq<CharClass>): Reading {
    if e == 'd' then AddClass(CharClass(false, DIGITS), i, groups, classes)
    else if e == 'D' then AddClass(CharClass(true, DIGITS), i, groups, classes)
    else if e == 'w' then AddClass(CharClass(false, WORD), i, groups, classes)
    else if e == 'W' then AddClass(CharClass(true, WORD), i, groups, classes)
    else if e == 's' then AddClass(CharClass(false, SPACES), i, groups, classes)
    else if e == 'S' then AddClass(CharClass(true, SPACES), i, groups, classes)
    else Good(Chr(EscapedChar(e)), i, groups, classes)
  }

  /** A reading moves forward, and only adds groups and classes. */
  predicate Advances(r: Reading, pat: string, i: nat, groups: nat, classes: seq<CharClass>) {
    r.Good? ==>
      && i <= r.i <= |pat|
      && groups <= r.groups <= MAX_GROUPS
      && classes <= r.classes
      && WellFormed(r.re, r.groups)
      && ClassesIn(r.re, r.classes)
  }

  predicate ClassesIn(re: Re, classes: seq<CharClass>) {
    match re
    case Cls(k, cc) => k < |classes| && classes[k] == cc
    case Cat(a, b) => ClassesIn(a, classes) && ClassesIn(b, classes)
    case Alt(a, b) => ClassesIn(a, classes) && ClassesIn(b, classes)
    case Group(_, b) => ClassesIn(b, classes)
    case Rep(b, _, _, _) => ClassesIn(b, classes)
    case _ => true
  }

  lemma {:induction false} MoreTables(re: Re, g: nat, g': nat, cs: seq<CharClass>, cs': seq<CharClass>)
    requires WellFormed(re, g) && ClassesIn(re, cs) && g <= g' && cs <= cs'
    ensures WellFormed(re, g') && ClassesIn(re, cs')
  {
    match re
    case Cat(a, b) => MoreTables(a, g, g', cs, cs'); MoreTables(b, g, g', cs, cs');
    case Alt(a, b) => MoreTables(a, g, g', cs, cs'); MoreTables(b, g, g', cs, cs');
    case Group(_, b) => MoreTables(b, g, g', cs, cs');
    case Rep(b, _, _, _) => MoreTables(b, g, g', cs, cs');
    case _ =>
  }

  function ReadAtom(pat: string, i: nat, groups: nat, classes: seq<CharClass>): (r: Reading)
    requires 1 <= groups <= MAX_GROUPS && i <= |pat|
    ensures Advances(r, pat, i, groups, classes)
    ensures r.Good? ==> i < r.i
    decreases |pat| - i, 0, 0
  {
    if i >= |pat| then Bad
    else
      var c := pat[i];
      if c == '(' then
        if i + 2 < |pat| && pat[i + 1] == '?' && pat[i + 2] == ':' then
          ReadClose(pat, ReadAlt(pat, i + 3, groups, classes))
        else if groups >= MAX_GROUPS then Bad
        else
          match ReadClose(pat, ReadAlt(pat, i + 1, groups + 1, classes))
          case Bad => Bad
          case Good(re, j, g, cs) => Good(Group(groups, re), j, g, cs)
      else if c == '^' then Good(Bol, i + 1, groups, classes)
      else if c == '$' then Good(Eol, i + 1, groups, classes)
      else if c == '.' then Good(Any, i + 1, groups, classes)
      else if c == '[' then
        var negate := i + 1 < |pat| && pat[i + 1] == '^';
        match ReadClassBody(pat, if negate then i + 2 else i + 1, true, [])
        case BadRanges(_) => Bad
        case Ranges(rs, j) => AddClass(CharClass(negate, rs), j, groups, classes)
      else if c == '\\' then
        if i + 1 >= |pat| then Bad else ReadEscape(pat[i + 1], i + 2, groups, classes)
      else if c == '*' || c == '+' || c == '?' || c == ')' then Bad
      else Good(Chr(c), i + 1, groups, classes)
  }

  function ReadClose(pat: string, r: Reading): (r': Reading)
    ensures r'.Good? ==> r.Good? && r.i < |pat| && r' == r.(i := r.i + 1)
  {
    if r.Good? && r.i < |pat| && pat[r.i] == ')' then r.(i := r.i + 1) else Bad
  }

  function ReadPiece(pat: string, i: nat, groups: nat, classes: seq<CharClass>): (r: Reading)
    requires 1 <= groups <= MAX_GROUPS && i <= |pat|
    ensures Advances(r, pat, i, groups, classes)
    ensures r.Good? ==> i < r.i
    decreases |pat| - i, 1, 0
  {
    match ReadAtom(pat, i, groups, classes)
    case Bad => Bad
    case Good(re, j, g, cs) =>
      match ReadQuantifier(pat, j)
      case NoQuantifier => Good(re, j, g, cs)
      case OutOfRange => Bad
      case Quantifier(lo, extra, lazy, k) => Good(Rep(re, lo, extra, lazy), k, g, cs)
  }

  /** Pieces up to a bar, a closing parenthesis or the end, appended to `left`. */
  function ReadSeq(pat: string, i: nat, groups: nat, classes: seq<CharClass>, left: Re): (r: Reading)
    requires 1 <= groups <= MAX_GROUPS && i <= |pat|
    requires WellFormed(left, groups) && ClassesIn(left, classes)
    ensures Advances(r, pat, i, groups, classes)
    decreases |pat| - i, 2, 0
  {
    if i < |pat| && pat[i] != '|' && pat[i] != ')' then
      match ReadPiece(pat, i, groups, classes)
      case Bad => Bad
      case Good(re, j, g, cs) =>
        MoreTables(left, groups, g, classes, cs);
        ReadSeq(pat, j, g, cs, Cat(left, re))
    else Good(left, i, groups, classes)
  }

  function ReadAlt(pat: string, i: nat, groups: nat, classes: seq<CharClass>): (r: Reading)
    requires 1 <= groups <= MAX_GROUPS && i <= |pat|
    ensures Advances(r, pat, i, groups, classes)
    decreases |pat| - i, 4, 0
  {
    match ReadSeq(pat, i, groups, classes, Empty)
    case Bad => Bad
    case Good(re, j, g, cs) => ReadBars(pat, j, g, cs, re)
  }

  /** Further alternatives, to the right of `left`. */
  function ReadBars(pat: string, i: nat, groups: nat, classes: seq<CharClass>, left: Re): (r: Reading)
    requires 1 <= groups <= MAX_GROUPS && i <= |pat|
    requires WellFormed(left, groups) && ClassesIn(left, classes)
    ensures Advances(r, pat, i, groups, classes)
    decreases |pat| - i, 3, 0
  {
    if i < |pat| && pat[i] == '|' then
      match ReadSeq(pat, i + 1, groups, classes, Empty)
      case Bad => Bad
      case Good(re, j, g, cs) =>
        MoreTables(left, groups, g, classes, cs);
        ReadBars(pat, j, g, cs, RegexMeaning.Alt(left, re))
    else Good(left, i, groups, classes)
  }

  /** The tree of a whole pattern. */
  function ReadPattern(pat: string): (r: Reading)
    ensures Advances(r, pat, 0, 1, [])
  {
    var r := ReadAlt(pat, 0, 1, []);
    if r.Good? && r.i < |pat| then Bad else r
  }

  // ---------------------------------------------------------------- code of a tree

  /** `k` times `len`, by addition. */
  function Scale(k: nat, len: nat): nat {
    if k == 0 then 0 else Scale(k - 1, len) + len
  }

  function TailLen(body: nat, extra: Limit): nat {
    if extra.Unbounded? then body + 2 else Scale(extra.n, body + 1)
  }

  function Branch(lazy: bool, body: nat, end: nat): Inst {
    if lazy then SPLIT(end, body) else SPLIT(body, end)
  }

  function AltCode(a: seq<Inst>, b: seq<Inst>, base: nat): (code: seq<Inst>)
    ensures |code| == |a| + |b| + 2
  {
    [SPLIT(base + 1, base + |a| + 2)] + a + [JMP(base + |a| + 2 + |b|)] + b
  }

  function GroupCode(n: nat, b: seq<Inst>): (code: seq<Inst>)
    ensures |code| == |b| + 2
  {
    [SAVE(2 * n)] + b + [SAVE(2 * n + 1)]
  }

  function StarCode(lazy: bool, b: seq<Inst>, base: nat): (code: seq<Inst>)
    ensures |code| == |b| + 2
  {
    [Branch(lazy, base + 1, base + 2 + |b|)] + b + [JMP(base)]
  }

  /** An instruction moved by `delta`: branch targets are absolute and move along, capture slots do not. */
  function Moved(i: Inst, delta: nat): Inst {
    match i
    case SPLIT(x, y) => SPLIT(x + delta, y + delta)
    case JMP(x) => JMP(x + delta)
    case _ => i
  }

  function MoveAll(code: seq<Inst>, delta: nat): (moved: seq<Inst>)
    ensures |moved| == |code|
  {
    seq(|code|, k requires 0 <= k < |code| => Moved(code[k], delta))
  }

  /** `k` copies of `body` one after the other, the first one in place. */
  function Copies(body: seq<Inst>, k: nat): (code: seq<Inst>)
    ensures |code| == Scale(k, |body|)
  {
    if k == 0 then [] else Copies(body, k - 1) + MoveAll(body, Scale(k - 1, |body|))
  }

  /** `k` optional copies of `body` from `base` on, each with a way out to `end`. */
  function Optional(lazy: bool, body: seq<Inst>, k: nat, base: nat, end: nat): (code: seq<Inst>)
    ensures |code| == Scale(k, |body| + 1)
  {
    if k == 0 then []
    else
      var at := Scale(k - 1, |body| + 1);
      Optional(lazy, body, k - 1, base, end) + [Branch(lazy, base + at + 1, end)] + MoveAll(body, at + 1)
  }

  /** The optional iterations of a quantifier whose body was compiled at `base`. */
  function Tail(body: seq<Inst>, extra: Limit, lazy: bool, base: nat): (code: seq<Inst>)
    ensures |code| == TailLen(|body|, extra)
  {
    match extra
    case Unbounded => StarCode(lazy, MoveAll(body, 1), base)
    case AtMost(k) => Optional(lazy, body, k, base, base + Scale(k, |body| + 1))
  }

  function RepCode(body: seq<Inst>, lo: nat, extra: Limit, lazy: bool, base: nat): (code: seq<Inst>)
    ensures |code| == Scale(lo, |body|) + TailLen(|body|, extra)
  {
    var done := Scale(lo, |body|);
    Copies(body, lo) + Tail(MoveAll(body, done), extra, lazy, base + done)
  }

  /** The code of `re` placed at address `base`. */
  function Emit(re: Re, base: nat): seq<Inst> {
    match re
    case Empty => []
    case Chr(c) => [CHAR(c)]
    case Any => [ANY]
    case Cls(k, _) => [CLASS(k)]
    case Bol => [BOL]
    case Eol => [EOL]
    case Cat(a, b) => var x := Emit(a, base); x + Emit(b, base + |x|)
    case Alt(a, b) => var x := Emit(a, base + 1); AltCode(x, Emit(b, base + |x| + 2), base)
    case Group(n, b) => GroupCode(n, Emit(b, base + 1))
    case Rep(b, lo, extra, lazy) => RepCode(Emit(b, base), lo, extra, lazy, base)
  }

  /** The program of a pattern. */
  function Program(re: Re): seq<Inst> {
    [SAVE(0)] + Emit(re, 1) + [SAVE(1), MATCH]
  }

  // ---------------------------------------------------------------- relocation

  lemma MoveConcat(a: seq<Inst>, b: seq<Inst>, delta: nat)
    ensures MoveAll(a + b, delta) == MoveAll(a, delta) + MoveAll(b, delta)
  {
    var l, r := MoveAll(a + b, delta), MoveAll(a, delta) + MoveAll(b, delta);
    forall k | 0 <= k < |l| ensures l[k] == r[k] {
      if k >= |a| { assert (a + b)[k] == b[k - |a|]; }
    }
  }

  lemma MoveTwice(code: seq<Inst>, d1: nat, d2: nat)
    ensures MoveAll(MoveAll(code, d1), d2) == MoveAll(code, d1 + d2)
  {
  }

  /** Moving a fragment gives the code of the same tree at the new address. */
  lemma {:induction false} EmitMoves(re: Re, base: nat, delta: nat)
    ensures MoveAll(Emit(re, base), delta) == Emit(re, base + delta)
    decreases re, 1
  {
    match re
    case Cat(_, _) => CatMoves(re, base, delta);
    case Alt(_, _) => AltMoves(re, base, delta);
    case Group(_, _) => GroupMoves(re, base, delta);
    case Rep(_, _, _, _) => RepMoves(re, base, delta);
    case _ =>
  }

  lemma EmitCat(re: Re, base: nat)
    requires re.Cat?
    ensures var x := Emit(re.first, base); Emit(re, base) == x + Emit(re.second, base + |x|)
  {
  }

  lemma EmitAlt(re: Re, base: nat)
    requires re.Alt?
    ensures var x := Emit(re.left, base + 1);
      Emit(re, base) == AltCode(x, Emit(re.right, base + |x| + 2), base)
  {
  }

  lemma {:induction false} CatMoves(re: Re, base: nat, delta: nat)
    requires re.Cat?
    ensures MoveAll(Emit(re, base), delta) == Emit(re, base + delta)
    decreases re, 0
  {
    hide Emit, MoveAll;
    var x := Emit(re.first, base);
    EmitCat(re, base);
    EmitCat(re, base + delta);
    EmitMoves(re.first, base, delta);
    EmitMoves(re.second, base + |x|, delta);
    MoveConcat(x, Emit(re.second, base + |x|), delta);
    assert base + |x| + delta == base + delta + |x|;
  }

  lemma {:induction false} AltMoves(re: Re, base: nat, delta: nat)
    requires re.Alt?
    ensures MoveAll(Emit(re, base), delta) == Emit(re, base + delta)
    decreases re, 0
  {
    hide Emit, MoveAll, AltCode;
    var x := Emit(re.left, base + 1);
    EmitAlt(re, base);
    EmitAlt(re, base + delta);
    EmitMoves(re.left, base + 1, delta);
    EmitMoves(re.right, base + |x| + 2, delta);
    AltCodeMoves(x, Emit(re.right, base + |x| + 2), base, delta);
    assert base + 1 + delta == base + delta + 1;
    assert base + |x| + 2 + delta == base + delta + |x| + 2;
  }

  lemma {:induction false} GroupMoves(re: Re, base: nat, delta: nat)
    requires re.Group?
    ensures MoveAll(Emit(re, base), delta) == Emit(re, base + delta)
    decreases re, 0
  {
    EmitMoves(re.body, base + 1, delta);
    GroupCodeMoves(re.n, Emit(re.body, base + 1), delta);
    assert base + 1 + delta == base + delta + 1;
  }

  lemma {:induction false} RepMoves(re: Re, base: nat, delta: nat)
    requires re.Rep?
    ensures MoveAll(Emit(re, base), delta) == Emit(re, base + delta)
    decreases re, 0
  {
    EmitMoves(re.body, base, delta);
    RepCodeMoves(Emit(re.body, base), re.lo, re.extra, re.lazy, base, delta);
  }

  lemma AltCodeMoves(a: seq<Inst>, b: seq<Inst>, base: nat, delta: nat)
    ensures MoveAll(AltCode(a, b, base), delta) == AltCode(MoveAll(a, delta), MoveAll(b, delta), base + delta)
  {
    var s, j := [SPLIT(base + 1, base + |a| + 2)], [JMP(base + |a| + 2 + |b|)];
    MoveConcat(s + a + j, b, delta);
    MoveConcat(s + a, j, delta);
    MoveConcat(s, a, delta);
  }

  lemma GroupCodeMoves(n: nat, b: seq<Inst>, delta: nat)
    ensures MoveAll(GroupCode(n, b), delta) == GroupCode(n, MoveAll(b, delta))
  {
    MoveConcat([SAVE(2 * n)] + b, [SAVE(2 * n + 1)], delta);
    MoveConcat([SAVE(2 * n)], b, delta);
  }

  lemma RepCodeMoves(body: seq<Inst>, lo: nat, extra: Limit, lazy: bool, base: nat, delta: nat)
    ensures MoveAll(RepCode(body, lo, extra, lazy, base), delta)
            == RepCode(MoveAll(body, delta), lo, extra, lazy, base + delta)
  {
    hide MoveAll, Copies, Tail, Scale;
    var done := Scale(lo, |body|);
    CopiesMove(body, lo, delta);
    TailMoves(MoveAll(body, done), extra, lazy, base + done, delta);
    MoveTwice(body, done, delta);
    MoveTwice(body, delta, done);
    assert base + done + delta == base + delta + done;
    assert done + delta == delta + done;
    MoveConcat(Copies(body, lo), Tail(MoveAll(body, done), extra, lazy, base + done), delta);
  }

  lemma {:induction false} CopiesMove(body: seq<Inst>, k: nat, delta: nat)
    ensures MoveAll(Copies(body, k), delta) == Copies(MoveAll(body, delta), k)
  {
    if k > 0 {
      var at := Scale(k - 1, |body|);
      CopiesMove(body, k - 1, delta);
      MoveConcat(Copies(body, k - 1), MoveAll(body, at), delta);
      MoveTwice(body, at, delta);
      MoveTwice(body, delta, at);
    }
  }

  lemma TailMoves(body: seq<Inst>, extra: Limit, lazy: bool, base: nat, delta: nat)
    ensures MoveAll(Tail(body, extra, lazy, base), delta) == Tail(MoveAll(body, delta), extra, lazy, base + delta)
  {
    match extra
    case Unbounded =>
      MoveTwice(body, 1, delta);
      MoveTwice(body, delta, 1);
      var head, back := [Branch(lazy, base + 1, base + 2 + |body|)], [JMP(base)];
      MoveConcat(head + MoveAll(body, 1), back, delta);
      MoveConcat(head, MoveAll(body, 1), delta);
    case AtMost(k) =>
      OptionalMoves(lazy, body, k, base, base + Scale(k, |body| + 1), delta);
  }

  lemma OneBranchMoves(lazy: bool, at: nat, end: nat, delta: nat)
    ensures MoveAll([Branch(lazy, at + 1, end)], delta) == [Branch(lazy, at + delta + 1, end + delta)]
  {
  }

  lemma {:induction false} OptionalMoves(lazy: bool, body: seq<Inst>, k: nat, base: nat, end: nat, delta: nat)
    ensures MoveAll(Optional(lazy, body, k, base, end), delta)
            == Optional(lazy, MoveAll(body, delta), k, base + delta, end + delta)
  {
    hide MoveAll, Branch;
    if k > 0 {
      OneBranchMoves(lazy, base + Scale(k - 1, |body| + 1), end, delta);
      var at := Scale(k - 1, |body| + 1);
      var before, head := Optional(lazy, body, k - 1, base, end), [Branch(lazy, base + at + 1, end)];
      OptionalMoves(lazy, body, k - 1, base, end, delta);
      MoveTwice(body, at + 1, delta);
      MoveTwice(body, delta, at + 1);
      MoveConcat(before + head, MoveAll(body, at + 1), delta);
      MoveConcat(before, head, delta);
    }
  }

  // ---------------------------------------------------------------- pieces by position

  lemma SliceOfPrefix(a: seq<Inst>, b: seq<Inst>, i: nat, j: nat)
    requires i <= j <= |a|
    ensures (a + b)[i..j] == a[i..j]
  {
  }

  /** The `j`-th mandatory copy sits `j` body lengths in. */
  lemma {:induction false} CopiesAt(body: seq<Inst>, k: nat, j: nat)
    requires j < k
    ensures Scale(j + 1, |body|) <= Scale(k, |body|)
    ensures Copies(body, k)[Scale(j, |body|)..Scale(j + 1, |body|)] == MoveAll(body, Scale(j, |body|))
    decreases k
  {
    hide MoveAll;
    if j < k - 1 {
      CopiesAt(body, k - 1, j);
      SliceOfPrefix(Copies(body, k - 1), MoveAll(body, Scale(k - 1, |body|)), Scale(j, |body|), Scale(j + 1, |body|));
    }
  }

  lemma OptionalGrows(lazy: bool, body: seq<Inst>, k: nat, base: nat, end: nat)
    requires k > 0
    ensures var at := Scale(k - 1, |body| + 1);
      Optional(lazy, body, k, base, end)
      == Optional(lazy, body, k - 1, base, end) + ([Branch(lazy, base + at + 1, end)] + MoveAll(body, at + 1))
  {
  }

  /** The `j`-th optional copy: its branch, then its body. */
  lemma {:induction false} OptionalAt(lazy: bool, body: seq<Inst>, k: nat, base: nat, end: nat, j: nat)
    requires j < k
    ensures var at := Scale(j, |body| + 1);
      && Scale(j + 1, |body| + 1) == at + 1 + |body| <= Scale(k, |body| + 1)
      && Optional(lazy, body, k, base, end)[at] == Branch(lazy, base + at + 1, end)
      && Optional(lazy, body, k, base, end)[at + 1..at + 1 + |body|] == MoveAll(body, at + 1)
    decreases k
  {
    hide MoveAll, Branch, Optional;
    OptionalGrows(lazy, body, k, base, end);
    var done := Scale(k - 1, |body| + 1);
    var last := [Branch(lazy, base + done + 1, end)] + MoveAll(body, done + 1);
    if j < k - 1 {
      OptionalAt(lazy, body, k - 1, base, end, j);
      var from := Scale(j, |body| + 1) + 1;
      SliceOfPrefix(Optional(lazy, body, k - 1, base, end), last, from, from + |body|);
    }
  }

  // ---------------------------------------------------------------- branches stay inside

  /** Every branch of `code`, placed at `base`, stays inside it or goes to `end`, at or past its
      last address; only a jump back to a SPLIT goes backwards; and every
      operand is in the capture table or among the `nc` classes. */
  ghost predicate Closed(code: seq<Inst>, base: nat, end: nat, nc: nat) {
    base + |code| <= end && forall k: nat :: k < |code| ==> ClosedAt(code, base, end, k, nc)
  }

  ghost predicate Inside(t: nat, base: nat, len: nat, end: nat) {
    base <= t <= base + len || t == end
  }

  ghost predicate ClosedAt(code: seq<Inst>, base: nat, end: nat, k: nat, nc: nat)
    requires k < |code|
  {
    match code[k]
    case SPLIT(x, y) => Inside(x, base, |code|, end) && Inside(y, base, |code|, end)
    case JMP(x) => Inside(x, base, |code|, end) && (x > base + k || (base <= x && code[x - base].SPLIT?))
    case MATCH => false
    case SAVE(slot) => slot < CAP_SLOTS
    case CLASS(idx) => idx < nc
    case _ => true
  }

  /** A closed piece inside larger code is closed there. */
  lemma PieceClosed(code: seq<Inst>, base: nat, end: nat, off: nat, piece: seq<Inst>, end': nat, nc: nat)
    requires off + |piece| <= |code| && code[off..off + |piece|] == piece
    requires Closed(piece, base + off, end', nc)
    requires base + |code| <= end
    requires Inside(end', base, |code|, end)
    ensures forall k: nat :: off <= k < off + |piece| ==> ClosedAt(code, base, end, k, nc)
  {
    forall k: nat | off <= k < off + |piece| ensures ClosedAt(code, base, end, k, nc) {
      assert code[k] == piece[k - off] && ClosedAt(piece, base + off, end', k - off, nc);
      if code[k].JMP? && code[k].target <= base + k {
        assert code[code[k].target - base] == piece[code[k].target - (base + off)];
      }
    }
  }

  lemma MovedClosed(code: seq<Inst>, base: nat, end: nat, delta: nat, nc: nat)
    requires Closed(code, base, end, nc)
    ensures Closed(MoveAll(code, delta), base + delta, end + delta, nc)
  {
    var c := MoveAll(code, delta);
    var base', end' := base + delta, end + delta;
    forall k: nat | k < |c| ensures ClosedAt(c, base', end', k, nc) {
      assert ClosedAt(code, base, end, k, nc);
      if code[k].JMP? && code[k].target <= base + k {
        assert c[c[k].target - base'] == Moved(code[code[k].target - base], delta);
      }
    }
  }

  ghost predicate ClosedCode(code: seq<Inst>, base: nat, nc: nat) { Closed(code, base, base + |code|, nc) }

  lemma {:induction false} EmitClosed(re: Re, base: nat, classes: seq<CharClass>)
    requires WellFormed(re, MAX_GROUPS) && ClassesIn(re, classes)
    ensures ClosedCode(Emit(re, base), base, |classes|)
  {
    hide ClosedCode, AltCode, GroupCode, RepCode;
    match re
    case Cat(a, b) =>
      var x := Emit(a, base);
      EmitClosed(a, base, classes);
      EmitClosed(b, base + |x|, classes);
      ConcatClosed(x, Emit(b, base + |x|), base, |classes|);
    case Alt(a, b) =>
      var x := Emit(a, base + 1);
      EmitClosed(a, base + 1, classes);
      EmitClosed(b, base + |x| + 2, classes);
      AltClosed(x, Emit(b, base + |x| + 2), base, |classes|);
    case Group(n, b) =>
      EmitClosed(b, base + 1, classes);
      GroupClosed(n, Emit(b, base + 1), base, |classes|);
    case Rep(b, lo, extra, lazy) =>
      EmitClosed(b, base, classes);
      RepClosed(Emit(b, base), lo, extra, lazy, base, |classes|);
    case _ => LeafClosed(re, base, classes);
  }

  lemma LeafClosed(re: Re, base: nat, classes: seq<CharClass>)
    requires !re.Cat? && !re.Alt? && !re.Group? && !re.Rep? && ClassesIn(re, classes)
    ensures ClosedCode(Emit(re, base), base, |classes|)
  {
  }

  lemma ConcatClosed(a: seq<Inst>, b: seq<Inst>, base: nat, nc: nat)
    requires ClosedCode(a, base, nc) && ClosedCode(b, base + |a|, nc)
    ensures ClosedCode(a + b, base, nc)
  {
    assert (a + b)[0..|a|] == a && (a + b)[|a|..|a| + |b|] == b;
    PieceClosed(a + b, base, base + |a| + |b|, 0, a, base + |a|, nc);
    PieceClosed(a + b, base, base + |a| + |b|, |a|, b, base + |a| + |b|, nc);
  }

  lemma AltClosed(a: seq<Inst>, b: seq<Inst>, base: nat, nc: nat)
    requires ClosedCode(a, base + 1, nc) && ClosedCode(b, base + |a| + 2, nc)
    ensures ClosedCode(AltCode(a, b, base), base, nc)
  {
    var code := AltCode(a, b, base);
    PieceClosed(code, base, base + |code|, 1, a, base + 1 + |a|, nc);
    PieceClosed(code, base, base + |code|, |a| + 2, b, base + |code|, nc);
  }

  lemma GroupClosed(n: nat, b: seq<Inst>, base: nat, nc: nat)
    requires ClosedCode(b, base + 1, nc) && n < MAX_GROUPS
    ensures ClosedCode(GroupCode(n, b), base, nc)
  {
    PieceClosed(GroupCode(n, b), base, base + |b| + 2, 1, b, base + 1 + |b|, nc);
  }

  lemma RepClosed(body: seq<Inst>, lo: nat, extra: Limit, lazy: bool, base: nat, nc: nat)
    requires ClosedCode(body, base, nc)
    ensures ClosedCode(RepCode(body, lo, extra, lazy, base), base, nc)
  {
    var done := Scale(lo, |body|);
    CopiesClosed(body, lo, base, nc);
    MovedClosed(body, base, base + |body|, done, nc);
    TailClosed(MoveAll(body, done), extra, lazy, base + done, nc);
    ConcatClosed(Copies(body, lo), Tail(MoveAll(body, done), extra, lazy, base + done), base, nc);
  }

  lemma {:induction false} CopiesClosed(body: seq<Inst>, k: nat, base: nat, nc: nat)
    requires ClosedCode(body, base, nc)
    ensures ClosedCode(Copies(body, k), base, nc)
  {
    if k > 0 {
      var at := Scale(k - 1, |body|);
      CopiesClosed(body, k - 1, base, nc);
      MovedClosed(body, base, base + |body|, at, nc);
      ConcatClosed(Copies(body, k - 1), MoveAll(body, at), base, nc);
    }
  }

  lemma TailClosed(body: seq<Inst>, extra: Limit, lazy: bool, base: nat, nc: nat)
    requires ClosedCode(body, base, nc)
    ensures ClosedCode(Tail(body, extra, lazy, base), base, nc)
  {
    match extra
    case Unbounded =>
      MovedClosed(body, base, base + |body|, 1, nc);
      PieceClosed(Tail(body, extra, lazy, base), base, base + 2 + |body|, 1, MoveAll(body, 1), base + 1 + |body|, nc);
    case AtMost(k) =>
      OptionalClosed(lazy, body, k, base, base + Scale(k, |body| + 1), nc);
  }

  lemma {:induction false} OptionalClosed(lazy: bool, body: seq<Inst>, k: nat, base: nat, end: nat, nc: nat)
    requires ClosedCode(body, base, nc)
    requires end >= base + Scale(k, |body| + 1)
    ensures Closed(Optional(lazy, body, k, base, end), base, end, nc)
  {
    if k > 0 {
      var at, code := Scale(k - 1, |body| + 1), Optional(lazy, body, k, base, end);
      OptionalClosed(lazy, body, k - 1, base, end, nc);
      MovedClosed(body, base, base + |body|, at + 1, nc);
      PieceClosed(code, base, end, 0, Optional(lazy, body, k - 1, base, end), end, nc);
      PieceClosed(code, base, end, at + 1, MoveAll(body, at + 1), base + at + 1 + |body|, nc);
      assert code[at] == Branch(lazy, base + at + 1, end);
      assert ClosedAt(code, base, end, at, nc);
    }
  }

  // ---------------------------------------------------------------- group numbers

  predicate GroupsFrom(re: Re, lo: nat) {
    match re
    case Cat(a, b) => GroupsFrom(a, lo) && GroupsFrom(b, lo)
    case Alt(a, b) => GroupsFrom(a, lo) && GroupsFrom(b, lo)
    case Group(n, b) => lo <= n && GroupsFrom(b, lo)
    case Rep(b, _, _, _) => GroupsFrom(b, lo)
    case _ => true
  }

  lemma {:induction false} NotBelow(re: Re, lo: nat, g: nat)
    requires GroupsFrom(re, lo) && g < lo
    ensures !InGroup(re, g)
  {
    match re
    case Cat(a, b) => NotBelow(a, lo, g); NotBelow(b, lo, g);
    case Alt(a, b) => NotBelow(a, lo, g); NotBelow(b, lo, g);
    case Group(n, b) => NotBelow(b, lo, g);
    case Rep(b, _, _, _) => NotBelow(b, lo, g);
    case _ =>
  }

  ghost predicate FreshGroups(re: Re, lo: nat) { GroupsFrom(re, lo) && Distinct(re) }

  /** Groups are numbered as they open, so no group contains its own number. */
  lemma {:induction false} ReadAltGroups(pat: string, i: nat, groups: nat, classes: seq<CharClass>, lo: nat)
    requires 1 <= groups <= MAX_GROUPS && i <= |pat| && lo <= groups
    ensures var r := ReadAlt(pat, i, groups, classes); r.Good? ==> FreshGroups(r.re, lo)
    decreases |pat| - i, 4, 0
  {
    ReadSeqGroups(pat, i, groups, classes, Empty, lo);
    match ReadSeq(pat, i, groups, classes, Empty)
    case Bad =>
    case Good(re, j, g, cs) => ReadBarsGroups(pat, j, g, cs, re, lo);
  }

  lemma {:induction false} ReadBarsGroups(pat: string, i: nat, groups: nat, classes: seq<CharClass>, left: Re, lo: nat)
    requires 1 <= groups <= MAX_GROUPS && i <= |pat| && lo <= groups
    requires WellFormed(left, groups) && ClassesIn(left, classes) && FreshGroups(left, lo)
    ensures var r := ReadBars(pat, i, groups, classes, left); r.Good? ==> FreshGroups(r.re, lo)
    decreases |pat| - i, 3, 0
  {
    if i < |pat| && pat[i] == '|' {
      ReadSeqGroups(pat, i + 1, groups, classes, Empty, lo);
      match ReadSeq(pat, i + 1, groups, classes, Empty)
      case Bad =>
      case Good(re, j, g, cs) =>
        MoreTables(left, groups, g, classes, cs);
        ReadBarsGroups(pat, j, g, cs, RegexMeaning.Alt(left, re), lo);
    }
  }

  lemma {:induction false} ReadSeqGroups(pat: string, i: nat, groups: nat, classes: seq<CharClass>, left: Re, lo: nat)
    requires 1 <= groups <= MAX_GROUPS && i <= |pat| && lo <= groups
    requires WellFormed(left, groups) && ClassesIn(left, classes) && FreshGroups(left, lo)
    ensures var r := ReadSeq(pat, i, groups, classes, left); r.Good? ==> FreshGroups(r.re, lo)
    decreases |pat| - i, 2, 0
  {
    if i < |pat| && pat[i] != '|' && pat[i] != ')' {
      ReadAtomGroups(pat, i, groups, classes, lo);
      match ReadPiece(pat, i, groups, classes)
      case Bad =>
      case Good(re, j, g, cs) =>
        MoreTables(left, groups, g, classes, cs);
        ReadSeqGroups(pat, j, g, cs, Cat(left, re), lo);
    }
  }

  lemma {:induction false} ReadAtomGroups(pat: string, i: nat, groups: nat, classes: seq<CharClass>, lo: nat)
    requires 1 <= groups <= MAX_GROUPS && i <= |pat| && lo <= groups
    ensures var r := ReadAtom(pat, i, groups, classes); r.Good? ==> FreshGroups(r.re, lo)
    decreases |pat| - i, 0, 0
  {
    if i < |pat| && pat[i] == '(' {
      if i + 2 < |pat| && pat[i + 1] == '?' && pat[i + 2] == ':' {
        ReadAltGroups(pat, i + 3, groups, classes, lo);
      } else if groups < MAX_GROUPS {
        ReadAltGroups(pat, i + 1, groups + 1, classes, lo);
        ReadAltGroups(pat, i + 1, groups + 1, classes, groups + 1);
        var r := ReadAlt(pat, i + 1, groups + 1, classes);
        if r.Good? { NotBelow(r.re, groups + 1, groups); }
      }
    }
  }
}
