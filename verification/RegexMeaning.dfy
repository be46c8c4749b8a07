/** What a regular expression means, stated three ways.

 - `Means` is the classical relation: the text from `i` up to `j` is in the language of `re`.
 - `Interp` reads a list of decisions instead of searching.  Every place where a backtracking
   matcher has a choice (an alternative, one more iteration of a quantifier) consumes one
   decision; `true` is the branch the matcher tries first.  It also tracks the captures.
 - The order on decision lists (`Before`) is the priority order of the matcher.

 A `char` stands for one byte of the pattern or of the text. */
module RegexMeaning {

  // Captures: slot 2n is where group n starts, slot 2n+1 where it ends; -1 is "unset".
  const MAX_GROUPS := 10
  const CAP_SLOTS := 2 * MAX_GROUPS
  type Caps = s: seq<int> | |s| == CAP_SLOTS witness seq(CAP_SLOTS, _ => -1)

  function NoCaps(): (c: Caps)
    ensures forall k :: 0 <= k < CAP_SLOTS ==> c[k] == -1
  {
    seq(CAP_SLOTS, _ => -1)
  }

  datatype CharClass = CharClass(negate: bool, ranges: seq<(char, char)>)

  ghost predicate InRanges(rs: seq<(char, char)>, c: char) {
    exists k :: 0 <= k < |rs| && rs[k].0 <= c <= rs[k].1
  }

  ghost predicate ClassHas(cc: CharClass, c: char) {
    if cc.negate then !InRanges(cc.ranges, c) else InRanges(cc.ranges, c)
  }

  /** Number of bytes of the code point a lead byte announces. */
  function Utf8CharLen(lead: char): (n: nat)
    ensures 1 <= n <= 4
  {
    var b := lead as int;
    if b < 0x80 then 1
    else if 0xC0 <= b < 0xE0 then 2
    else if 0xE0 <= b < 0xF0 then 3
    else if 0xF0 <= b < 0xF8 then 4
    else 1
  }

  /** How many optional iterations a quantifier allows after its mandatory ones. */
  datatype Limit = Unbounded | AtMost(n: nat) {
    predicate Allows(m: nat) { Unbounded? || m <= n }
    function Less(): Limit { if AtMost? && n > 0 then AtMost(n - 1) else this }
  }

  /** Syntax trees.  `Cls` also remembers its index in the class table of the program. */
  datatype Re =
    | Empty
    | Chr(c: char)
    | Any
    | Cls(idx: nat, cc: CharClass)
    | Bol
    | Eol
    | Cat(first: Re, second: Re)
    | Alt(left: Re, right: Re)
    | Group(n: nat, body: Re)
    | Rep(body: Re, lo: nat, extra: Limit, lazy: bool)   // `lo` iterations, then `extra` optional ones

  /** Capture groups are numbered from 1, below `groups`. */
  predicate WellFormed(re: Re, groups: nat) {
    match re
    case Cat(a, b) => WellFormed(a, groups) && WellFormed(b, groups)
    case Alt(a, b) => WellFormed(a, groups) && WellFormed(b, groups)
    case Group(n, b) => 1 <= n < groups && WellFormed(b, groups)
    case Rep(b, _, _, _) => WellFormed(b, groups)
    case _ => true
  }

  // ---------------------------------------------------------------- classical meaning

  ghost predicate Means(re: Re, text: string, i: nat, j: nat)
    decreases re, 0, 0
  {
    match re
    case Empty => i == j
    case Chr(c) => i < |text| && text[i] == c && j == i + 1
    case Any => i < |text| && text[i] != '\n' && j == i + Utf8CharLen(text[i]) && j <= |text|
    case Cls(_, cc) => i < |text| && ClassHas(cc, text[i]) && j == i + 1
    case Bol => i == 0 && j == 0
    case Eol => i == |text| && j == i
    case Cat(a, b) => exists k: nat :: Means(a, text, i, k) && Means(b, text, k, j)
    case Alt(a, b) => Means(a, text, i, j) || Means(b, text, i, j)
    case Group(_, b) => Means(b, text, i, j)
    case Rep(b, lo, extra, _) => exists n: nat :: lo <= n && extra.Allows(n - lo) && Power(b, n, text, i, j)
  }

  /** `n` consecutive matches of `re`. */
  ghost predicate Power(re: Re, n: nat, text: string, i: nat, j: nat)
    decreases re, 1, n
  {
    if n == 0 then i == j
    else exists k: nat :: Means(re, text, i, k) && Power(re, n - 1, text, k, j)
  }

  // ---------------------------------------------------------------- meaning by decisions

  datatype Outcome = NoMatch | Ok(sp: nat, caps: Caps, ds: seq<bool>)

  /** Follows the decisions `ds`; a successful outcome says where the match ends, the captures
      then, and the decisions not used. */
  ghost function Interp(re: Re, text: string, sp: nat, caps: Caps, ds: seq<bool>): (o: Outcome)
    requires WellFormed(re, MAX_GROUPS)
    ensures o.Ok? ==> |o.ds| <= |ds|
    decreases |ds|, re, 0, 0
  {
    match re
    case Empty => Ok(sp, caps, ds)
    case Chr(c) => if sp < |text| && text[sp] == c then Ok(sp + 1, caps, ds) else NoMatch
    case Any =>
      if sp < |text| && text[sp] != '\n' && sp + Utf8CharLen(text[sp]) <= |text|
      then Ok(sp + Utf8CharLen(text[sp]), caps, ds) else NoMatch
    case Cls(_, cc) => if sp < |text| && ClassHas(cc, text[sp]) then Ok(sp + 1, caps, ds) else NoMatch
    case Bol => if sp == 0 then Ok(sp, caps, ds) else NoMatch
    case Eol => if sp == |text| then Ok(sp, caps, ds) else NoMatch
    case Cat(a, b) =>
      (match Interp(a, text, sp, caps, ds)
       case NoMatch => NoMatch
       case Ok(sp1, caps1, ds1) => Interp(b, text, sp1, caps1, ds1))
    case Alt(a, b) =>
      if ds == [] then NoMatch
      else if ds[0] then Interp(a, text, sp, caps, ds[1..])
      else Interp(b, text, sp, caps, ds[1..])
    case Group(n, b) =>
      (match Interp(b, text, sp, caps[2 * n := sp], ds)
       case NoMatch => NoMatch
       case Ok(sp1, caps1, ds1) => Ok(sp1, caps1[2 * n + 1 := sp1], ds1))
    case Rep(b, lo, extra, lazy) =>
      (match Times(b, lo, text, sp, caps, ds)
       case NoMatch => NoMatch
       case Ok(sp1, caps1, ds1) => More(b, extra, lazy, text, sp1, caps1, ds1))
  }

  /** `k` mandatory iterations. */
  ghost function Times(re: Re, k: nat, text: string, sp: nat, caps: Caps, ds: seq<bool>): (o: Outcome)
    requires WellFormed(re, MAX_GROUPS)
    ensures o.Ok? ==> |o.ds| <= |ds|
    decreases |ds|, re, 1, k
  {
    if k == 0 then Ok(sp, caps, ds)
    else
      match Interp(re, text, sp, caps, ds)
      case NoMatch => NoMatch
      case Ok(sp1, caps1, ds1) => Times(re, k - 1, text, sp1, caps1, ds1)
  }

  /** Up to `left` optional iterations , one decision before each.  The first
      choice is to iterate again when greedy and to stop when lazy. */
  ghost function More(re: Re, left: Limit, lazy: bool, text: string, sp: nat, caps: Caps, ds: seq<bool>): (o: Outcome)
    requires WellFormed(re, MAX_GROUPS)
    ensures o.Ok? ==> |o.ds| <= |ds|
    decreases |ds|, re, 1, 0
  {
    if left == AtMost(0) then Ok(sp, caps, ds)
    else if ds == [] then NoMatch
    else if ds[0] == lazy then Ok(sp, caps, ds[1..])
    else
      match Interp(re, text, sp, caps, ds[1..])
      case NoMatch => NoMatch
      case Ok(sp1, caps1, ds1) => More(re, left.Less(), lazy, text, sp1, caps1, ds1)
  }

  // ---------------------------------------------------------------- the two agree

  /** Decisions that a successful match does not use are handed through untouched. */
  lemma {:induction false} InterpFrame(re: Re, text: string, sp: nat, caps: Caps, ds: seq<bool>, rest: seq<bool>)
    requires WellFormed(re, MAX_GROUPS)
    requires Interp(re, text, sp, caps, ds).Ok?
    ensures var o := Interp(re, text, sp, caps, ds);
            Interp(re, text, sp, caps, ds + rest) == Ok(o.sp, o.caps, o.ds + rest)
    decreases |ds|, re, 0, 0
  {
    match re
    case Cat(a, b) =>
      var o := Interp(a, text, sp, caps, ds);
      InterpFrame(a, text, sp, caps, ds, rest);
      InterpFrame(b, text, o.sp, o.caps, o.ds, rest);
    case Alt(a, b) =>
      assert (ds + rest)[1..] == ds[1..] + rest;
      if ds[0] { InterpFrame(a, text, sp, caps, ds[1..], rest); }
      else { InterpFrame(b, text, sp, caps, ds[1..], rest); }
    case Group(n, b) =>
      InterpFrame(b, text, sp, caps[2 * n := sp], ds, rest);
    case Rep(b, lo, extra, lazy) =>
      var o := Times(b, lo, text, sp, caps, ds);
      TimesFrame(b, lo, text, sp, caps, ds, rest);
      MoreFrame(b, extra, lazy, text, o.sp, o.caps, o.ds, rest);
    case _ =>
  }

  lemma {:induction false} TimesFrame(re: Re, k: nat, text: string, sp: nat, caps: Caps, ds: seq<bool>, rest: seq<bool>)
    requires WellFormed(re, MAX_GROUPS)
    requires Times(re, k, text, sp, caps, ds).Ok?
    ensures var o := Times(re, k, text, sp, caps, ds);
            Times(re, k, text, sp, caps, ds + rest) == Ok(o.sp, o.caps, o.ds + rest)
    decreases |ds|, re, 1, k
  {
    if k != 0 {
      var o := Interp(re, text, sp, caps, ds);
      InterpFrame(re, text, sp, caps, ds, rest);
      TimesFrame(re, k - 1, text, o.sp, o.caps, o.ds, rest);
    }
  }

  lemma {:induction false} MoreFrame(re: Re, left: Limit, lazy: bool, text: string, sp: nat, caps: Caps,
                                     ds: seq<bool>, rest: seq<bool>)
    requires WellFormed(re, MAX_GROUPS)
    requires More(re, left, lazy, text, sp, caps, ds).Ok?
    ensures var o := More(re, left, lazy, text, sp, caps, ds);
            More(re, left, lazy, text, sp, caps, ds + rest) == Ok(o.sp, o.caps, o.ds + rest)
    decreases |ds|, re, 1, 0
  {
    if left != AtMost(0) {
      assert (ds + rest)[1..] == ds[1..] + rest;
      if ds[0] != lazy {
        var o := Interp(re, text, sp, caps, ds[1..]);
        InterpFrame(re, text, sp, caps, ds[1..], rest);
        MoreFrame(re, left.Less(), lazy, text, o.sp, o.caps, o.ds, rest);
      }
    }
  }

  /** Following decisions only ever finds matches. */
  lemma {:induction false} InterpSound(re: Re, text: string, sp: nat, caps: Caps, ds: seq<bool>)
    requires WellFormed(re, MAX_GROUPS)
    requires Interp(re, text, sp, caps, ds).Ok?
    ensures Means(re, text, sp, Interp(re, text, sp, caps, ds).sp)
    decreases |ds|, re, 0, 0
  {
    match re
    case Cat(a, b) =>
      var o := Interp(a, text, sp, caps, ds);
      InterpSound(a, text, sp, caps, ds);
      InterpSound(b, text, o.sp, o.caps, o.ds);
    case Alt(a, b) =>
      if ds[0] { InterpSound(a, text, sp, caps, ds[1..]); }
      else { InterpSound(b, text, sp, caps, ds[1..]); }
    case Group(n, b) =>
      InterpSound(b, text, sp, caps[2 * n := sp], ds);
    case Rep(b, lo, extra, lazy) =>
      var o := Times(b, lo, text, sp, caps, ds);
      TimesSound(b, lo, text, sp, caps, ds);
      var m := MoreSound(b, extra, lazy, text, o.sp, o.caps, o.ds);
      PowerAdd(b, lo, m, text, sp, o.sp, Interp(re, text, sp, caps, ds).sp);
      assert lo <= lo + m && extra.Allows(lo + m - lo);
    case _ =>
  }

  lemma {:induction false} TimesSound(re: Re, k: nat, text: string, sp: nat, caps: Caps, ds: seq<bool>)
    requires WellFormed(re, MAX_GROUPS)
    requires Times(re, k, text, sp, caps, ds).Ok?
    ensures Power(re, k, text, sp, Times(re, k, text, sp, caps, ds).sp)
    decreases |ds|, re, 1, k
  {
    if k != 0 {
      var o := Interp(re, text, sp, caps, ds);
      InterpSound(re, text, sp, caps, ds);
      TimesSound(re, k - 1, text, o.sp, o.caps, o.ds);
    }
  }

  lemma {:induction false} MoreSound(re: Re, left: Limit, lazy: bool, text: string, sp: nat, caps: Caps, ds: seq<bool>)
    returns (m: nat)
    requires WellFormed(re, MAX_GROUPS)
    requires More(re, left, lazy, text, sp, caps, ds).Ok?
    ensures left.Allows(m)
    ensures Power(re, m, text, sp, More(re, left, lazy, text, sp, caps, ds).sp)
    decreases |ds|, re, 1, 0
  {
    if left == AtMost(0) || ds[0] == lazy {
      m := 0;
    } else {
      var o := Interp(re, text, sp, caps, ds[1..]);
      InterpSound(re, text, sp, caps, ds[1..]);
      m := MoreSound(re, left.Less(), lazy, text, o.sp, o.caps, o.ds);
      m := m + 1;
    }
  }

  lemma {:induction false} PowerAdd(re: Re, m: nat, n: nat, text: string, i: nat, k: nat, j: nat)
    requires Power(re, m, text, i, k) && Power(re, n, text, k, j)
    ensures Power(re, m + n, text, i, j)
    decreases m
  {
    if m != 0 {
      var h: nat :| Means(re, text, i, h) && Power(re, m - 1, text, h, k);
      PowerAdd(re, m - 1, n, text, h, k, j);
    }
  }

  lemma {:induction false} PowerSplit(re: Re, m: nat, n: nat, text: string, i: nat, j: nat) returns (k: nat)
    requires Power(re, m + n, text, i, j)
    ensures Power(re, m, text, i, k) && Power(re, n, text, k, j)
    decreases m
  {
    if m == 0 { k := i; } else {
      var h: nat :| Means(re, text, i, h) && Power(re, m + n - 1, text, h, j);
      k := PowerSplit(re, m - 1, n, text, h, j);
    }
  }

  /** Every match is reached by some decisions, whatever the captures on entry. */
  lemma {:induction false} InterpComplete(re: Re, text: string, i: nat, j: nat, caps: Caps)
    returns (ds: seq<bool>, caps': Caps)
    requires WellFormed(re, MAX_GROUPS)
    requires Means(re, text, i, j)
    ensures Interp(re, text, i, caps, ds) == Ok(j, caps', [])
    decreases re, 0, 0
  {
    match re
    case Cat(a, b) =>
      var k: nat :| Means(a, text, i, k) && Means(b, text, k, j);
      var d1, c1 := InterpComplete(a, text, i, k, caps);
      var d2, c2 := InterpComplete(b, text, k, j, c1);
      InterpFrame(a, text, i, caps, d1, d2);
      assert [] + d2 == d2;
      ds, caps' := d1 + d2, c2;
    case Alt(a, b) =>
      if Means(a, text, i, j) {
        ds, caps' := InterpComplete(a, text, i, j, caps);
        ds := [true] + ds;
      } else {
        ds, caps' := InterpComplete(b, text, i, j, caps);
        ds := [false] + ds;
      }
    case Group(n, b) =>
      ds, caps' := InterpComplete(b, text, i, j, caps[2 * n := i]);
      caps' := caps'[2 * n + 1 := j];
    case Rep(b, lo, extra, lazy) =>
      var n: nat :| lo <= n && extra.Allows(n - lo) && Power(b, n, text, i, j);
      var k := PowerSplit(b, lo, n - lo, text, i, j);
      var d1, c1 := TimesComplete(b, lo, text, i, k, caps);
      var d2, c2 := MoreComplete(b, n - lo, extra, lazy, text, k, j, c1);
      TimesFrame(b, lo, text, i, caps, d1, d2);
      assert [] + d2 == d2;
      ds, caps' := d1 + d2, c2;
    case _ => ds, caps' := [], caps;
  }

  lemma {:induction false} TimesComplete(re: Re, n: nat, text: string, i: nat, j: nat, caps: Caps)
    returns (ds: seq<bool>, caps': Caps)
    requires WellFormed(re, MAX_GROUPS)
    requires Power(re, n, text, i, j)
    ensures Times(re, n, text, i, caps, ds) == Ok(j, caps', [])
    decreases re, 1, n
  {
    if n == 0 { ds, caps' := [], caps; } else {
      var k: nat :| Means(re, text, i, k) && Power(re, n - 1, text, k, j);
      var d1, c1 := InterpComplete(re, text, i, k, caps);
      var d2, c2 := TimesComplete(re, n - 1, text, k, j, c1);
      InterpFrame(re, text, i, caps, d1, d2);
      assert [] + d2 == d2;
      ds, caps' := d1 + d2, c2;
    }
  }

  lemma {:induction false} MoreComplete(re: Re, n: nat, left: Limit, lazy: bool, text: string, i: nat, j: nat,
                                        caps: Caps)
    returns (ds: seq<bool>, caps': Caps)
    requires WellFormed(re, MAX_GROUPS)
    requires left.Allows(n)
    requires Power(re, n, text, i, j)
    ensures More(re, left, lazy, text, i, caps, ds) == Ok(j, caps', [])
    decreases re, 1, n
  {
    if left == AtMost(0) { ds, caps' := [], caps; }
    else if n == 0 { ds, caps' := [lazy], caps; }
    else {
      var k: nat :| Means(re, text, i, k) && Power(re, n - 1, text, k, j);
      var d1, c1 := InterpComplete(re, text, i, k, caps);
      var d2, c2 := MoreComplete(re, n - 1, left.Less(), lazy, text, k, j, c1);
      InterpFrame(re, text, i, caps, d1, d2);
      assert [] + d2 == d2;
      ds, caps' := [!lazy] + (d1 + d2), c2;
      assert ds[1..] == d1 + d2;
    }
  }

  // ---------------------------------------------------------------- captures

  predicate InGroup(re: Re, g: nat) {
    match re
    case Cat(a, b) => InGroup(a, g) || InGroup(b, g)
    case Alt(a, b) => InGroup(a, g) || InGroup(b, g)
    case Group(n, b) => n == g || InGroup(b, g)
    case Rep(b, _, _, _) => InGroup(b, g)
    case _ => false
  }

  /** No group sits inside a group of the same number. */
  predicate Distinct(re: Re) {
    match re
    case Cat(a, b) => Distinct(a) && Distinct(b)
    case Alt(a, b) => Distinct(a) && Distinct(b)
    case Group(n, b) => Distinct(b) && !InGroup(b, n)
    case Rep(b, _, _, _) => Distinct(b)
    case _ => true
  }

  /** Group `g` is as before, or was matched inside [i, j]. */
  predicate Settled(before: Caps, after: Caps, g: nat, i: nat, j: nat)
    requires g < MAX_GROUPS
  {
    || (after[2 * g] == before[2 * g] && after[2 * g + 1] == before[2 * g + 1])
    || i <= after[2 * g] <= after[2 * g + 1] <= j
  }

  /** After a match every group is as before or lies, ordered, inside the match, and groups not
      in the expression are untouched. */
  lemma {:induction false} InterpSettles(re: Re, text: string, sp: nat, caps: Caps, ds: seq<bool>, g: nat)
    requires WellFormed(re, MAX_GROUPS) && Distinct(re) && g < MAX_GROUPS
    requires Interp(re, text, sp, caps, ds).Ok?
    ensures var o := Interp(re, text, sp, caps, ds);
      && sp <= o.sp
      && (sp <= |text| ==> o.sp <= |text|)
      && Settled(caps, o.caps, g, sp, o.sp)
      && (!InGroup(re, g) ==> o.caps[2 * g] == caps[2 * g] && o.caps[2 * g + 1] == caps[2 * g + 1])
    decreases |ds|, re, 0, 0
  {
    match re
    case Cat(a, b) =>
      var o := Interp(a, text, sp, caps, ds);
      InterpSettles(a, text, sp, caps, ds, g);
      InterpSettles(b, text, o.sp, o.caps, o.ds, g);
    case Alt(a, b) =>
      if ds[0] { InterpSettles(a, text, sp, caps, ds[1..], g); }
      else { InterpSettles(b, text, sp, caps, ds[1..], g); }
    case Group(n, b) =>
      InterpSettles(b, text, sp, caps[2 * n := sp], ds, g);
    case Rep(b, lo, extra, lazy) =>
      var o := Times(b, lo, text, sp, caps, ds);
      TimesSettles(b, lo, text, sp, caps, ds, g);
      MoreSettles(b, extra, lazy, text, o.sp, o.caps, o.ds, g);
    case _ =>
  }

  lemma {:induction false} TimesSettles(re: Re, k: nat, text: string, sp: nat, caps: Caps, ds: seq<bool>, g: nat)
    requires WellFormed(re, MAX_GROUPS) && Distinct(re) && g < MAX_GROUPS
    requires Times(re, k, text, sp, caps, ds).Ok?
    ensures var o := Times(re, k, text, sp, caps, ds);
      && sp <= o.sp
      && (sp <= |text| ==> o.sp <= |text|)
      && Settled(caps, o.caps, g, sp, o.sp)
      && (!InGroup(re, g) ==> o.caps[2 * g] == caps[2 * g] && o.caps[2 * g + 1] == caps[2 * g + 1])
    decreases |ds|, re, 1, k
  {
    if k != 0 {
      var o := Interp(re, text, sp, caps, ds);
      InterpSettles(re, text, sp, caps, ds, g);
      TimesSettles(re, k - 1, text, o.sp, o.caps, o.ds, g);
    }
  }

  lemma {:induction false} MoreSettles(re: Re, left: Limit, lazy: bool, text: string, sp: nat, caps: Caps,
                                       ds: seq<bool>, g: nat)
    requires WellFormed(re, MAX_GROUPS) && Distinct(re) && g < MAX_GROUPS
    requires More(re, left, lazy, text, sp, caps, ds).Ok?
    ensures var o := More(re, left, lazy, text, sp, caps, ds);
      && sp <= o.sp
      && (sp <= |text| ==> o.sp <= |text|)
      && Settled(caps, o.caps, g, sp, o.sp)
      && (!InGroup(re, g) ==> o.caps[2 * g] == caps[2 * g] && o.caps[2 * g + 1] == caps[2 * g + 1])
    decreases |ds|, re, 1, 0
  {
    if left != AtMost(0) && ds[0] != lazy {
      var o := Interp(re, text, sp, caps, ds[1..]);
      InterpSettles(re, text, sp, caps, ds[1..], g);
      MoreSettles(re, left.Less(), lazy, text, o.sp, o.caps, o.ds, g);
    }
  }
}
