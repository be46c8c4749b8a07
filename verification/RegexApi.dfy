/** The builtins of the regex module: search, find_all, replace and split, as loops over `MatchAt`. */
module RegexApi {
  import opened Numerals
  import opened RegexMeaning
  import opened RegexCompile
  import opened RegexMachine
  import opened RegexMatcher
  import RegexCompiler
  import RegexReading

  datatype Result<+T> = StepLimit | Done(value: T)

  // ---------------------------------------------------------------- non-overlapping matches

  /** Where scanning goes on: behind the match, and one further when it is empty. */
  function NextFrom(c: Caps): int { if c[1] > c[0] then c[1] else c[1] + 1 }

  ghost predicate IsMatch(re: Re, text: string, from: nat, c: Caps)
    requires WellFormed(re, MAX_GROUPS)
  {
    Preferred(re, text, from, c) && MatchShape(re, text, from, c)
  }

  /** `ms` are the matches found from `from` on: at each position the preferred match if there is
      one, else the next position. */
  ghost predicate Scan(re: Re, text: string, from: nat, ms: seq<Caps>)
    requires WellFormed(re, MAX_GROUPS)
    decreases |text| + 1 - from
  {
    if from > |text| then ms == []
    else
      || (NoMatchAt(re, text, from) && Scan(re, text, from + 1, ms))
      || (ms != [] && IsMatch(re, text, from, ms[0]) && Scan(re, text, NextFrom(ms[0]), ms[1..]))
  }

  /** Scanning has one result. */
  lemma {:induction false} ScanIsUnique(re: Re, text: string, from: nat, ms: seq<Caps>, ns: seq<Caps>)
    requires WellFormed(re, MAX_GROUPS)
    requires Scan(re, text, from, ms) && Scan(re, text, from, ns)
    ensures ms == ns
    decreases |text| + 1 - from
  {
    hide Preferred, Means, WellFormed;
    if from <= |text| {
      if NoMatchAt(re, text, from) {
        ScanIsUnique(re, text, from + 1, ms, ns);
      } else {
        PreferredIsUnique(re, text, from, ms[0], ns[0]);
        ScanIsUnique(re, text, NextFrom(ms[0]), ms[1..], ns[1..]);
        assert ms == [ms[0]] + ms[1..] && ns == [ns[0]] + ns[1..];
      }
    }
  }

  /** A match that begins at `k` or holds the character there. */
  predicate Covers(c: Caps, k: nat) { c[0] <= k && (k == c[0] || k < c[1]) }

  ghost predicate Covered(ms: seq<Caps>, k: nat) { exists i :: 0 <= i < |ms| && Covers(ms[i], k) }

  /** Scanning skips nothing: wherever none of the matches stands, the pattern does not match. */
  lemma {:induction false} ScanSkipsNothing(re: Re, text: string, from: nat, ms: seq<Caps>, k: nat)
    requires WellFormed(re, MAX_GROUPS) && Scan(re, text, from, ms) && from <= k <= |text|
    ensures NoMatchAt(re, text, k) || Covered(ms, k)
    decreases |text| + 1 - from
  {
    hide Preferred, Means, WellFormed, NoMatchAt;
    if NoMatchAt(re, text, from) && Scan(re, text, from + 1, ms) {
      if k > from { ScanSkipsNothing(re, text, from + 1, ms, k); }
    } else if Covers(ms[0], k) {
    } else {
      ScanSkipsNothing(re, text, NextFrom(ms[0]), ms[1..], k);
      if i :| 0 <= i < |ms[1..]| && Covers(ms[1..][i], k) { assert Covers(ms[i + 1], k); }
    }
  }

  function End(ms: seq<Caps>): int { if ms == [] then 0 else ms[|ms| - 1][1] }

  /** Matches in order, not overlapping, inside a text of length `len`. */
  ghost predicate InOrder(ms: seq<Caps>, len: nat)
    decreases |ms|
  {
    ms == [] ||
    var before, c := ms[..|ms| - 1], ms[|ms| - 1];
    InOrder(before, len) && 0 <= End(before) <= c[0] <= c[1] <= len
  }

  lemma InOrderSnoc(ms: seq<Caps>, len: nat, c: Caps)
    requires InOrder(ms, len) && 0 <= End(ms) <= c[0] <= c[1] <= len
    ensures InOrder(ms + [c], len) && End(ms + [c]) == c[1]
  {
    assert (ms + [c])[..|ms|] == ms;
  }

  /** The scan so far, `ms` from 0 to `from`: whatever the rest finds completes it. */
  ghost predicate ScannedTo(re: Re, text: string, ms: seq<Caps>, from: nat)
    requires WellFormed(re, MAX_GROUPS)
  {
    forall rest :: Scan(re, text, from, rest) ==> Scan(re, text, 0, ms + rest)
  }

  lemma ScanStart(re: Re, text: string)
    requires WellFormed(re, MAX_GROUPS)
    ensures ScannedTo(re, text, [], 0)
  {
    hide Scan;
    forall rest | Scan(re, text, 0, rest) ensures Scan(re, text, 0, [] + rest) { assert [] + rest == rest; }
  }

  lemma ScanMiss(re: Re, text: string, ms: seq<Caps>, from: nat)
    requires WellFormed(re, MAX_GROUPS) && from <= |text|
    requires ScannedTo(re, text, ms, from) && NoMatchAt(re, text, from)
    ensures ScannedTo(re, text, ms, from + 1)
  {
    hide NoMatchAt;
    forall rest | Scan(re, text, from + 1, rest) ensures Scan(re, text, 0, ms + rest) {
      assert Scan(re, text, from, rest);
    }
  }

  lemma ScanHit(re: Re, text: string, ms: seq<Caps>, from: nat, c: Caps)
    requires WellFormed(re, MAX_GROUPS) && from <= |text|
    requires ScannedTo(re, text, ms, from) && IsMatch(re, text, from, c)
    ensures ScannedTo(re, text, ms + [c], NextFrom(c))
  {
    hide Preferred, Means, WellFormed;
    forall rest | Scan(re, text, NextFrom(c), rest) ensures Scan(re, text, 0, (ms + [c]) + rest) {
      assert ([c] + rest)[1..] == rest;
      assert Scan(re, text, from, [c] + rest);
      assert (ms + [c]) + rest == ms + ([c] + rest);
    }
  }

  lemma ScanEnd(re: Re, text: string, ms: seq<Caps>, from: nat)
    requires WellFormed(re, MAX_GROUPS) && from > |text| && ScannedTo(re, text, ms, from)
    ensures Scan(re, text, 0, ms)
  {
    assert Scan(re, text, from, []);
    assert ms + [] == ms;
  }

  // ---------------------------------------------------------------- match

  datatype MatchResult = BadPattern(error: string) | TooComplex | Absent | Matched(value: string, caps: Caps)

  /** The match builtin, from the pattern text on: compile, then match at the start of the text. */
  method Match(text: string, pattern: string) returns (r: MatchResult)
    ensures var p := RegexCompile.ReadPattern(pattern);
      match r
      case BadPattern(e) => e != "" && (p.Bad? || e == RegexCompiler.TOO_LARGE)
      case TooComplex => p.Good?
      case Absent => p.Good? && NoMatchAt(p.re, text, 0)
      case Matched(v, c) =>
        && p.Good? && WellFormed(p.re, MAX_GROUPS)
        && Preferred(p.re, text, 0, c) && MatchShape(p.re, text, 0, c)
        && v == text[..c[1]]
    ensures forall re, n :: RegexReading.Says(pattern, re, n) ==> Answers(r, re, text)
    ensures (forall re, n :: !RegexReading.Says(pattern, re, n)) ==> r.BadPattern?
  {
    hide Preferred, NoMatchAt, ReadAlt, Means, Program, RegexReading.Says;
    RegexReading.ReadsWhatItSays(pattern);
    var compiler := new RegexCompiler.Compiler(pattern);
    var ok := compiler.Compile();
    if !ok { return BadPattern(compiler.error); }
    ghost var p := RegexCompile.ReadPattern(pattern);
    ReadPatternGroups(pattern);
    MoreTables(p.re, p.groups, MAX_GROUPS, p.classes, p.classes);
    var m := new Matcher(compiler.code, compiler.classes, compiler.groupCount, text, p.re);
    ok := m.MatchAt(0);
    if ok {
      MatchedMeans(pattern, p.re, text, m.caps[..]);
      return Matched(text[m.caps[0]..m.caps[1]], m.caps[..]);
    }
    if m.budgetHit { return TooComplex; }
    AbsentMeans(pattern, p.re, text);
    return Absent;
  }

  /** What an answer says about any tree the pattern text may stand for. */
  ghost predicate Answers(r: MatchResult, re: Re, text: string) {
    match r
    case BadPattern(e) => e == RegexCompiler.TOO_LARGE
    case TooComplex => true
    case Absent => forall j: nat :: !Means(re, text, 0, j)
    case Matched(v, c) => 0 <= c[1] <= |text| && v == text[..c[1]] && Means(re, text, 0, c[1])
  }

  lemma MatchedMeans(pattern: string, re: Re, text: string, c: Caps)
    requires MatchShape(re, text, 0, c)
    requires forall re', n :: RegexReading.Says(pattern, re', n) ==> RegexReading.Alike(re', re)
    ensures forall re', n :: RegexReading.Says(pattern, re', n) ==> Answers(Matched(text[..c[1]], c), re', text)
  {
    hide Means, WellFormed, RegexReading.Says, RegexReading.Alike;
    forall re', n | RegexReading.Says(pattern, re', n) ensures Means(re', text, 0, c[1]) {
      RegexReading.AlikeMeans(re', re, text, 0, c[1]);
    }
  }

  lemma AbsentMeans(pattern: string, re: Re, text: string)
    requires NoMatchAt(re, text, 0)
    requires forall re', n :: RegexReading.Says(pattern, re', n) ==> RegexReading.Alike(re', re)
    ensures forall re', n :: RegexReading.Says(pattern, re', n) ==> Answers(Absent, re', text)
  {
    hide Means, RegexReading.Says, RegexReading.Alike;
    forall re', n, j: nat | RegexReading.Says(pattern, re', n) ensures !Means(re', text, 0, j) {
      RegexReading.AlikeMeans(re', re, text, 0, j);
    }
  }

  lemma ReadPatternGroups(pattern: string)
    ensures var p := RegexCompile.ReadPattern(pattern); p.Good? ==> FreshGroups(p.re, 1)
  {
    ReadAltGroups(pattern, 0, 1, [], 1);
  }

  // ---------------------------------------------------------------- search

  method Search(m: Matcher) returns (r: Result<bool>)
    requires m.Valid() && !m.budgetHit
    modifies m`steps, m`budgetHit, m.caps
    ensures m.Valid()
    ensures r == Done(true) ==>
      var from := m.caps[0];
      && 0 <= from <= |m.text| && IsMatch(m.re, m.text, from, m.caps[..])
      && forall k: nat :: k < from ==> NoMatchAt(m.re, m.text, k)
    ensures r == Done(false) ==> forall k: nat :: k <= |m.text| ==> NoMatchAt(m.re, m.text, k)
  {
    hide Preferred, NoMatchAt;
    for from := 0 to |m.text| + 1
      invariant m.Valid() && !m.budgetHit
      invariant forall k: nat :: k < from ==> NoMatchAt(m.re, m.text, k)
    {
      var ok := m.MatchAt(from);
      if ok { return Done(true); }
      if m.budgetHit { return StepLimit; }
    }
    return Done(false);
  }

  // ---------------------------------------------------------------- find_all

  ghost function Texts(text: string, ms: seq<Caps>): seq<string>
    requires InOrder(ms, |text|)
    decreases |ms|
  {
    if ms == [] then []
    else
      var c := ms[|ms| - 1];
      Texts(text, ms[..|ms| - 1]) + [text[c[0]..c[1]]]
  }

  method FindAll(m: Matcher) returns (r: Result<seq<string>>, ghost ms: seq<Caps>)
    requires m.Valid() && !m.budgetHit
    modifies m`steps, m`budgetHit, m.caps
    ensures m.Valid()
    ensures r.Done? ==> Scan(m.re, m.text, 0, ms) && InOrder(ms, |m.text|) && r.value == Texts(m.text, ms)
  {
    hide Preferred, NoMatchAt, Scan, ScannedTo, Means;
    var out: seq<string> := [];
    ms := [];
    var from := 0;
    ScanStart(m.re, m.text);
    while from <= |m.text|
      invariant m.Valid() && !m.budgetHit && 0 <= from
      invariant ScannedTo(m.re, m.text, ms, from)
      invariant InOrder(ms, |m.text|) && 0 <= End(ms) <= from
      invariant out == Texts(m.text, ms)
      decreases |m.text| + 1 - from
    {
      var ok := m.MatchAt(from);
      if ok {
        var a, b := m.caps[0], m.caps[1];
        ScanHit(m.re, m.text, ms, from, m.caps[..]);
        InOrderSnoc(ms, |m.text|, m.caps[..]);
        ghost var c: Caps := m.caps[..];
        assert (ms + [c])[..|ms|] == ms;
        ms := ms + [m.caps[..]];
        out := out + [m.text[a..b]];
        from := if b > a then b else b + 1;
      } else {
        if m.budgetHit { return StepLimit, []; }
        ScanMiss(m.re, m.text, ms, from);
        from := from + 1;
      }
    }
    ScanEnd(m.re, m.text, ms, from);
    return Done(out), ms;
  }

  // ---------------------------------------------------------------- replace

  function Clip(text: string, c: Caps, g: nat): string
    requires g < MAX_GROUPS
  {
    if 0 <= c[2 * g] <= c[2 * g + 1] <= |text| then text[c[2 * g]..c[2 * g + 1]] else ""
  }

  /** The replacement from position `k` on: `$0` to `$9` insert groups, `$$` a dollar. */
  function Expand(rep: string, k: nat, text: string, c: Caps, groupCount: nat): string
    requires k <= |rep| && groupCount <= MAX_GROUPS
    decreases |rep| - k
  {
    if k == |rep| then ""
    else
      var (piece, len) := Item(rep, k, text, c, groupCount);
      piece + Expand(rep, k + len, text, c, groupCount)
  }

  /** What the characters of the replacement at `k` stand for, and how many they are. */
  function Item(rep: string, k: nat, text: string, c: Caps, groupCount: nat): (r: (string, nat))
    requires k < |rep| && groupCount <= MAX_GROUPS
    ensures 1 <= r.1 && k + r.1 <= |rep|
  {
    if rep[k] == '$' && k + 1 < |rep| && rep[k + 1] == '$' then ("$", 2)
    else if rep[k] == '$' && k + 1 < |rep| && '0' <= rep[k + 1] <= '9' then
      var g := rep[k + 1] as int - '0' as int;
      (if g < groupCount then Clip(text, c, g) else "", 2)
    else ([rep[k]], 1)
  }

  /** The text up to `upto` with every match replaced. */
  ghost function Replaced(text: string, ms: seq<Caps>, rep: string, groupCount: nat, upto: nat): string
    requires InOrder(ms, |text|) && End(ms) <= upto <= |text| && groupCount <= MAX_GROUPS
    decreases |ms|
  {
    if ms == [] then text[..upto]
    else
      var c := ms[|ms| - 1];
      Replaced(text, ms[..|ms| - 1], rep, groupCount, c[0]) + Expand(rep, 0, text, c, groupCount) + text[c[1]..upto]
  }

  lemma ExpandSelf(text: string, c: Caps, groupCount: nat)
    requires 0 <= c[0] <= c[1] <= |text| && 1 <= groupCount <= MAX_GROUPS
    ensures Expand("$0", 0, text, c, groupCount) == text[c[0]..c[1]]
  {
    var rep := "$0";
    assert rep[0] == '$' && rep[1] == '0';
    assert Expand(rep, 2, text, c, groupCount) == "";
  }

  /** The text of a group: empty where the pattern has no such group or it took no part. */
  predicate IsGroupText(s: string, text: string, c: Caps, g: nat, groupCount: nat)
    requires g < MAX_GROUPS
  {
    if g >= groupCount || c[2 * g] == -1 then s == ""
    else 0 <= c[2 * g] <= c[2 * g + 1] <= |text| ==> s == text[c[2 * g]..c[2 * g + 1]]
  }

  /** A dollar and a digit insert the text of a group. */
  lemma DollarDigit(before: string, g: nat, after: string, text: string, c: Caps, groupCount: nat) returns (s: string)
    requires '$' !in before && g < MAX_GROUPS && groupCount <= MAX_GROUPS
    ensures IsGroupText(s, text, c, g, groupCount)
    ensures Expand(before + ("$" + ([Digit(g)] + after)), 0, text, c, groupCount)
         == before + (s + Expand(after, 0, text, c, groupCount))
  {
    var item := "$" + ([Digit(g)] + after);
    DigitIs(g);
    s := Item(item, 0, text, c, groupCount).0;
    PlainExpand(before, item, text, c, groupCount);
    ExpandFrom(item, 2, text, c, groupCount);
    assert item[2..] == after;
  }

  lemma DigitIs(g: nat)
    requires g < 10
    ensures Digit(g) as int == '0' as int + g
  {
  }

  /** Two dollars are one. */
  lemma TwoDollars(before: string, after: string, text: string, c: Caps, groupCount: nat)
    requires '$' !in before && groupCount <= MAX_GROUPS
    ensures Expand(before + ("$$" + after), 0, text, c, groupCount)
         == before + ("$" + Expand(after, 0, text, c, groupCount))
  {
    PlainExpand(before, "$$" + after, text, c, groupCount);
    ExpandFrom("$$" + after, 2, text, c, groupCount);
    assert ("$$" + after)[2..] == after;
  }

  /** A dollar in front of anything else is itself. */
  lemma OneDollar(before: string, after: string, text: string, c: Caps, groupCount: nat)
    requires '$' !in before && groupCount <= MAX_GROUPS
    requires after == "" || (after[0] != '$' && !IsDigit(after[0]))
    ensures Expand(before + ("$" + after), 0, text, c, groupCount)
         == before + ("$" + Expand(after, 0, text, c, groupCount))
  {
    PlainExpand(before, "$" + after, text, c, groupCount);
    ExpandFrom("$" + after, 1, text, c, groupCount);
    assert ("$" + after)[1..] == after;
  }

  /** Text without dollars stays as it is. */
  lemma {:induction false} PlainExpand(before: string, rest: string, text: string, c: Caps, groupCount: nat)
    requires '$' !in before && groupCount <= MAX_GROUPS
    ensures Expand(before + rest, 0, text, c, groupCount) == before + Expand(rest, 0, text, c, groupCount)
    decreases |before|
  {
    if before == "" {
      assert before + rest == rest;
    } else {
      assert before[0] in before;
      ExpandFrom(before + rest, 1, text, c, groupCount);
      assert (before + rest)[1..] == before[1..] + rest;
      PlainExpand(before[1..], rest, text, c, groupCount);
      assert before == [before[0]] + before[1..];
    }
  }

  lemma {:induction false} ExpandFrom(rep: string, k: nat, text: string, c: Caps, groupCount: nat)
    requires k <= |rep| && groupCount <= MAX_GROUPS
    ensures Expand(rep, k, text, c, groupCount) == Expand(rep[k..], 0, text, c, groupCount)
    decreases |rep| - k
  {
    if k < |rep| {
      ItemFrom(rep, k, text, c, groupCount);
      var len := Item(rep, k, text, c, groupCount).1;
      ExpandFrom(rep, k + len, text, c, groupCount);
      ExpandFrom(rep[k..], len, text, c, groupCount);
      assert rep[k..][len..] == rep[k + len..];
    }
  }

  lemma ItemFrom(rep: string, k: nat, text: string, c: Caps, groupCount: nat)
    requires k < |rep| && groupCount <= MAX_GROUPS
    ensures Item(rep, k, text, c, groupCount) == Item(rep[k..], 0, text, c, groupCount)
  {
  }

  /** Replacing every match by itself changes nothing. */
  lemma {:induction false} ReplaceBySelf(text: string, ms: seq<Caps>, groupCount: nat, upto: nat)
    requires InOrder(ms, |text|) && End(ms) <= upto <= |text| && 1 <= groupCount <= MAX_GROUPS
    ensures Replaced(text, ms, "$0", groupCount, upto) == text[..upto]
    decreases |ms|
  {
    hide Expand;
    if ms != [] {
      var c := ms[|ms| - 1];
      ReplaceBySelf(text, ms[..|ms| - 1], groupCount, c[0]);
      ExpandSelf(text, c, groupCount);
      assert text[..upto] == text[..c[0]] + text[c[0]..c[1]] + text[c[1]..upto];
    }
  }

  lemma ReplacedCopy(text: string, ms: seq<Caps>, rep: string, groupCount: nat, upto: nat)
    requires InOrder(ms, |text|) && End(ms) <= upto < |text| && groupCount <= MAX_GROUPS
    ensures Replaced(text, ms, rep, groupCount, upto + 1) == Replaced(text, ms, rep, groupCount, upto) + [text[upto]]
  {
    if ms == [] {
      assert text[..upto + 1] == text[..upto] + [text[upto]];
    } else {
      var c := ms[|ms| - 1];
      assert text[c[1]..upto + 1] == text[c[1]..upto] + [text[upto]];
    }
  }

  lemma ReplacedHit(text: string, ms: seq<Caps>, rep: string, groupCount: nat, c: Caps)
    requires InOrder(ms, |text|) && 0 <= End(ms) <= c[0] <= c[1] <= |text| && groupCount <= MAX_GROUPS
    ensures InOrder(ms + [c], |text|) && End(ms + [c]) == c[1]
    ensures Replaced(text, ms + [c], rep, groupCount, c[1])
            == Replaced(text, ms, rep, groupCount, c[0]) + Expand(rep, 0, text, c, groupCount)
  {
    InOrderSnoc(ms, |text|, c);
    assert (ms + [c])[..|ms|] == ms && text[c[1]..c[1]] == "";
  }

  method GroupText(m: Matcher, g: nat) returns (piece: string)
    requires m.Valid() && g < MAX_GROUPS && GroupInText(m.caps[..], g, |m.text|)
    ensures piece == Clip(m.text, m.caps[..], g)
  {
    if m.caps[g * 2] == -1 { return ""; }
    return m.text[m.caps[g * 2]..m.caps[g * 2 + 1]];
  }

  method Substitute(m: Matcher, rep: string) returns (out: string)
    requires m.Valid()
    requires forall g: nat :: g < MAX_GROUPS ==> GroupInText(m.caps[..], g, |m.text|)
    ensures out == Expand(rep, 0, m.text, m.caps[..], m.groupCount)
  {
    hide Program, Runnable, WellFormed, ClassesIn, FreshGroups, Clip, Item;
    out := "";
    var k := 0;
    while k < |rep|
      invariant k <= |rep|
      invariant out + Expand(rep, k, m.text, m.caps[..], m.groupCount)
                == Expand(rep, 0, m.text, m.caps[..], m.groupCount)
    {
      var piece, len := SubstituteItem(m, rep, k);
      assert (out + piece) + Expand(rep, k + len, m.text, m.caps[..], m.groupCount)
             == out + (piece + Expand(rep, k + len, m.text, m.caps[..], m.groupCount));
      out := out + piece;
      k := k + len;
    }
  }

  method SubstituteItem(m: Matcher, rep: string, k: nat) returns (piece: string, len: nat)
    requires m.Valid() && k < |rep|
    requires forall g: nat :: g < MAX_GROUPS ==> GroupInText(m.caps[..], g, |m.text|)
    ensures (piece, len) == Item(rep, k, m.text, m.caps[..], m.groupCount)
  {
    hide Program, Runnable, WellFormed, ClassesIn, FreshGroups, Clip;
    if rep[k] == '$' && k + 1 < |rep| {
      var n := rep[k + 1];
      if n == '$' { return "$", 2; }
      if n >= '0' && n <= '9' {
        var g := n as int - '0' as int;
        piece := "";
        if g < m.groupCount { piece := GroupText(m, g); }
        return piece, 2;
      }
    }
    return [rep[k]], 1;
  }

  ghost predicate GroupInText(c: Caps, g: nat, len: nat)
    requires g < MAX_GROUPS
  {
    (c[2 * g] == -1 && c[2 * g + 1] == -1) || 0 <= c[2 * g] <= c[2 * g + 1] <= len
  }

  lemma ShapeInText(re: Re, text: string, from: nat, c: Caps)
    requires MatchShape(re, text, from, c) && from <= |text|
    ensures forall g: nat :: g < MAX_GROUPS ==> GroupInText(c, g, |text|)
  {
    forall g: nat | g < MAX_GROUPS ensures GroupInText(c, g, |text|) {
      if g > 0 { assert GroupSettled(c, g); }
    }
  }

  method Replace(m: Matcher, rep: string) returns (r: Result<string>, ghost ms: seq<Caps>)
    requires m.Valid() && !m.budgetHit
    modifies m`steps, m`budgetHit, m.caps
    ensures m.Valid()
    ensures r.Done? ==>
      && Scan(m.re, m.text, 0, ms) && InOrder(ms, |m.text|) && End(ms) <= |m.text|
      && r.value == Replaced(m.text, ms, rep, m.groupCount, |m.text|)
    ensures r.Done? && rep == "$0" ==> r.value == m.text
  {
    hide Preferred, NoMatchAt, Scan, ScannedTo, Means, Expand, Replaced;
    var out := "";
    ms := [];
    var from: nat := 0;
    ScanStart(m.re, m.text);
    ReplacedNone(m.text, rep, m.groupCount);
    while from <= |m.text|
      invariant m.Valid() && !m.budgetHit && from <= |m.text| + 1
      invariant ScannedTo(m.re, m.text, ms, from)
      invariant InOrder(ms, |m.text|) && 0 <= End(ms) <= from && End(ms) <= |m.text|
      invariant out == Replaced(m.text, ms, rep, m.groupCount, if from <= |m.text| then from else |m.text|)
      decreases |m.text| + 1 - from
    {
      var ok := m.MatchAt(from);
      if ok {
        var a, b := m.caps[0], m.caps[1];
        ScanHit(m.re, m.text, ms, from, m.caps[..]);
        ReplacedHit(m.text, ms, rep, m.groupCount, m.caps[..]);
        ShapeInText(m.re, m.text, from, m.caps[..]);
        var piece := Substitute(m, rep);
        out := out + piece;
        ms := ms + [m.caps[..]];
        if b > a {
          from := b;
        } else {
          if b < |m.text| {
            ReplacedCopy(m.text, ms, rep, m.groupCount, b);
            out := out + [m.text[b]];
          }
          from := b + 1;
        }
      } else {
        if m.budgetHit { return StepLimit, []; }
        ScanMiss(m.re, m.text, ms, from);
        if from < |m.text| {
          ReplacedCopy(m.text, ms, rep, m.groupCount, from);
          out := out + [m.text[from]];
        }
        from := from + 1;
      }
    }
    ScanEnd(m.re, m.text, ms, from);
    if rep == "$0" { ReplaceBySelf(m.text, ms, m.groupCount, |m.text|); }
    return Done(out), ms;
  }

  lemma ReplacedNone(text: string, rep: string, groupCount: nat)
    requires groupCount <= MAX_GROUPS
    ensures Replaced(text, [], rep, groupCount, 0) == ""
  {
  }

  // ---------------------------------------------------------------- split

  /** The start of the last piece: behind the last match that is not empty. */
  function PieceStart(ms: seq<Caps>): int
    decreases |ms|
  {
    if ms == [] then 0
    else if ms[|ms| - 1][1] > ms[|ms| - 1][0] then ms[|ms| - 1][1]
    else PieceStart(ms[..|ms| - 1])
  }

  lemma {:induction false} PieceStartBounds(ms: seq<Caps>, len: nat)
    requires InOrder(ms, len)
    ensures 0 <= PieceStart(ms) <= End(ms) && End(ms) <= len
    decreases |ms|
  {
    if ms != [] { PieceStartBounds(ms[..|ms| - 1], len); }
  }

  /** The pieces closed by a match that is not empty. */
  ghost function Pieces(text: string, ms: seq<Caps>): (ps: seq<string>)
    requires InOrder(ms, |text|)
    decreases |ms|
  {
    if ms == [] then []
    else
      var before, c := ms[..|ms| - 1], ms[|ms| - 1];
      PieceStartBounds(before, |text|);
      Pieces(text, before) + if c[1] > c[0] then [text[PieceStart(before)..c[0]]] else []
  }

  /** The matches removed between the pieces. */
  ghost function Removed(text: string, ms: seq<Caps>): seq<string>
    requires InOrder(ms, |text|)
    decreases |ms|
  {
    if ms == [] then []
    else
      var c := ms[|ms| - 1];
      Removed(text, ms[..|ms| - 1]) + if c[1] > c[0] then [text[c[0]..c[1]]] else []
  }

  /** Pieces and separators in turn, up to the last separator. */
  ghost function Woven(ps: seq<string>, seps: seq<string>): string
    requires |ps| == |seps|
    decreases |ps|
  {
    if ps == [] then ""
    else Woven(ps[..|ps| - 1], seps[..|ps| - 1]) + ps[|ps| - 1] + seps[|ps| - 1]
  }

  lemma WeaveMore(ps: seq<string>, seps: seq<string>, p: string, sep: string)
    requires |ps| == |seps|
    ensures Woven(ps + [p], seps + [sep]) == Woven(ps, seps) + p + sep
  {
    assert (ps + [p])[..|ps|] == ps && (seps + [sep])[..|ps|] == seps;
  }

  /** Pieces and removed matches, woven together, give the text back. */
  lemma {:induction false} PiecesWeave(text: string, ms: seq<Caps>)
    requires InOrder(ms, |text|)
    ensures |Pieces(text, ms)| == |Removed(text, ms)|
    ensures 0 <= PieceStart(ms) <= |text|
    ensures Woven(Pieces(text, ms), Removed(text, ms)) == text[..PieceStart(ms)]
    decreases |ms|
  {
    hide Woven;
    if ms == [] {
      assert Woven([], []) == "" by { NothingWoven(); }
    } else {
      var before, c := ms[..|ms| - 1], ms[|ms| - 1];
      PiecesWeave(text, before);
      PieceStartBounds(before, |text|);
      if c[1] > c[0] {
        var from := PieceStart(before);
        WeaveMore(Pieces(text, before), Removed(text, before), text[from..c[0]], text[c[0]..c[1]]);
        ThreeParts(text, from, c[0], c[1]);
      } else {
        assert Pieces(text, ms) == Pieces(text, before) && Removed(text, ms) == Removed(text, before);
      }
    }
  }

  lemma NothingWoven()
    ensures Woven([], []) == ""
  {
  }

  lemma ThreeParts(text: string, a: int, b: int, c: int)
    requires 0 <= a <= b <= c <= |text|
    ensures text[..c] == text[..a] + text[a..b] + text[b..c]
  {
  }

  method Split(m: Matcher) returns (r: Result<seq<string>>, ghost ms: seq<Caps>)
    requires m.Valid() && !m.budgetHit
    modifies m`steps, m`budgetHit, m.caps
    ensures m.Valid()
    ensures r.Done? ==>
      && Scan(m.re, m.text, 0, ms) && InOrder(ms, |m.text|)
      && 0 <= PieceStart(ms) <= |m.text|
      && r.value == Pieces(m.text, ms) + [m.text[PieceStart(ms)..]]
      && |Pieces(m.text, ms)| == |Removed(m.text, ms)|
      && Woven(Pieces(m.text, ms), Removed(m.text, ms)) + r.value[|r.value| - 1] == m.text
  {
    hide Preferred, NoMatchAt, Scan, ScannedTo, Means;
    var out: seq<string> := [];
    ms := [];
    var from: nat, pieceStart: nat := 0, 0;
    ScanStart(m.re, m.text);
    while from <= |m.text|
      invariant m.Valid() && !m.budgetHit && from <= |m.text| + 1
      invariant ScannedTo(m.re, m.text, ms, from)
      invariant InOrder(ms, |m.text|) && 0 <= End(ms) <= from
      invariant pieceStart == PieceStart(ms) <= End(ms) && End(ms) <= |m.text|
      invariant out == Pieces(m.text, ms)
      decreases |m.text| + 1 - from
    {
      var ok := m.MatchAt(from);
      if ok {
        var a, b := m.caps[0], m.caps[1];
        ScanHit(m.re, m.text, ms, from, m.caps[..]);
        InOrderSnoc(ms, |m.text|, m.caps[..]);
        ghost var c: Caps := m.caps[..];
        assert (ms + [c])[..|ms|] == ms;
        ms := ms + [m.caps[..]];
        if b > a {
          out := out + [m.text[pieceStart..a]];
          pieceStart := b;
          from := b;
        } else {
          from := from + 1;
        }
      } else {
        if m.budgetHit { return StepLimit, []; }
        ScanMiss(m.re, m.text, ms, from);
        from := from + 1;
      }
    }
    ScanEnd(m.re, m.text, ms, from);
    out := out + [m.text[pieceStart..]];
    PiecesWeave(m.text, ms);
    assert m.text == m.text[..pieceStart] + m.text[pieceStart..];
    return Done(out), ms;
  }
}
