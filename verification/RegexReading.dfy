/** What the text of a pattern says: a grammar of patterns as relations between text and trees, that the
 reader finds exactly the trees this grammar has, and what quantifiers, classes and escapes mean. */
module RegexReading {
  import opened Numerals
  import opened Options
  import opened RegexMeaning
  import opened RegexCompile

  // ---------------------------------------------------------------- quantifiers

  predicate IsNumber(s: string, v: nat) {
    s != "" && (forall c :: c in s ==> IsDigit(c)) && NumeralValue(s) == v && v <= 100000
  }

  /** The text from `j` to `m` asks for at least `lo` and at most `hi` repetitions. */
  ghost predicate CountAt(pat: string, j: nat, m: nat, lo: nat, hi: Option<nat>) {
    && j < m <= |pat|
    && (|| (pat[j..m] == "*" && lo == 0 && hi == None)
        || (pat[j..m] == "+" && lo == 1 && hi == None)
        || (pat[j..m] == "?" && lo == 0 && hi == Some(1))
        || exists x: nat :: BraceAt(pat, j, x, m, lo, hi))
  }

  /** `{lo}`, `{lo,}` or `{lo,hi}`, the first number up to `x`. */
  ghost predicate BraceAt(pat: string, j: nat, x: nat, m: nat, lo: nat, hi: Option<nat>) {
    && j + 1 < x < m <= |pat| && pat[j] == '{' && IsNumber(pat[j + 1..x], lo)
    && (|| (pat[x..m] == "}" && hi == Some(lo))
        || (pat[x..m] == ",}" && hi == None)
        || (x + 2 < m && pat[x] == ',' && pat[m - 1] == '}' && hi.Some? && IsNumber(pat[x + 1..m - 1], hi.value)))
  }

  ghost predicate Counted(pat: string, j: nat) { exists m: nat, lo: nat, hi :: CountAt(pat, j, m, lo, hi) }

  predicate CountInRange(lo: nat, hi: Option<nat>) { lo <= 1000 && (hi.Some? ==> lo <= hi.value <= 1000) }

  predicate Within(n: nat, lo: nat, hi: Option<nat>) { lo <= n && (hi.Some? ==> n <= hi.value) }

  predicate QuestionAt(pat: string, m: nat) { m < |pat| && pat[m] == '?' }

  // ---------------------------------------------------------------- classes

  predicate ShortHas(e: char, c: char) {
    match e
    case 'd' => '0' <= c <= '9'
    case 'w' => 'a' <= c <= 'z' || 'A' <= c <= 'Z' || '0' <= c <= '9' || c == '_'
    case _ => c == ' ' || c == '\t' || c == '\n' || c == '\r'
  }

  /** The character a letter behind a backslash stands for. */
  function Letter(e: char): char {
    match e case 'n' => '\n' case 't' => '\t' case 'r' => '\r' case _ => e
  }

  datatype Element = One(c: char) | Span(lo: char, hi: char) | Short(e: char)

  predicate Covers(x: Element, c: char) {
    match x case One(d) => c == d case Span(lo, hi) => lo <= c <= hi case Short(e) => ShortHas(e, c)
  }

  predicate Covered(xs: seq<Element>, c: char) { xs != [] && (Covers(xs[0], c) || Covered(xs[1..], c)) }

  /** A single character of a class, plain or behind a backslash; a backslash at the end is plain. */
  predicate CharAt(pat: string, i: nat, m: nat, c: char) {
    && i < m <= |pat|
    && if pat[i] == '\\' && i + 1 < |pat| then m == i + 2 && pat[i + 1] !in "dws" && c == Letter(pat[i + 1])
       else m == i + 1 && c == pat[i]
  }

  /** A dash that makes a range: one in front of the closing bracket does not. */
  predicate DashAt(pat: string, m: nat) { m + 1 < |pat| && pat[m] == '-' && pat[m + 1] != ']' }

  ghost predicate ElementAt(pat: string, i: nat, j: nat, x: Element) {
    && j <= |pat|
    && match x
       case Short(e) => e in "dws" && j == i + 2 && pat[i] == '\\' && pat[i + 1] == e
       case One(c) => CharAt(pat, i, j, c) && !DashAt(pat, j)
       case Span(lo, hi) => exists m: nat :: CharAt(pat, i, m, lo) && SpanEnd(pat, m, j, lo, hi)
  }

  /** The upper end of a range is the character behind the dash, a backslash in front of it dropped. */
  predicate SpanEnd(pat: string, m: nat, j: nat, lo: char, hi: char) {
    && DashAt(pat, m) && j <= |pat|
    && j == (if pat[m + 1] == '\\' && m + 2 < |pat| then m + 3 else m + 2)
    && lo <= hi == pat[j - 1]
  }

  /** Elements up to the closing bracket; a bracket in first place is an element. */
  ghost predicate BodyAt(pat: string, i: nat, k: nat, first: bool, xs: seq<Element>)
    decreases xs, 1
  {
    && i < k <= |pat|
    && if xs == [] then !first && k == i + 1 && pat[i] == ']'
       else (first || pat[i] != ']') && exists j: nat :: BodyStep(pat, i, j, k, xs)
  }

  ghost predicate BodyStep(pat: string, i: nat, j: nat, k: nat, xs: seq<Element>)
    requires xs != []
    decreases xs, 0
  {
    ElementAt(pat, i, j, xs[0]) && BodyAt(pat, j, k, false, xs[1..])
  }

  /** A class has the characters its elements cover, or those they do not. */
  ghost predicate ClassSays(pat: string, i: nat, k: nat, cc: CharClass, xs: seq<Element>) {
    var negated := i + 1 < |pat| && pat[i + 1] == '^';
    && BodyAt(pat, if negated then i + 2 else i + 1, k, true, xs)
    && forall c :: ClassHas(cc, c) <==> (Covered(xs, c) != negated)
  }

  // ---------------------------------------------------------------- atoms, pieces, sequences, alternatives

  ghost predicate EscapeSays(e: char, re: Re) {
    if e in "dws" then re.Cls? && forall c :: ClassHas(re.cc, c) <==> ShortHas(e, c)
    else if e in "DWS" then
      var lower := if e == 'D' then 'd' else if e == 'W' then 'w' else 's';
      re.Cls? && forall c :: ClassHas(re.cc, c) <==> !ShortHas(lower, c)
    else re == Chr(Letter(e))
  }

  predicate MuteParenthesis(pat: string, i: nat) { i + 2 < |pat| && pat[i + 1] == '?' && pat[i + 2] == ':' }

  /** One character, class or group; groups that capture are numbered from `g` on, `h` comes next. */
  ghost predicate AtomAt(pat: string, i: nat, k: nat, re: Re, g: nat, h: nat)
    decreases if i < k then k - i else 0, 0
  {
    && i < k <= |pat|
    && match pat[i]
       case '(' =>
         && pat[k - 1] == ')'
         && (if MuteParenthesis(pat, i) then i + 3 < k && AltAt(pat, i + 3, k - 1, re, g, h)
             else i + 1 < k && g < MAX_GROUPS && re.Group? && re.n == g && AltAt(pat, i + 1, k - 1, re.body, g + 1, h))
       case '[' => h == g && re.Cls? && exists xs :: ClassSays(pat, i, k, re.cc, xs)
       case '\\' => h == g && k == i + 2 && EscapeSays(pat[i + 1], re)
       case '^' => h == g && k == i + 1 && re == Bol
       case '$' => h == g && k == i + 1 && re == Eol
       case '.' => h == g && k == i + 1 && re == Any
       case c => h == g && k == i + 1 && c !in "*+?)" && re == Chr(c)
  }

  /** An atom with the quantifier behind it, or by itself where none stands there. */
  ghost predicate PieceAt(pat: string, i: nat, k: nat, re: Re, g: nat, h: nat)
    decreases if i < k then k - i else 0, 1
  {
    && i < k <= |pat|
    && (|| (AtomAt(pat, i, k, re, g, h) && !Counted(pat, k))
        || exists j: nat, m: nat, hi :: RepeatAt(pat, i, j, m, k, hi, re, g, h))
  }

  predicate Repeats(re: Re, a: Re, lo: nat, hi: Option<nat>, lazy: bool) {
    && re.Rep? && re.body == a && re.lo == lo && re.lazy == lazy
    && match hi case None => re.extra.Unbounded? case Some(v) => lo <= v && re.extra == AtMost(v - lo)
  }

  /** An atom up to `j`, its quantifier up to `m`, and a question mark if it is to stop early. */
  ghost predicate RepeatAt(pat: string, i: nat, j: nat, m: nat, k: nat, hi: Option<nat>, re: Re, g: nat, h: nat)
    decreases if i < k then k - i else 0, 0, 1
  {
    && i < j < m <= k <= |pat| && re.Rep?
    && AtomAt(pat, i, j, re.body, g, h) && CountAt(pat, j, m, re.lo, hi) && CountInRange(re.lo, hi)
    && Repeats(re, re.body, re.lo, hi, QuestionAt(pat, m)) && k == (if QuestionAt(pat, m) then m + 1 else m)
  }

  ghost predicate SeqAt(pat: string, i: nat, k: nat, re: Re, g: nat, h: nat)
    decreases if i < k then k - i else 0, 3
  {
    && i <= k <= |pat|
    && match re
       case Empty => i == k && g == h
       case Cat(_, _) => exists j: nat, f: nat :: SeqStep(pat, i, j, k, re, g, f, h)
       case _ => false
  }

  /** The last piece begins at `j`. */
  ghost predicate SeqStep(pat: string, i: nat, j: nat, k: nat, re: Re, g: nat, f: nat, h: nat)
    requires re.Cat?
    decreases if i < k then k - i else 0, 2
  {
    && i <= j < k <= |pat| && pat[j] !in "|)"
    && SeqAt(pat, i, j, re.first, g, f) && PieceAt(pat, j, k, re.second, f, h)
  }

  ghost predicate AltAt(pat: string, i: nat, k: nat, re: Re, g: nat, h: nat)
    decreases if i < k then k - i else 0, 5
  {
    && i <= k <= |pat|
    && (SeqAt(pat, i, k, re, g, h) || (re.Alt? && exists j: nat, f: nat :: BarAt(pat, i, j, k, re, g, f, h)))
  }

  /** The last bar stands at `j`. */
  ghost predicate BarAt(pat: string, i: nat, j: nat, k: nat, re: Re, g: nat, f: nat, h: nat)
    requires re.Alt?
    decreases if i < k then k - i else 0, 4
  {
    && i <= j < k <= |pat| && pat[j] == '|'
    && AltAt(pat, i, j, re.left, g, f) && SeqAt(pat, j + 1, k, re.right, f, h)
  }

  // ---------------------------------------------------------------- quantifiers are read as they say

  lemma {:induction false} PrefixSmaller(s: string, n: nat)
    requires (forall c :: c in s ==> IsDigit(c)) && n <= |s|
    ensures NumeralValue(s[..n]) <= NumeralValue(s)
  {
    if n < |s| {
      var t := s[..|s| - 1];
      PrefixSmaller(t, n);
      assert t[..n] == s[..n];
    } else {
      assert s[..n] == s;
    }
  }

  lemma DigitIs(c: char)
    requires IsDigit(c)
    ensures DigitValue(c) == c as int - '0' as int
  {
  }

  lemma OneMoreDigit(pat: string, i: nat, y: nat)
    requires i <= y < |pat| && forall c :: c in pat[i..y + 1] ==> IsDigit(c)
    ensures NumeralValue(pat[i..y + 1]) == NumeralValue(pat[i..y]) * 10 + (pat[y] as int - '0' as int)
  {
    var s := pat[i..y + 1];
    assert s[..|s| - 1] == pat[i..y] && s[|s| - 1] == pat[y] && pat[y] in s;
    DigitIs(pat[y]);
    assert NumeralValue(s) == NumeralValue(s[..|s| - 1]) * 10 + DigitValue(s[|s| - 1]);
  }

  lemma {:induction false} DigitsRead(pat: string, i: nat, y: nat, x: nat, v: nat)
    requires i <= y <= x <= |pat| && IsNumber(pat[i..x], v) && (x < |pat| ==> !IsDigit(pat[x]))
    ensures (forall c :: c in pat[i..y] ==> IsDigit(c)) && NumeralValue(pat[i..y]) <= 100000
    ensures ReadDigits(pat, y, NumeralValue(pat[i..y])) == Bound(v, x)
    decreases x - y
  {
    var s := pat[i..x];
    assert s[..y - i] == pat[i..y];
    PrefixSmaller(s, y - i);
    if y < x {
      assert s[y - i] == pat[y] && pat[y] in s;
      DigitsRead(pat, i, y + 1, x, v);
      OneMoreDigit(pat, i, y);
    }
  }

  lemma NumberRead(pat: string, i: nat, x: nat, v: nat)
    requires i <= x <= |pat| && IsNumber(pat[i..x], v) && (x < |pat| ==> !IsDigit(pat[x]))
    ensures ReadBound(pat, i) == Bound(v, x)
  {
    assert pat[i] in pat[i..x];
    DigitsRead(pat, i, i, x, v);
    assert pat[i..i] == "";
  }

  lemma {:induction false} DigitsSound(pat: string, i: nat, y: nat)
    requires i <= y <= |pat| && (forall c :: c in pat[i..y] ==> IsDigit(c)) && NumeralValue(pat[i..y]) <= 100000
    ensures var b := ReadDigits(pat, y, NumeralValue(pat[i..y]));
      b.Bound? ==>
        && y <= b.i <= |pat| && (forall c :: c in pat[i..b.i] ==> IsDigit(c)) && NumeralValue(pat[i..b.i]) == b.v
        && (b.i < |pat| ==> !IsDigit(pat[b.i]))
    decreases |pat| - y
  {
    if y < |pat| && IsDigit(pat[y]) {
      assert pat[i..y + 1] == pat[i..y] + [pat[y]];
      OneMoreDigit(pat, i, y);
      if NumeralValue(pat[i..y + 1]) <= 100000 { DigitsSound(pat, i, y + 1); }
    }
  }

  lemma NumberSound(pat: string, i: nat)
    requires i <= |pat|
    ensures var b := ReadBound(pat, i);
      b.Bound? ==> i < b.i <= |pat| && IsNumber(pat[i..b.i], b.v) && (b.i < |pat| ==> !IsDigit(pat[b.i]))
  {
    assert pat[i..i] == "";
    DigitsSound(pat, i, i);
  }

  function Expected(pat: string, m: nat, lo: nat, hi: Option<nat>): Quantifier {
    if !CountInRange(lo, hi) then OutOfRange
    else
      Quantifier(lo, if hi.None? then Unbounded else AtMost(hi.value - lo), QuestionAt(pat, m),
                 if QuestionAt(pat, m) then m + 1 else m)
  }

  lemma BraceRead(pat: string, j: nat, x: nat, m: nat, lo: nat, hi: Option<nat>)
    requires BraceAt(pat, j, x, m, lo, hi)
    ensures ReadQuantifier(pat, j) == Expected(pat, m, lo, hi)
  {
    if pat[x..m] == "}" || pat[x..m] == ",}" {
      assert pat[x] == pat[x..m][0];
      NumberRead(pat, j + 1, x, lo);
      if pat[x..m] == ",}" { assert pat[x + 1] == pat[x..m][1]; }
    } else {
      NumberRead(pat, j + 1, x, lo);
      NumberRead(pat, x + 1, m - 1, hi.value);
      assert pat[x + 1] in pat[x + 1..m - 1];
    }
  }

  lemma CountRead(pat: string, j: nat, m: nat, lo: nat, hi: Option<nat>)
    requires CountAt(pat, j, m, lo, hi)
    ensures ReadQuantifier(pat, j) == Expected(pat, m, lo, hi)
  {
    assert pat[j..m][0] == pat[j];
    if x: nat :| BraceAt(pat, j, x, m, lo, hi) {
      BraceRead(pat, j, x, m, lo, hi);
    }
  }

  /** What is read as a quantifier, or refused as one, is one. */
  lemma CountSound(pat: string, j: nat) returns (m: nat, lo: nat, hi: Option<nat>)
    requires !ReadQuantifier(pat, j).NoQuantifier?
    ensures CountAt(pat, j, m, lo, hi)
  {
    if pat[j] == '*' {
      m, lo, hi := j + 1, 0, None;
      assert pat[j..m] == "*";
    } else if pat[j] == '+' {
      m, lo, hi := j + 1, 1, None;
      assert pat[j..m] == "+";
    } else if pat[j] == '?' {
      m, lo, hi := j + 1, 0, Some(1);
      assert pat[j..m] == "?";
    } else {
      NumberSound(pat, j + 1);
      var b := ReadBound(pat, j + 1);
      var x := b.i;
      lo := b.v;
      if pat[x] == '}' {
        m, hi := x + 1, Some(lo);
        assert pat[x..m] == "}";
      } else if pat[x + 1] == '}' {
        m, hi := x + 2, None;
        assert pat[x..m] == ",}";
      } else {
        NumberSound(pat, x + 1);
        var b2 := ReadBound(pat, x + 1);
        m, hi := b2.i + 1, Some(b2.v);
      }
      assert BraceAt(pat, j, x, m, lo, hi);
    }
  }

  lemma CountedExactly(pat: string, j: nat)
    ensures Counted(pat, j) <==> !ReadQuantifier(pat, j).NoQuantifier?
  {
    if !ReadQuantifier(pat, j).NoQuantifier? {
      var m, lo, hi := CountSound(pat, j);
    }
    if Counted(pat, j) {
      var m: nat, lo: nat, hi :| CountAt(pat, j, m, lo, hi);
      CountRead(pat, j, m, lo, hi);
    }
  }

  // ---------------------------------------------------------------- classes are read as they say

  function ElementRanges(x: Element): seq<(char, char)> {
    match x
    case One(c) => [(c, c)]
    case Span(lo, hi) => [(lo, hi)]
    case Short(e) => if e == 'd' then DIGITS else if e == 'w' then WORD else SPACES
  }

  function BodyRanges(xs: seq<Element>): seq<(char, char)> {
    if xs == [] then [] else ElementRanges(xs[0]) + BodyRanges(xs[1..])
  }

  lemma InBoth(a: seq<(char, char)>, b: seq<(char, char)>, c: char)
    ensures InRanges(a + b, c) <==> InRanges(a, c) || InRanges(b, c)
  {
    if InRanges(a, c) {
      var k :| 0 <= k < |a| && a[k].0 <= c <= a[k].1;
      assert (a + b)[k] == a[k];
    }
    if InRanges(b, c) {
      var k :| 0 <= k < |b| && b[k].0 <= c <= b[k].1;
      assert (a + b)[|a| + k] == b[k];
    }
  }

  lemma InOne(r: (char, char), c: char)
    ensures InRanges([r], c) <==> r.0 <= c <= r.1
  {
    if r.0 <= c <= r.1 { assert [r][0] == r; }
  }

  lemma InDigits(c: char)
    ensures InRanges(DIGITS, c) <==> ShortHas('d', c)
  {
    InOne(('0', '9'), c);
  }

  lemma InWord(c: char)
    ensures InRanges(WORD, c) <==> ShortHas('w', c)
  {
    assert WORD == [('a', 'z')] + ([('A', 'Z')] + ([('0', '9')] + [('_', '_')]));
    InOne(('a', 'z'), c);
    InOne(('A', 'Z'), c);
    InOne(('0', '9'), c);
    InOne(('_', '_'), c);
    InBoth([('0', '9')], [('_', '_')], c);
    InBoth([('A', 'Z')], [('0', '9')] + [('_', '_')], c);
    InBoth([('a', 'z')], [('A', 'Z')] + ([('0', '9')] + [('_', '_')]), c);
  }

  lemma InSpaces(c: char)
    ensures InRanges(SPACES, c) <==> ShortHas('s', c)
  {
    assert SPACES == [(' ', ' ')] + ([('\t', '\t')] + ([('\n', '\n')] + [('\r', '\r')]));
    InOne((' ', ' '), c);
    InOne(('\t', '\t'), c);
    InOne(('\n', '\n'), c);
    InOne(('\r', '\r'), c);
    InBoth([('\n', '\n')], [('\r', '\r')], c);
    InBoth([('\t', '\t')], [('\n', '\n')] + [('\r', '\r')], c);
    InBoth([(' ', ' ')], [('\t', '\t')] + ([('\n', '\n')] + [('\r', '\r')]), c);
  }

  lemma InElement(x: Element, c: char)
    requires x.Short? ==> x.e in "dws"
    ensures InRanges(ElementRanges(x), c) <==> Covers(x, c)
  {
    hide InRanges;
    match x
    case One(d) => InOne((d, d), c);
    case Span(lo, hi) => InOne((lo, hi), c);
    case Short(e) =>
      InDigits(c);
      InWord(c);
      InSpaces(c);
  }

  lemma {:induction false} InBody(pat: string, i: nat, k: nat, first: bool, xs: seq<Element>, c: char)
    requires BodyAt(pat, i, k, first, xs)
    ensures InRanges(BodyRanges(xs), c) <==> Covered(xs, c)
    decreases xs
  {
    if xs != [] {
      var j: nat :| BodyStep(pat, i, j, k, xs);
      InBody(pat, j, k, false, xs[1..], c);
      InElement(xs[0], c);
      InBoth(ElementRanges(xs[0]), BodyRanges(xs[1..]), c);
    }
  }

  lemma CharRead(pat: string, i: nat, m: nat, c: char)
    requires CharAt(pat, i, m, c)
    ensures ReadClassItem(pat, i) == ReadClassRange(pat, c, m)
  {
  }

  lemma ElementRead(pat: string, i: nat, j: nat, x: Element)
    requires i < |pat| && ElementAt(pat, i, j, x)
    ensures ReadClassItem(pat, i) == Ranges(ElementRanges(x), j)
  {
    match x
    case Short(_) =>
    case One(c) => CharRead(pat, i, j, c);
    case Span(lo, hi) =>
      var m: nat :| CharAt(pat, i, m, lo) && SpanEnd(pat, m, j, lo, hi);
      CharRead(pat, i, m, lo);
  }

  lemma ElementSound(pat: string, i: nat) returns (x: Element)
    requires i < |pat| && ReadClassItem(pat, i).Ranges?
    ensures var r := ReadClassItem(pat, i); r.rs == ElementRanges(x) && ElementAt(pat, i, r.i, x)
  {
    var j := ReadClassItem(pat, i).i;
    if pat[i] == '\\' && i + 1 < |pat| && pat[i + 1] in "dws" {
      x := Short(pat[i + 1]);
    } else {
      var escaped := pat[i] == '\\' && i + 1 < |pat|;
      var m, c := if escaped then i + 2 else i + 1, if escaped then Letter(pat[i + 1]) else pat[i];
      assert CharAt(pat, i, m, c);
      CharRead(pat, i, m, c);
      if DashAt(pat, m) {
        x := Span(c, pat[j - 1]);
        assert SpanEnd(pat, m, j, c, pat[j - 1]);
      } else {
        x := One(c);
      }
    }
  }

  lemma {:induction false} BodyRead(pat: string, i: nat, k: nat, first: bool, xs: seq<Element>, rs: seq<(char, char)>)
    requires BodyAt(pat, i, k, first, xs)
    ensures ReadClassBody(pat, i, first, rs) == Ranges(rs + BodyRanges(xs), k)
    decreases xs
  {
    hide ElementAt, ReadClassItem;
    if xs == [] {
      assert rs + [] == rs;
    } else {
      var j: nat :| BodyStep(pat, i, j, k, xs);
      ElementRead(pat, i, j, xs[0]);
      BodyRead(pat, j, k, false, xs[1..], rs + ElementRanges(xs[0]));
      assert rs + ElementRanges(xs[0]) + BodyRanges(xs[1..]) == rs + BodyRanges(xs);
    }
  }

  lemma {:induction false} BodySound(pat: string, i: nat, first: bool, rs: seq<(char, char)>) returns (xs: seq<Element>)
    requires i <= |pat| && ReadClassBody(pat, i, first, rs).Ranges?
    ensures BodyAt(pat, i, ReadClassBody(pat, i, first, rs).i, first, xs)
    decreases |pat| - i
  {
    hide ElementAt, ReadClassItem;
    var k := ReadClassBody(pat, i, first, rs).i;
    if i < |pat| && (pat[i] != ']' || first) {
      var x := ElementSound(pat, i);
      var r := ReadClassItem(pat, i);
      xs := BodySound(pat, r.i, false, rs + r.rs);
      xs := [x] + xs;
      assert BodyStep(pat, i, r.i, k, xs);
    } else {
      xs := [];
    }
  }

  // ---------------------------------------------------------------- what is read has been said

  predicate StopsAt(pat: string, i: nat) { i == |pat| || (i < |pat| && pat[i] in "|)") }

  lemma {:induction false} AtomSound(pat: string, i: nat, g: nat, cs: seq<CharClass>)
    requires 1 <= g <= MAX_GROUPS && i <= |pat|
    ensures var r := ReadAtom(pat, i, g, cs); r.Good? ==> AtomAt(pat, i, r.i, r.re, g, r.groups)
    decreases |pat| - i, 0
  {
    hide AltAt, ReadAlt, ReadClassBody, BodyAt, InRanges, Advances;
    var r := ReadAtom(pat, i, g, cs);
    if r.Good? {
      if pat[i] == '(' {
        if MuteParenthesis(pat, i) {
          AltSound(pat, i + 3, g, cs);
        } else {
          AltSound(pat, i + 1, g + 1, cs);
        }
      } else if pat[i] == '[' {
        ClassSound(pat, i, g, cs);
      } else if pat[i] == '\\' {
        EscapeSound(pat[i + 1], i + 2, g, cs);
      }
    }
  }

  lemma EscapeSound(e: char, i: nat, g: nat, cs: seq<CharClass>)
    ensures EscapeSays(e, ReadEscape(e, i, g, cs).re)
  {
    hide InRanges;
    forall c: char ensures InRanges(DIGITS, c) <==> ShortHas('d', c) { InDigits(c); }
    forall c: char ensures InRanges(WORD, c) <==> ShortHas('w', c) { InWord(c); }
    forall c: char ensures InRanges(SPACES, c) <==> ShortHas('s', c) { InSpaces(c); }
  }

  lemma ClassSound(pat: string, i: nat, g: nat, cs: seq<CharClass>)
    requires 1 <= g <= MAX_GROUPS && i < |pat| && pat[i] == '[' && ReadAtom(pat, i, g, cs).Good?
    ensures var r := ReadAtom(pat, i, g, cs); r.re.Cls? && exists xs :: ClassSays(pat, i, r.i, r.re.cc, xs)
  {
    hide ReadClassBody, BodyAt, InRanges;
    var negated := i + 1 < |pat| && pat[i + 1] == '^';
    var at := if negated then i + 2 else i + 1;
    var r := ReadAtom(pat, i, g, cs);
    var xs := BodySound(pat, at, true, []);
    BodyRead(pat, at, r.i, true, xs, []);
    assert [] + BodyRanges(xs) == BodyRanges(xs);
    forall c ensures InRanges(BodyRanges(xs), c) <==> Covered(xs, c) { InBody(pat, at, r.i, true, xs, c); }
    assert ClassSays(pat, i, r.i, r.re.cc, xs);
  }

  lemma {:induction false} PieceSound(pat: string, i: nat, g: nat, cs: seq<CharClass>)
    requires 1 <= g <= MAX_GROUPS && i <= |pat|
    ensures var r := ReadPiece(pat, i, g, cs); r.Good? ==> PieceAt(pat, i, r.i, r.re, g, r.groups)
    decreases |pat| - i, 1
  {
    hide AtomAt, ReadAtom, Counted, CountAt, ReadQuantifier;
    var r := ReadPiece(pat, i, g, cs);
    if r.Good? {
      AtomSound(pat, i, g, cs);
      var j := ReadAtom(pat, i, g, cs).i;
      CountedExactly(pat, j);
      if !ReadQuantifier(pat, j).NoQuantifier? {
        var m, lo, hi := CountSound(pat, j);
        CountRead(pat, j, m, lo, hi);
        CountMoves(pat, j, m, lo, hi);
        assert RepeatAt(pat, i, j, m, r.i, hi, r.re, g, r.groups);
      }
    }
  }

  lemma CountMoves(pat: string, j: nat, m: nat, lo: nat, hi: Option<nat>)
    requires CountAt(pat, j, m, lo, hi)
    ensures j < m <= |pat|
  {
  }

  lemma {:induction false} SeqSound(pat: string, from: nat, g0: nat, i: nat, g: nat, cs: seq<CharClass>, left: Re)
    requires 1 <= g <= MAX_GROUPS && i <= |pat| && WellFormed(left, g) && ClassesIn(left, cs)
    requires SeqAt(pat, from, i, left, g0, g)
    ensures var r := ReadSeq(pat, i, g, cs, left);
      r.Good? ==> SeqAt(pat, from, r.i, r.re, g0, r.groups) && StopsAt(pat, r.i)
    decreases |pat| - i, 2
  {
    hide PieceAt, ReadPiece;
    if i < |pat| && pat[i] !in "|)" {
      PieceSound(pat, i, g, cs);
      var p := ReadPiece(pat, i, g, cs);
      if p.Good? {
        MoreTables(left, g, p.groups, cs, p.classes);
        assert SeqStep(pat, from, i, p.i, Cat(left, p.re), g0, g, p.groups);
        SeqSound(pat, from, g0, p.i, p.groups, p.classes, Cat(left, p.re));
      }
    }
  }

  lemma {:induction false} BarsSound(pat: string, from: nat, g0: nat, i: nat, g: nat, cs: seq<CharClass>, left: Re)
    requires 1 <= g <= MAX_GROUPS && i <= |pat| && WellFormed(left, g) && ClassesIn(left, cs)
    requires AltAt(pat, from, i, left, g0, g) && StopsAt(pat, i)
    ensures var r := ReadBars(pat, i, g, cs, left);
      r.Good? ==> AltAt(pat, from, r.i, r.re, g0, r.groups) && (r.i < |pat| ==> pat[r.i] == ')')
    decreases |pat| - i, 3
  {
    hide SeqAt, ReadSeq;
    if i < |pat| && pat[i] == '|' {
      SeqEmpty(pat, i + 1, g);
      SeqSound(pat, i + 1, g, i + 1, g, cs, Empty);
      var r := ReadSeq(pat, i + 1, g, cs, Empty);
      if r.Good? {
        MoreTables(left, g, r.groups, cs, r.classes);
        assert BarAt(pat, from, i, r.i, RegexMeaning.Alt(left, r.re), g0, g, r.groups);
        BarsSound(pat, from, g0, r.i, r.groups, r.classes, RegexMeaning.Alt(left, r.re));
      }
    }
  }

  lemma SeqEmpty(pat: string, i: nat, g: nat)
    requires i <= |pat|
    ensures SeqAt(pat, i, i, Empty, g, g)
  {
  }

  lemma {:induction false} AltSound(pat: string, i: nat, g: nat, cs: seq<CharClass>)
    requires 1 <= g <= MAX_GROUPS && i <= |pat|
    ensures var r := ReadAlt(pat, i, g, cs);
      r.Good? ==> AltAt(pat, i, r.i, r.re, g, r.groups) && (r.i < |pat| ==> pat[r.i] == ')')
    decreases |pat| - i, 4
  {
    hide SeqAt, ReadSeq, ReadBars;
    SeqEmpty(pat, i, g);
    SeqSound(pat, i, g, i, g, cs, Empty);
    var r := ReadSeq(pat, i, g, cs, Empty);
    if r.Good? { BarsSound(pat, i, g, r.i, r.groups, r.classes, r.re); }
  }

  // ---------------------------------------------------------------- what is said is read

  /** The same tree but for how classes are numbered and listed. */
  ghost predicate Alike(a: Re, b: Re) {
    match a
    case Cls(_, cc) => b.Cls? && forall c :: ClassHas(cc, c) <==> ClassHas(b.cc, c)
    case Cat(x, y) => b.Cat? && Alike(x, b.first) && Alike(y, b.second)
    case Alt(x, y) => b.Alt? && Alike(x, b.left) && Alike(y, b.right)
    case Group(n, x) => b.Group? && b.n == n && Alike(x, b.body)
    case Rep(x, lo, extra, lazy) => b.Rep? && b.lo == lo && b.extra == extra && b.lazy == lazy && Alike(x, b.body)
    case _ => a == b
  }

  /** A reading of `re` up to `k`. */
  ghost predicate Found(r: Reading, k: nat, re: Re, h: nat) {
    r.Good? && r.i == k && r.groups == h && Alike(re, r.re)
  }

  lemma {:induction false} AtomRead(pat: string, i: nat, k: nat, re: Re, g: nat, h: nat, cs: seq<CharClass>)
    requires 1 <= g <= MAX_GROUPS && AtomAt(pat, i, k, re, g, h)
    ensures Found(ReadAtom(pat, i, g, cs), k, re, h)
    decreases k - i, 0
  {
    hide AltAt, ReadAlt, ReadClassBody, BodyAt, InRanges, Advances;
    match pat[i]
    case '(' =>
      if MuteParenthesis(pat, i) {
        AltRead(pat, i + 3, k - 1, re, g, h, cs);
      } else {
        AltRead(pat, i + 1, k - 1, re.body, g + 1, h, cs);
      }
    case '[' =>
      var xs :| ClassSays(pat, i, k, re.cc, xs);
      ClassRead(pat, i, k, re, xs, g, cs);
    case '\\' =>
      EscapeSound(pat[i + 1], i + 2, g, cs);
      EscapeRead(pat[i + 1], i + 2, re, g, cs);
    case _ =>
  }

  lemma EscapeRead(e: char, i: nat, re: Re, g: nat, cs: seq<CharClass>)
    requires EscapeSays(e, re) && EscapeSays(e, ReadEscape(e, i, g, cs).re)
    ensures Found(ReadEscape(e, i, g, cs), i, re, g)
  {
    hide InRanges;
  }

  lemma ClassRead(pat: string, i: nat, k: nat, re: Re, xs: seq<Element>, g: nat, cs: seq<CharClass>)
    requires 1 <= g <= MAX_GROUPS && i < |pat| && pat[i] == '[' && re.Cls? && ClassSays(pat, i, k, re.cc, xs)
    ensures Found(ReadAtom(pat, i, g, cs), k, re, g)
  {
    hide ReadClassBody, BodyAt, InRanges;
    var negated := i + 1 < |pat| && pat[i + 1] == '^';
    var at := if negated then i + 2 else i + 1;
    BodyRead(pat, at, k, true, xs, []);
    assert [] + BodyRanges(xs) == BodyRanges(xs);
    forall c ensures InRanges(BodyRanges(xs), c) <==> Covered(xs, c) { InBody(pat, at, k, true, xs, c); }
  }

  lemma {:induction false} PieceRead(pat: string, i: nat, k: nat, re: Re, g: nat, h: nat, cs: seq<CharClass>)
    requires 1 <= g <= MAX_GROUPS && PieceAt(pat, i, k, re, g, h)
    ensures Found(ReadPiece(pat, i, g, cs), k, re, h)
    decreases k - i, 1
  {
    hide AtomAt, ReadAtom, CountAt, ReadQuantifier;
    if AtomAt(pat, i, k, re, g, h) && !Counted(pat, k) {
      AtomRead(pat, i, k, re, g, h, cs);
      CountedExactly(pat, k);
    } else {
      var j: nat, m: nat, hi :| RepeatAt(pat, i, j, m, k, hi, re, g, h);
      AtomRead(pat, i, j, re.body, g, h, cs);
      CountRead(pat, j, m, re.lo, hi);
    }
  }

  /** Reading on behind the pieces that stand between `i` and `k`. */
  lemma {:induction false} SeqRead(pat: string, i: nat, k: nat, re: Re, g: nat, h: nat, cs: seq<CharClass>)
    returns (left: Re, cs': seq<CharClass>)
    requires 1 <= g <= MAX_GROUPS && SeqAt(pat, i, k, re, g, h)
    ensures 1 <= h <= MAX_GROUPS && k <= |pat| && WellFormed(left, h) && ClassesIn(left, cs') && Alike(re, left)
    ensures ReadSeq(pat, i, g, cs, Empty) == ReadSeq(pat, k, h, cs', left)
    decreases k - i, 3
  {
    hide PieceAt, ReadPiece;
    match re
    case Empty => left, cs' := Empty, cs;
    case Cat(_, _) =>
      var j: nat, f: nat :| SeqStep(pat, i, j, k, re, g, f, h);
      var l, cs1 := SeqRead(pat, i, j, re.first, g, f, cs);
      PieceRead(pat, j, k, re.second, f, h, cs1);
      var p := ReadPiece(pat, j, f, cs1);
      MoreTables(l, f, h, cs1, p.classes);
      left, cs' := Cat(l, p.re), p.classes;
  }

  /** Reading on behind the alternatives that stand between `i` and `k`. */
  lemma {:induction false} BarsRead(pat: string, i: nat, k: nat, re: Re, g: nat, h: nat, cs: seq<CharClass>)
    returns (left: Re, cs': seq<CharClass>)
    requires 1 <= g <= MAX_GROUPS && AltAt(pat, i, k, re, g, h) && StopsAt(pat, k)
    ensures 1 <= h <= MAX_GROUPS && k <= |pat| && WellFormed(left, h) && ClassesIn(left, cs') && Alike(re, left)
    ensures ReadAlt(pat, i, g, cs) == ReadBars(pat, k, h, cs', left)
    decreases k - i, 4
  {
    hide SeqAt, ReadSeq;
    if SeqAt(pat, i, k, re, g, h) {
      left, cs' := SeqRead(pat, i, k, re, g, h, cs);
      SeqStops(pat, k, h, cs', left);
    } else {
      var j: nat, f: nat :| BarAt(pat, i, j, k, re, g, f, h);
      var l, cs1 := BarsRead(pat, i, j, re.left, g, f, cs);
      var r, cs2 := SeqRead(pat, j + 1, k, re.right, f, h, cs1);
      SeqStops(pat, k, h, cs2, r);
      MoreTables(l, f, h, cs1, cs2);
      left, cs' := RegexMeaning.Alt(l, r), cs2;
    }
  }

  lemma SeqStops(pat: string, k: nat, g: nat, cs: seq<CharClass>, left: Re)
    requires 1 <= g <= MAX_GROUPS && k <= |pat| && WellFormed(left, g) && ClassesIn(left, cs) && StopsAt(pat, k)
    ensures ReadSeq(pat, k, g, cs, left) == Good(left, k, g, cs)
  {
  }

  lemma {:induction false} AltRead(pat: string, i: nat, k: nat, re: Re, g: nat, h: nat, cs: seq<CharClass>)
    requires 1 <= g <= MAX_GROUPS && AltAt(pat, i, k, re, g, h) && (k < |pat| ==> pat[k] == ')')
    ensures Found(ReadAlt(pat, i, g, cs), k, re, h)
    decreases k - i, 5
  {
    var left, cs' := BarsRead(pat, i, k, re, g, h, cs);
  }

  // ---------------------------------------------------------------- the main results

  /** The whole pattern says this tree, with groups numbered below `n`. */
  ghost predicate Says(pat: string, re: Re, n: nat) { AltAt(pat, 0, |pat|, re, 1, n) }

  /** What is read is what the pattern says, and all that it says; it is refused exactly if it says nothing. */
  lemma ReadsWhatItSays(pat: string)
    ensures var r := ReadPattern(pat);
      && (r.Good? ==> Says(pat, r.re, r.groups))
      && (r.Good? ==> forall re, n :: Says(pat, re, n) ==> Alike(re, r.re) && n == r.groups)
      && (r.Bad? <==> forall re, n :: !Says(pat, re, n))
  {
    hide ReadAlt, AltAt;
    var r := ReadPattern(pat);
    AltSound(pat, 0, 1, []);
    forall re, n | Says(pat, re, n) ensures Found(r, |pat|, re, n) { AltRead(pat, 0, |pat|, re, 1, n, []); }
  }

  /** Trees that are alike match the same. */
  lemma {:induction false} AlikeMeans(a: Re, b: Re, text: string, i: nat, j: nat)
    requires Alike(a, b)
    ensures Means(a, text, i, j) <==> Means(b, text, i, j)
    decreases a, 0, 0
  {
    hide InRanges;
    match a
    case Cat(x, y) =>
      forall k: nat ensures Means(x, text, i, k) <==> Means(b.first, text, i, k) { AlikeMeans(x, b.first, text, i, k); }
      forall k: nat ensures Means(y, text, k, j) <==> Means(b.second, text, k, j) {
        AlikeMeans(y, b.second, text, k, j);
      }
    case Alt(x, y) =>
      AlikeMeans(x, b.left, text, i, j);
      AlikeMeans(y, b.right, text, i, j);
    case Group(_, x) => AlikeMeans(x, b.body, text, i, j);
    case Rep(x, _, _, _) =>
      forall n: nat ensures Power(x, n, text, i, j) <==> Power(b.body, n, text, i, j) {
        AlikePower(x, b.body, n, text, i, j);
      }
    case _ =>
  }

  lemma {:induction false} AlikePower(a: Re, b: Re, n: nat, text: string, i: nat, j: nat)
    requires Alike(a, b)
    ensures Power(a, n, text, i, j) <==> Power(b, n, text, i, j)
    decreases a, 1, n
  {
    if n > 0 {
      forall k: nat ensures Means(a, text, i, k) <==> Means(b, text, i, k) { AlikeMeans(a, b, text, i, k); }
      var rest := n - 1;
      forall k: nat ensures Power(a, rest, text, k, j) <==> Power(b, rest, text, k, j) {
        AlikePower(a, b, rest, text, k, j);
      }
    }
  }

  // ---------------------------------------------------------------- what quantifiers, classes and escapes mean

  /** An atom with a quantifier behind it means as many matches of the atom, one after the other, as the
      quantifier says; the pattern is refused exactly if its numbers are out of range. */
  lemma QuantifierMeans(pat: string, i: nat, g: nat, cs: seq<CharClass>, m: nat, lo: nat, hi: Option<nat>,
                        text: string, s: nat, e: nat)
    requires 1 <= g <= MAX_GROUPS && i <= |pat| && ReadAtom(pat, i, g, cs).Good?
    requires CountAt(pat, ReadAtom(pat, i, g, cs).i, m, lo, hi)
    ensures var a, r := ReadAtom(pat, i, g, cs).re, ReadPiece(pat, i, g, cs);
      && (r.Good? <==> CountInRange(lo, hi))
      && (r.Good? ==>
            && r.i == (if QuestionAt(pat, m) then m + 1 else m) && Repeats(r.re, a, lo, hi, QuestionAt(pat, m))
            && (Means(r.re, text, s, e) <==> exists n: nat :: Within(n, lo, hi) && Power(a, n, text, s, e)))
  {
    hide ReadAtom, ReadQuantifier, Power;
    var a := ReadAtom(pat, i, g, cs);
    CountRead(pat, a.i, m, lo, hi);
    var r := ReadPiece(pat, i, g, cs);
    if r.Good? { RepeatsMeans(r.re, a.re, lo, hi, QuestionAt(pat, m), text, s, e); }
  }

  lemma RepeatsMeans(re: Re, a: Re, lo: nat, hi: Option<nat>, lazy: bool, text: string, s: nat, e: nat)
    requires Repeats(re, a, lo, hi, lazy)
    ensures Means(re, text, s, e) <==> exists n: nat :: Within(n, lo, hi) && Power(a, n, text, s, e)
  {
    if Means(re, text, s, e) {
      var n := Rounds(re.body, re.lo, re.extra, re.lazy, text, s, e);
      assert Within(n, lo, hi) && Power(a, n, text, s, e);
    }
    if n: nat :| Within(n, lo, hi) && Power(a, n, text, s, e) {
      assert lo <= n && re.extra.Allows(n - lo);
    }
  }

  lemma Rounds(b: Re, lo: nat, extra: Limit, lazy: bool, text: string, s: nat, e: nat) returns (n: nat)
    requires Means(Rep(b, lo, extra, lazy), text, s, e)
    ensures lo <= n && extra.Allows(n - lo) && Power(b, n, text, s, e)
  {
    n :| lo <= n && extra.Allows(n - lo) && Power(b, n, text, s, e);
  }

  /** No quantifier: an atom is a piece by itself, so a brace that is none is read as text. */
  lemma NoQuantifierMeans(pat: string, i: nat, g: nat, cs: seq<CharClass>)
    requires 1 <= g <= MAX_GROUPS && i <= |pat| && ReadAtom(pat, i, g, cs).Good?
    requires !Counted(pat, ReadAtom(pat, i, g, cs).i)
    ensures ReadPiece(pat, i, g, cs) == ReadAtom(pat, i, g, cs)
  {
    CountedExactly(pat, ReadAtom(pat, i, g, cs).i);
  }

  /** With one round less to go. */
  function OneLess(hi: Option<nat>): Option<nat> {
    match hi case None => None case Some(v) => if v == 0 then hi else Some(v - 1)
  }

  /** The order of choices. Rounds that must be made come without a choice. Then each choice is first to
      go on and second to stop, with a question mark first to stop and second to go on; at the upper
      limit there is nothing to choose. */
  lemma QuantifierChooses(re: Re, a: Re, lo: nat, hi: Option<nat>, lazy: bool, next: Re,
                          text: string, sp: nat, caps: Caps, ds: seq<bool>)
    requires WellFormed(re, MAX_GROUPS) && WellFormed(next, MAX_GROUPS) && Repeats(re, a, lo, hi, lazy)
    requires hi == Some(0) || Repeats(next, a, if lo == 0 then 0 else lo - 1, OneLess(hi), lazy)
    ensures Interp(re, text, sp, caps, ds) ==
      if hi == Some(0) then Ok(sp, caps, ds)
      else if lo == 0 && ds == [] then NoMatch
      else if lo == 0 && ds[0] == lazy then Ok(sp, caps, ds[1..])
      else
        var o := Interp(a, text, sp, caps, if lo == 0 then ds[1..] else ds);
        if o.NoMatch? then NoMatch else Interp(next, text, o.sp, o.caps, o.ds)
  {
    assert re.Rep?;
    InterpRep(re, text, sp, caps, ds);
    if hi != Some(0) && (lo > 0 || (ds != [] && ds[0] != lazy)) {
      var o := Interp(a, text, sp, caps, if lo == 0 then ds[1..] else ds);
      if o.Ok? { InterpRep(next, text, o.sp, o.caps, o.ds); }
    }
  }

  lemma InterpRep(re: Re, text: string, sp: nat, caps: Caps, ds: seq<bool>)
    requires WellFormed(re, MAX_GROUPS) && re.Rep?
    ensures Interp(re, text, sp, caps, ds) ==
      var o := Times(re.body, re.lo, text, sp, caps, ds);
      if o.NoMatch? then NoMatch else More(re.body, re.extra, re.lazy, text, o.sp, o.caps, o.ds)
  {
  }

  /** The characters an atom that is not a group takes. */
  lemma AtomMeans(pat: string, i: nat, g: nat, cs: seq<CharClass>, text: string, s: nat, e: nat)
    requires 1 <= g <= MAX_GROUPS && i < |pat| && pat[i] != '(' && pat[i] != '[' && ReadAtom(pat, i, g, cs).Good?
    ensures Means(ReadAtom(pat, i, g, cs).re, text, s, e) <==>
      match pat[i]
      case '^' => s == 0 && e == 0
      case '$' => s == |text| && e == |text|
      case '.' => s < e <= |text| && text[s] != '\n' && e == s + Utf8CharLen(text[s])
      case '\\' => s < |text| && e == s + 1 && EscapeTakes(pat[i + 1], text[s])
      case c => s < |text| && e == s + 1 && text[s] == c
  {
    hide InRanges;
    if pat[i] == '\\' { EscapeSound(pat[i + 1], i + 2, g, cs); }
  }

  predicate EscapeTakes(e: char, c: char) {
    match e
    case 'd' => ShortHas('d', c)
    case 'w' => ShortHas('w', c)
    case 's' => ShortHas('s', c)
    case 'D' => !ShortHas('d', c)
    case 'W' => !ShortHas('w', c)
    case 'S' => !ShortHas('s', c)
    case _ => c == Letter(e)
  }

  /** A class takes one character, covered by one of its elements or, negated, by none. */
  lemma ClassMeans(pat: string, i: nat, g: nat, cs: seq<CharClass>, text: string, s: nat, e: nat)
    returns (xs: seq<Element>)
    requires 1 <= g <= MAX_GROUPS && i < |pat| && pat[i] == '[' && ReadAtom(pat, i, g, cs).Good?
    ensures var r, negated := ReadAtom(pat, i, g, cs), i + 1 < |pat| && pat[i + 1] == '^';
      && BodyAt(pat, if negated then i + 2 else i + 1, r.i, true, xs)
      && (Means(r.re, text, s, e) <==> s < |text| && e == s + 1 && (Covered(xs, text[s]) != negated))
  {
    hide ReadAtom, BodyAt, ClassHas;
    ClassSound(pat, i, g, cs);
    var r := ReadAtom(pat, i, g, cs);
    xs :| ClassSays(pat, i, r.i, r.re.cc, xs);
  }

  // ---------------------------------------------------------------- patterns of plain text

  predicate PlainText(p: string) { forall c :: c in p ==> c !in "|()^$.[\\*+?{" }

  function PlainTree(p: string): Re {
    if p == "" then Empty else Cat(PlainTree(p[..|p| - 1]), Chr(p[|p| - 1]))
  }

  predicate StandsAt(p: string, text: string, i: nat) { i + |p| <= |text| && text[i..i + |p|] == p }

  /** Text without special characters is a pattern for itself. */
  lemma PlainTextMeans(p: string, text: string, i: nat, j: nat)
    requires PlainText(p) && i <= |text|
    ensures ReadPattern(p).Good?
    ensures Means(ReadPattern(p).re, text, i, j) <==> StandsAt(p, text, i) && j == i + |p|
  {
    hide Means, SeqAt;
    PlainSays(p, |p|);
    assert p[..|p|] == p;
    assert Says(p, PlainTree(p), 1);
    ReadsWhatItSays(p);
    AlikeMeans(PlainTree(p), ReadPattern(p).re, text, i, j);
    PlainMeans(p, text, i, j);
  }

  lemma {:induction false} PlainSays(p: string, k: nat)
    requires PlainText(p) && k <= |p|
    ensures SeqAt(p, 0, k, PlainTree(p[..k]), 1, 1)
  {
    if k > 0 {
      PlainSays(p, k - 1);
      var re := PlainTree(p[..k]);
      assert p[..k][..k - 1] == p[..k - 1];
      assert re == Cat(PlainTree(p[..k - 1]), Chr(p[k - 1]));
      assert p[k - 1] in p;
      if k < |p| { assert p[k] in p; }
      CountedExactly(p, k);
      assert SeqStep(p, 0, k - 1, k, re, 1, 1, 1);
    }
  }

  lemma Halves(a: Re, b: Re, text: string, i: nat, j: nat) returns (k: nat)
    requires Means(Cat(a, b), text, i, j)
    ensures Means(a, text, i, k) && Means(b, text, k, j)
  {
    k :| Means(a, text, i, k) && Means(b, text, k, j);
  }

  lemma {:induction false} PlainMeans(p: string, text: string, i: nat, j: nat)
    requires i <= |text|
    ensures Means(PlainTree(p), text, i, j) <==> StandsAt(p, text, i) && j == i + |p|
  {
    if p != "" {
      var n := |p| - 1;
      forall k: nat ensures Means(PlainTree(p[..n]), text, i, k) <==> StandsAt(p[..n], text, i) && k == i + n {
        PlainMeans(p[..n], text, i, k);
      }
      if StandsAt(p, text, i) {
        assert text[i..i + n] == text[i..i + |p|][..n];
        assert text[i + n] == text[i..i + |p|][n];
        assert Means(PlainTree(p[..n]), text, i, i + n) && Means(Chr(p[n]), text, i + n, i + |p|);
      }
      if Means(PlainTree(p), text, i, j) {
        var k := Halves(PlainTree(p[..n]), Chr(p[n]), text, i, j);
        assert text[i..j] == text[i..k] + [text[k]];
        assert p == p[..n] + [p[n]];
      }
    }
  }
}
