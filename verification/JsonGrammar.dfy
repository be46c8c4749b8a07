/** Which texts the parser accepts and what they say: the grammar of RFC 8259, and what this parser takes
 besides.  Strings may hold control characters and lone second surrogates; numbers may begin with zeros
 and lack digits around the point and in the exponent. */
module JsonGrammar {
  import opened Numerals
  import opened Options
  import opened JsonText
  import opened Utf8Laws

  // ---------------------------------------------------------------- strings

  predicate HexIs(c: char, v: nat) { v < 16 && (c == "0123456789abcdef"[v] || c == "0123456789ABCDEF"[v]) }

  predicate HexText(s: string, u: nat) {
    && |s| == 4 && HexIs(s[0], u / 4096) && HexIs(s[1], u / 256 % 16) && HexIs(s[2], u / 16 % 16) && HexIs(s[3], u % 16)
  }

  predicate Encodes(p: string, cp: nat) { Decode(p) == Some(CodePoint(cp, |p|)) }

  const LETTERS := "\"\\/bfnrt"
  const MEANT: string := ['"', '\\', '/', 8 as char, 12 as char, '\n', '\r', '\t']

  predicate LetterAt(k: nat, u: string, p: string) { k < |LETTERS| && u == [LETTERS[k]] && p == [MEANT[k]] }

  predicate UnitAt(cp: nat, u: string, p: string) {
    |u| == 5 && u[0] == 'u' && HexText(u[1..], cp) && !(0xD800 <= cp <= 0xDBFF) && Encodes(p, cp)
  }

  /** A code point above 16 bits, from two surrogates of ten bits each. */
  predicate PairAt(high: nat, low: nat, u: string, p: string) {
    && |u| == 11 && u[0] == 'u' && HexText(u[1..5], 0xD800 + high) && u[5..7] == "\\u" && HexText(u[7..], 0xDC00 + low)
    && high < 0x400 && low < 0x400 && Encodes(p, 0x1_0000 + high * 0x400 + low)
  }

  /** What may stand behind a backslash, and the bytes it stands for. */
  ghost predicate EscapeText(u: string, p: string) {
    || (exists k: nat :: LetterAt(k, u, p))
    || (exists cp: nat :: UnitAt(cp, u, p))
    || (exists high: nat, low: nat :: PairAt(high, low, u, p))
  }

  ghost predicate PieceText(u: string, p: string) {
    if |u| == 1 then u[0] !in "\"\\" && p == u else u != "" && u[0] == '\\' && EscapeText(u[1..], p)
  }

  /** Pieces one after the other. */
  ghost predicate BodyText(t: string, x: string)
    decreases |t|, 1
  {
    (t == "" && x == "") || exists n: nat, m: nat :: BodyStep(t, x, n, m)
  }

  ghost predicate BodyStep(t: string, x: string, n: nat, m: nat)
    decreases |t|, 0
  {
    0 < n <= |t| && m <= |x| && PieceText(t[..n], x[..m]) && BodyText(t[n..], x[m..])
  }

  ghost predicate StringText(t: string, x: string) {
    |t| >= 2 && t[0] == '"' && t[|t| - 1] == '"' && BodyText(t[1..|t| - 1], x)
  }

  // ---------------------------------------------------------------- numbers

  predicate Digits(s: string) { forall c :: c in s ==> IsDigit(c) }

  predicate IntegerText(t: string, n: int) {
    var negative := t != "" && t[0] == '-';
    var d := if negative then t[1..] else t;
    && d != "" && Digits(d) && MIN_INT <= n <= MAX_INT
    && n == if negative then -(NumeralValue(d) as int) else NumeralValue(d)
  }

  predicate Whole(w: string) { Digits(w) || (w[0] == '-' && Digits(w[1..])) }

  predicate Fraction(f: string) { f == "" || (f[0] == '.' && Digits(f[1..])) }

  predicate Exponent(e: string) {
    e == "" || (e[0] in "eE" && (Digits(e[1..]) || (|e| > 1 && e[1] in "+-" && Digits(e[2..]))))
  }

  /** The fraction begins at `a`, the exponent at `b`. */
  predicate FloatAt(t: string, a: nat, b: nat) {
    0 < a <= b <= |t| && a < |t| && Whole(t[..a]) && Fraction(t[a..b]) && Exponent(t[b..])
  }

  // ---------------------------------------------------------------- values

  predicate Spaces(w: string) { forall c :: c in w ==> c in " \t\n\r" }

  function SetAll(entries: seq<Entry>, more: seq<Entry>): seq<Entry>
    decreases |more|
  {
    if more == [] then entries else SetAll(SetEntry(entries, more[0].key, more[0].value), more[1..])
  }

  /** The text of a value with nothing around it, nested `d` deep. */
  ghost predicate ValueText(t: string, v: Json, d: nat)
    decreases |t|, 0
  {
    && d <= MAX_DEPTH
    && match v
       case JNull => t == "null"
       case JBool(b) => t == if b then "true" else "false"
       case JInt(n) => IntegerText(t, n)
       case JFloat(x) => t == x && exists a: nat, b: nat :: FloatAt(t, a, b)
       case JStr(x) => StringText(t, x)
       case JList(items) =>
         && |t| >= 2 && t[0] == '[' && t[|t| - 1] == ']'
         && if items == [] then Spaces(t[1..|t| - 1]) else ItemsText(t[1..|t| - 1], items, d)
       case JMap(es) =>
         && |t| >= 2 && t[0] == '{' && t[|t| - 1] == '}'
         && if es == [] then Spaces(t[1..|t| - 1])
            else exists more :: more != [] && es == SetAll([], more) && EntriesText(t[1..|t| - 1], more, d)
       case JOther => false
  }

  ghost predicate Spaced(t: string, v: Json, d: nat)
    decreases |t|, 2
  {
    exists a: nat, b: nat :: SpacedAt(t, a, b, v, d)
  }

  ghost predicate SpacedAt(t: string, a: nat, b: nat, v: Json, d: nat)
    decreases |t|, 1
  {
    a <= b <= |t| && Spaces(t[..a]) && ValueText(t[a..b], v, d) && Spaces(t[b..])
  }

  /** Values with commas between them. */
  ghost predicate ItemsText(t: string, items: seq<Json>, d: nat)
    requires items != []
    decreases |t|, 4
  {
    if |items| == 1 then Spaced(t, items[0], d + 1) else exists k: nat :: ItemAt(t, k, items, d)
  }

  ghost predicate ItemAt(t: string, k: nat, items: seq<Json>, d: nat)
    requires |items| > 1
    decreases |t|, 3
  {
    k < |t| && t[k] == ',' && Spaced(t[..k], items[0], d + 1) && ItemsText(t[k + 1..], items[1..], d)
  }

  /** A string between `a` and `b`, the colon at `c`, a value. */
  ghost predicate EntryAt(t: string, a: nat, b: nat, c: nat, e: Entry, d: nat)
    decreases |t|, 3
  {
    && a <= b <= c < |t| && e.key.JStr? && Spaces(t[..a]) && StringText(t[a..b], e.key.s) && Spaces(t[b..c])
    && t[c] == ':' && Spaced(t[c + 1..], e.value, d + 1)
  }

  ghost predicate EntryText(t: string, e: Entry, d: nat)
    decreases |t|, 4
  {
    exists a: nat, b: nat, c: nat :: EntryAt(t, a, b, c, e, d)
  }

  ghost predicate EntriesText(t: string, es: seq<Entry>, d: nat)
    requires es != []
    decreases |t|, 6
  {
    if |es| == 1 then EntryText(t, es[0], d) else exists k: nat :: EntriesAt(t, k, es, d)
  }

  ghost predicate EntriesAt(t: string, k: nat, es: seq<Entry>, d: nat)
    requires |es| > 1
    decreases |t|, 5
  {
    k < |t| && t[k] == ',' && EntryText(t[..k], es[0], d) && EntriesText(t[k + 1..], es[1..], d)
  }

  // ---------------------------------------------------------------- strings are read as they say

  lemma HexDigitRead(c: char, v: nat)
    requires HexIs(c, v)
    ensures HexValue(c) == Some(v)
  {
  }

  lemma HexDigitSound(c: char)
    requires HexValue(c).Some?
    ensures HexIs(c, HexValue(c).value)
  {
  }

  lemma FourDigits(s: string)
    requires |s| == 4
    ensures HexNumber(s) ==
      if HexValue(s[0]).Some? && HexValue(s[1]).Some? && HexValue(s[2]).Some? && HexValue(s[3]).Some?
      then Some(4096 * HexValue(s[0]).value + 256 * HexValue(s[1]).value
        + 16 * HexValue(s[2]).value + HexValue(s[3]).value)
      else None
  {
    hide HexValue;
    var s3, s2, s1 := s[..3], s[..2], s[..1];
    assert s3[..2] == s2 && s2[..1] == s1 && s1[..0] == "";
    assert HexNumber(s1) == HexValue(s[0]);
    assert HexNumber(s2) ==
      if HexValue(s[0]).Some? && HexValue(s[1]).Some? then Some(16 * HexValue(s[0]).value + HexValue(s[1]).value)
      else None;
    assert HexNumber(s3) ==
      if HexNumber(s2).Some? && HexValue(s[2]).Some? then Some(16 * HexNumber(s2).value + HexValue(s[2]).value)
      else None;
  }

  lemma Nibbles(a: nat, b: nat, c: nat, d: nat)
    requires a < 16 && b < 16 && c < 16 && d < 16
    ensures var u := 4096 * a + 256 * b + 16 * c + d;
      u / 4096 == a && u / 256 % 16 == b && u / 16 % 16 == c && u % 16 == d && u < 0x1_0000
  {
    var u := 4096 * a + 256 * b + 16 * c + d;
    assert u / 256 == 16 * a + b && u / 16 == 256 * a + 16 * b + c;
  }

  lemma FromNibbles(u: nat)
    ensures u == 4096 * (u / 4096) + 256 * (u / 256 % 16) + 16 * (u / 16 % 16) + u % 16
  {
    assert u / 16 / 16 == u / 256 && u / 256 / 16 == u / 4096;
  }

  lemma HexRead(s: string, u: nat, rest: string)
    requires HexText(s, u)
    ensures u < 0x1_0000 && ReadHex4(s + rest) == Some((u, rest))
  {
    hide HexIs, HexNumber, HexValue;
    FourDigits(s);
    HexDigitRead(s[0], u / 4096);
    HexDigitRead(s[1], u / 256 % 16);
    HexDigitRead(s[2], u / 16 % 16);
    HexDigitRead(s[3], u % 16);
    FromNibbles(u);
    HexBound(s);
    assert (s + rest)[..4] == s && (s + rest)[4..] == rest;
  }

  lemma HexSound(s: string)
    requires ReadHex4(s).Some?
    ensures |s| >= 4 && HexText(s[..4], ReadHex4(s).value.0) && ReadHex4(s).value.1 == s[4..]
  {
    hide HexIs, HexNumber, HexValue;
    var h := s[..4];
    HexBound(h);
    FourDigits(h);
    forall k | 0 <= k < 4 ensures HexIs(h[k], HexValue(h[k]).value) { HexDigitSound(h[k]); }
    assert forall k :: 0 <= k < 4 ==> HexValue(h[k]).value < 16 by { Sixteen(h); }
    Nibbles(HexValue(h[0]).value, HexValue(h[1]).value, HexValue(h[2]).value, HexValue(h[3]).value);
  }

  lemma Sixteen(h: string)
    ensures forall k :: 0 <= k < |h| && HexValue(h[k]).Some? ==> HexValue(h[k]).value < 16
  {
  }

  lemma EncodesUtf8(p: string, cp: nat)
    requires cp < 0x11_0000
    ensures Encodes(p, cp) <==> p == Utf8(cp)
  {
    if p == Utf8(cp) {
      WrittenDecodes(cp, "");
      assert p + "" == p;
    }
    if Encodes(p, cp) {
      DecodesWritten(p);
      assert p[..|p|] == p;
    }
  }

  lemma UnitRead(cp: nat, u: string, p: string, rest: string)
    requires UnitAt(cp, u, p)
    ensures ReadEscape(u + rest) == GoodText(p, rest)
  {
    hide HexText, ReadHex4, Encodes;
    assert (u + rest)[1..] == u[1..] + rest;
    HexRead(u[1..], cp, rest);
    EncodesUtf8(p, cp);
  }

  lemma PairRead(high: nat, low: nat, u: string, p: string, rest: string)
    requires PairAt(high, low, u, p)
    ensures ReadEscape(u + rest) == GoodText(p, rest)
  {
    hide HexText, ReadHex4, Encodes;
    var back := u[5..] + rest;
    assert (u + rest)[1..] == u[1..5] + back;
    HexRead(u[1..5], 0xD800 + high, back);
    assert back[0] == u[5..7][0] && back[1] == u[5..7][1] && back[2..] == u[7..] + rest;
    HexRead(u[7..], 0xDC00 + low, rest);
    EncodesUtf8(p, 0x1_0000 + high * 0x400 + low);
  }

  lemma LetterRead(k: nat, u: string, p: string, rest: string)
    requires LetterAt(k, u, p)
    ensures ReadEscape(u + rest) == GoodText(p, rest)
  {
    assert (u + rest)[1..] == rest && (u + rest)[0] == LETTERS[k];
  }

  lemma EscapeRead(u: string, p: string, rest: string)
    requires EscapeText(u, p)
    ensures ReadEscape(u + rest) == GoodText(p, rest)
  {
    hide ReadEscape, LetterAt, UnitAt, PairAt;
    if k: nat :| LetterAt(k, u, p) {
      LetterRead(k, u, p, rest);
    } else if cp: nat :| UnitAt(cp, u, p) {
      UnitRead(cp, u, p, rest);
    } else {
      var high: nat, low: nat :| PairAt(high, low, u, p);
      PairRead(high, low, u, p, rest);
    }
  }

  lemma UnicodeSound(s: string) returns (u: string)
    requires s != "" && s[0] == 'u' && ReadUnicode(s[1..]).GoodText?
    ensures var r := ReadUnicode(s[1..]); s == u + r.rest && EscapeText(u, r.t)
  {
    hide HexText, ReadHex4, Encodes;
    var r := ReadUnicode(s[1..]);
    HexSound(s[1..]);
    var cp := ReadHex4(s[1..]).value.0;
    HexBounds(s[1..]);
    if !(0xD800 <= cp <= 0xDBFF) {
      u := s[..5];
      assert u[1..] == s[1..][..4] && s[1..][4..] == s[5..];
      EncodesUtf8(r.t, cp);
      assert UnitAt(cp, u, r.t);
    } else {
      var back := s[1..][4..];
      assert back == s[5..] && back[2..] == s[7..];
      HexSound(back[2..]);
      HexBounds(back[2..]);
      var low := ReadHex4(back[2..]).value.0;
      u := s[..11];
      assert u[1..5] == s[1..][..4] && u[7..] == back[2..][..4] && back[2..][4..] == s[11..];
      assert u[5..7] == "\\u";
      EncodesUtf8(r.t, 0x1_0000 + (cp - 0xD800) * 0x400 + (low - 0xDC00));
      assert PairAt(cp - 0xD800, low - 0xDC00, u, r.t);
    }
  }

  lemma HexBounds(s: string)
    ensures ReadHex4(s).Some? ==> ReadHex4(s).value.0 < 0x1_0000
  {
  }

  lemma EscapeSound(s: string) returns (u: string)
    requires ReadEscape(s).GoodText?
    ensures var r := ReadEscape(s); s == u + r.rest && EscapeText(u, r.t)
  {
    hide ReadUnicode;
    if s[0] == 'u' {
      u := UnicodeSound(s);
    } else {
      u := s[..1];
      var r := ReadEscape(s);
      var k := LetterOf(s);
      assert LetterAt(k, u, r.t);
    }
  }

  lemma LetterOf(s: string) returns (k: nat)
    requires ReadEscape(s).GoodText? && s[0] != 'u'
    ensures k < |LETTERS| && LETTERS[k] == s[0]
  {
    var c := s[0];
    k := if c == '"' then 0 else if c == '\\' then 1 else if c == '/' then 2 else if c == 'b' then 3
      else if c == 'f' then 4 else if c == 'n' then 5 else if c == 'r' then 6 else 7;
  }

  lemma {:induction false} BodyRead(t: string, x: string, acc: string, rest: string)
    requires BodyText(t, x)
    ensures ReadString(t + ("\"" + rest), acc) == GoodText(acc + x, rest)
    decreases |t|
  {
    hide EscapeText, ReadEscape;
    var s := t + ("\"" + rest);
    if t == "" && x == "" {
      assert s == "\"" + rest && s[1..] == rest && acc + x == acc;
    } else {
      var n: nat, m: nat :| BodyStep(t, x, n, m);
      var u, p, back := t[..n], x[..m], t[n..] + ("\"" + rest);
      BodyRead(t[n..], x[m..], acc + p, rest);
      assert acc + p + x[m..] == acc + x;
      assert s == u + back && s[0] == u[0] && s[1..] == u[1..] + back;
      if n > 1 {
        EscapeRead(u[1..], p, back);
      } else {
        assert p == [s[0]] && s[1..] == back;
      }
    }
  }

  lemma {:induction false} BodySound(s: string, acc: string) returns (t: string, x: string)
    requires ReadString(s, acc).GoodText?
    ensures var r := ReadString(s, acc); s == t + ("\"" + r.rest) && r.t == acc + x && BodyText(t, x)
    decreases |s|
  {
    hide ReadString, PieceText, BodyText;
    StringStart(s, acc);
    if s[0] == '"' {
      t, x := "", "";
      assert s == t + ("\"" + s[1..]) && acc + x == acc;
    } else {
      var u, p := PieceSound(s, acc);
      var t1, x1 := BodySound(s[|u|..], acc + p);
      StepBack(u, p, t1, x1);
      t, x := u + t1, p + x1;
      assert s == u + s[|u|..];
      assert acc + p + x1 == acc + x;
    }
  }

  lemma StringStart(s: string, acc: string)
    requires ReadString(s, acc).GoodText?
    ensures s != "" && (s[0] == '"' ==> ReadString(s, acc) == GoodText(acc, s[1..])) && BodyText("", "")
  {
  }

  lemma StepBack(u: string, p: string, t: string, x: string)
    requires u != "" && PieceText(u, p) && BodyText(t, x)
    ensures BodyText(u + t, p + x)
  {
    hide PieceText;
    var n, m := |u|, |p|;
    assert (u + t)[..n] == u && (u + t)[n..] == t && (p + x)[..m] == p && (p + x)[m..] == x;
    assert BodyStep(u + t, p + x, n, m);
  }

  /** The first piece of what is read. */
  lemma PieceSound(s: string, acc: string) returns (u: string, p: string)
    requires ReadString(s, acc).GoodText? && s != "" && s[0] != '"'
    ensures u != "" && |u| <= |s| && u == s[..|u|] && PieceText(u, p)
    ensures ReadString(s, acc) == ReadString(s[|u|..], acc + p)
  {
    hide EscapeText, ReadEscape;
    if s[0] == '\\' {
      var r := ReadEscape(s[1..]);
      var v := EscapeSound(s[1..]);
      LongEscape(v, r.t);
      u, p := "\\" + v, r.t;
      assert u[1..] == v && s == u + r.rest;
    } else {
      u, p := s[..1], [s[0]];
    }
  }

  lemma LongEscape(u: string, p: string)
    requires EscapeText(u, p)
    ensures u != ""
  {
  }

  // ---------------------------------------------------------------- numbers are read as they say

  /** What stands behind a value in a list or a map, and at the end of a text. */
  predicate Closes(rest: string) { rest == "" || rest[0] in " \t\n\r,]}" }

  lemma WholeRead(w: string, rest: string)
    requires w != "" && Whole(w) && (rest == "" || !IsDigit(rest[0]))
    ensures WholeLength(w + rest) == |w| && SignLength(w + rest) == if w[0] == '-' then 1 else 0
  {
    var s := w + rest;
    if w[0] == '-' {
      assert w[0] in w;
      assert s[1..] == w[1..] + rest;
      DigitsEnd(w[1..], rest);
    } else {
      assert s[0..] == w + rest;
      DigitsEnd(w, rest);
    }
  }

  lemma FractionRead(f: string, rest: string)
    requires Fraction(f) && (rest == "" || (!IsDigit(rest[0]) && rest[0] != '.'))
    ensures FractionLength(f + rest) == |f|
  {
    if f == "" {
      assert f + rest == rest;
    } else {
      assert (f + rest)[1..] == f[1..] + rest;
      DigitsEnd(f[1..], rest);
    }
  }

  lemma ExponentRead(e: string, rest: string)
    requires Exponent(e) && Closes(rest)
    ensures ExponentLength(e + rest) == |e|
  {
    var s := e + rest;
    if e == "" {
      assert s == rest;
    } else if |e| > 1 && e[1] in "+-" {
      assert s[2..] == e[2..] + rest;
      assert e[1] in e[1..];
      DigitsEnd(e[2..], rest);
    } else {
      assert s[1..] == e[1..] + rest;
      if |e| > 1 { assert e[1] in e[1..]; }
      DigitsEnd(e[1..], rest);
    }
  }

  lemma IntegerRead(t: string, n: int, rest: string)
    requires IntegerText(t, n) && Closes(rest)
    ensures ReadNumber(t + rest) == Good(JInt(n), rest)
  {
    hide LeadingDigits, NumeralValue;
    var s := t + rest;
    var sign := if t[0] == '-' then 1 else 0;
    WholeRead(t, rest);
    assert s[|t|..] == rest && s[sign..|t|] == t[sign..];
    FractionRead("", rest);
    ExponentRead("", rest);
    assert "" + rest == rest && s[|t| + 0..] == rest;
  }

  lemma FloatRead(t: string, a: nat, b: nat, rest: string)
    requires FloatAt(t, a, b) && Closes(rest)
    ensures ReadNumber(t + rest) == Good(JFloat(t), rest)
  {
    hide LeadingDigits, FractionLength, ExponentLength, WholeLength, SignLength, Whole, Fraction, Exponent, Closes;
    var s := t + rest;
    var w, f, e := t[..a], t[a..b], t[b..];
    var back := e + rest;
    PartsMeet(f, e, rest);
    assert s == w + (f + back);
    WholeRead(w, f + back);
    assert s[a..] == f + back && s[b..] == back;
    FractionRead(f, back);
    ExponentRead(e, rest);
    assert NumberLength(s) == b + |e|;
    assert s[..|t|] == t && s[|t|..] == rest;
  }

  /** Where the parts of a number meet. */
  lemma PartsMeet(f: string, e: string, rest: string)
    requires Fraction(f) && Exponent(e) && Closes(rest)
    ensures var back := e + rest; back == "" || (!IsDigit(back[0]) && back[0] != '.')
    ensures var more := f + (e + rest); more == "" || !IsDigit(more[0])
  {
    if e == "" { assert e + rest == rest; }
    if f == "" { assert f + (e + rest) == e + rest; }
  }

  predicate StartsNumber(s: string) { s != "" && (s[0] == '-' || IsDigit(s[0])) }

  lemma NumberSound(s: string, d: nat) returns (t: string)
    requires StartsNumber(s) && ReadNumber(s).Good? && d <= MAX_DEPTH
    ensures s == t + ReadNumber(s).rest && ValueText(t, ReadNumber(s).v, d)
  {
    hide LeadingDigits, NumeralValue, WholeLength, NumberLength, SignLength;
    var a, n := WholeLength(s), NumberLength(s);
    t := s[..n];
    assert s == t + s[n..];
    if n > a {
      FloatSound(s);
    } else {
      IntegerSound(s);
    }
  }

  lemma FloatSound(s: string)
    requires StartsNumber(s) && NumberLength(s) > WholeLength(s)
    ensures exists a: nat, b: nat :: FloatAt(s[..NumberLength(s)], a, b)
  {
    hide LeadingDigits, NumeralValue, FractionLength, ExponentLength, SignLength, Whole, Fraction, Exponent;
    var a, n := WholeLength(s), NumberLength(s);
    var f, t := FractionLength(s[a..]), s[..n];
    var b := a + f;
    WholeSound(s);
    FractionSound(s[a..]);
    ExponentSound(s[b..]);
    assert t[..a] == s[..a] && t[a..b] == s[a..][..f] && t[b..] == s[b..][..n - b];
    assert FloatAt(t, a, b);
  }

  lemma IntegerSound(s: string)
    requires StartsNumber(s) && IntOf(SignLength(s) == 1, s[SignLength(s)..WholeLength(s)]).Some?
    ensures IntegerText(s[..WholeLength(s)], IntOf(SignLength(s) == 1, s[SignLength(s)..WholeLength(s)]).value)
  {
    hide LeadingDigits, NumeralValue, WholeLength;
    var a, sign := WholeLength(s), SignLength(s);
    var t := s[..a];
    assert t[sign..] == s[sign..a];
    if sign == 0 { assert t[0..] == t; }
  }

  lemma WholeSound(s: string)
    requires s != "" && (s[0] == '-' || IsDigit(s[0]))
    ensures 0 < WholeLength(s) <= |s| && Whole(s[..WholeLength(s)])
  {
    var a, sign := WholeLength(s), SignLength(s);
    assert s[sign..a] == s[..a][sign..];
    if sign == 0 {
      assert s[0..] == s && s[..a][0..] == s[..a];
    }
  }

  lemma FractionSound(s: string)
    ensures Fraction(s[..FractionLength(s)])
  {
    var n := FractionLength(s);
    if n > 0 { assert s[..n][1..] == s[1..][..n - 1]; }
  }

  lemma ExponentSound(s: string)
    ensures ExponentLength(s) <= |s| && Exponent(s[..ExponentLength(s)])
  {
    var n := ExponentLength(s);
    if n > 0 {
      if |s| > 1 && (s[1] == '+' || s[1] == '-') {
        assert s[..n][2..] == s[2..][..n - 2];
      } else {
        assert s[..n][1..] == s[1..][..n - 1];
      }
    }
  }

  // ---------------------------------------------------------------- values are read as they say

  lemma {:induction false} SpacesSkipped(w: string, rest: string)
    requires Spaces(w)
    ensures SkipSpaces(w + rest) == SkipSpaces(rest)
  {
    if w == "" {
      assert w + rest == rest;
    } else {
      assert w[0] in w && (w + rest)[1..] == w[1..] + rest;
      SpacesSkipped(w[1..], rest);
    }
  }

  lemma SpacesThen(w: string, rest: string)
    requires Spaces(w) && (rest == "" || rest[0] !in " \t\n\r")
    ensures SkipSpaces(w + rest) == rest
  {
    SpacesSkipped(w, rest);
  }

  lemma {:induction false} SkippedSpaces(s: string) returns (w: string)
    ensures Spaces(w) && s == w + SkipSpaces(s)
  {
    if s != "" && IsSpace(s[0]) {
      w := SkippedSpaces(s[1..]);
      w := [s[0]] + w;
      assert s == [s[0]] + s[1..];
    } else {
      w := "";
    }
  }

  /** No text of a value begins with a space, a closing bracket or brace. */
  lemma ValueStart(t: string, v: Json, d: nat)
    requires ValueText(t, v, d)
    ensures t != "" && t[0] !in " \t\n\r]}"
  {
    if v.JInt? {
      if t[0] != '-' { assert t[0] in t; }
    } else if v.JFloat? {
      var a: nat, b: nat :| FloatAt(t, a, b);
      assert t[..a][0] == t[0];
      if Digits(t[..a]) { assert t[0] in t[..a]; }
    }
  }

  lemma {:induction false} ValueRead(t: string, v: Json, d: nat, rest: string)
    requires ValueText(t, v, d) && Closes(rest)
    ensures ReadValue(t + rest, d) == Good(v, rest)
    decreases |t|, 1
  {
    ValueStart(t, v, d);
    var s := t + rest;
    SpacesThen("", s);
    assert "" + s == s && s[0] == t[0] && s[..|t|] == t && s[|t|..] == rest;
    match v
    case JInt(n) => NumberValueRead(t, v, d, rest);
    case JFloat(x) => NumberValueRead(t, v, d, rest);
    case JStr(x) => StringValueRead(t, x, d, rest);
    case JList(items) => ListRead(t, items, d, rest);
    case JMap(es) => MapRead(t, es, d, rest);
    case _ =>
  }

  lemma NumberValueRead(t: string, v: Json, d: nat, rest: string)
    requires ValueText(t, v, d) && (v.JInt? || v.JFloat?) && Closes(rest)
    ensures ReadValue(t + rest, d) == Good(v, rest)
  {
    hide ReadNumber;
    ValueStart(t, v, d);
    var s := t + rest;
    SpacesThen("", s);
    assert "" + s == s && s[0] == t[0];
    if v.JInt? {
      IntegerRead(t, v.n, rest);
      if t[0] != '-' { assert t[0] in t; }
    } else {
      var a: nat, b: nat :| FloatAt(t, a, b);
      FloatRead(t, a, b, rest);
      assert t[..a][0] == t[0];
      if Digits(t[..a]) { assert t[0] in t[..a]; }
    }
  }

  /** A string in front of anything. */
  lemma StringRead(t: string, x: string, rest: string)
    requires StringText(t, x)
    ensures ReadString((t + rest)[1..], "") == GoodText(x, rest)
  {
    hide ReadString, BodyText;
    var body := t[1..|t| - 1];
    BodyRead(body, x, "", rest);
    assert "" + x == x;
    assert t == "\"" + body + "\"" && (t + rest)[1..] == body + ("\"" + rest);
  }

  lemma StringValueRead(t: string, x: string, d: nat, rest: string)
    requires d <= MAX_DEPTH && StringText(t, x)
    ensures ReadValue(t + rest, d) == Good(JStr(x), rest)
  {
    hide ReadString;
    StringRead(t, x, rest);
    SpacesThen("", t + rest);
    assert "" + (t + rest) == t + rest;
  }

  /** A value with spaces around it; those behind it are left to be skipped. */
  lemma {:induction false} SpacedRead(t: string, v: Json, d: nat, rest: string) returns (w: string)
    requires Spaced(t, v, d) && Closes(rest)
    ensures Spaces(w) && ReadValue(t + rest, d) == Good(v, w + rest)
    decreases |t|, 2
  {
    hide ValueText, ReadValue, SkipSpaces;
    var a: nat, b: nat :| SpacedAt(t, a, b, v, d);
    w := t[b..];
    var u := t[a..b];
    SpacesClose(w, rest);
    ValueRead(u, v, d, w + rest);
    ThreeParts(t, a, b, rest);
    SpacesSkipped(t[..a], u + (w + rest));
    SameValue(t + rest, u + (w + rest), d);
  }

  lemma SpacesClose(w: string, rest: string)
    requires Spaces(w) && Closes(rest)
    ensures Closes(w + rest)
  {
    if w == "" { assert w + rest == rest; } else { assert w[0] in w; }
  }

  lemma ThreeParts(t: string, a: nat, b: nat, rest: string)
    requires a <= b <= |t|
    ensures t + rest == t[..a] + (t[a..b] + (t[b..] + rest))
  {
  }

  /** Spaces in front make no difference. */
  lemma SameValue(s1: string, s2: string, d: nat)
    requires SkipSpaces(s1) == SkipSpaces(s2)
    ensures ReadValue(s1, d) == ReadValue(s2, d)
  {
  }

  lemma {:induction false} ListRead(t: string, items: seq<Json>, d: nat, rest: string)
    requires ValueText(t, JList(items), d)
    ensures ReadValue(t + rest, d) == Good(JList(items), rest)
    decreases |t|, 0
  {
    hide ReadValue, ReadArray, ReadItems, SkipSpaces, ItemsText;
    var inner := t[1..|t| - 1];
    ListOpens(t, inner, d, rest);
    if items == [] {
      EmptyReads(inner, d, rest);
    } else {
      ItemsRead(inner, items, [], d, rest);
      assert [] + items == items;
      ItemsStart(inner, items, d, "]" + rest);
      FullReads(inner + ("]" + rest), d);
    }
  }

  lemma ListOpens(t: string, inner: string, d: nat, rest: string)
    requires d <= MAX_DEPTH && |t| >= 2 && t[0] == '[' && t[|t| - 1] == ']' && inner == t[1..|t| - 1]
    ensures ReadValue(t + rest, d) == ReadArray(inner + ("]" + rest), d)
  {
    hide ReadArray, ReadLiteral, ReadString, ReadNumber, ReadObject, SkipSpaces;
    Starts(t, rest);
    assert (t + rest)[1..] == inner + ("]" + rest);
  }

  lemma Starts(t: string, rest: string)
    requires t != "" && t[0] !in " \t\n\r"
    ensures SkipSpaces(t + rest) == t + rest && (t + rest)[0] == t[0]
  {
    SpacesThen("", t + rest);
    assert "" + (t + rest) == t + rest;
  }

  lemma EmptyReads(inner: string, d: nat, rest: string)
    requires Spaces(inner)
    ensures ReadArray(inner + ("]" + rest), d) == Good(JList([]), rest)
    ensures ReadObject(inner + ("}" + rest), d) == Good(JMap([]), rest)
  {
    hide ReadItems, ReadEntries, SkipSpaces;
    SpacesThen(inner, "]" + rest);
    SpacesThen(inner, "}" + rest);
    assert ("]" + rest)[1..] == rest && ("}" + rest)[1..] == rest;
  }

  lemma FullReads(s: string, d: nat)
    requires SkipSpaces(s) != ""
    ensures SkipSpaces(s)[0] != ']' ==> ReadArray(s, d) == ReadItems(s, [], d)
    ensures SkipSpaces(s)[0] != '}' ==> ReadObject(s, d) == ReadEntries(s, [], d)
  {
    hide ReadItems, ReadEntries, SkipSpaces;
    SameItems(s, SkipSpaces(s), d);
    SameEntries(s, SkipSpaces(s), d);
  }

  lemma SameItems(s1: string, s2: string, d: nat)
    requires s2 == SkipSpaces(s1)
    ensures forall items :: ReadItems(s1, items, d) == ReadItems(s2, items, d)
  {
    SkipTwice(s1);
    SameValue(s1, s2, d + 1);
  }

  lemma SkipTwice(s: string)
    ensures SkipSpaces(SkipSpaces(s)) == SkipSpaces(s)
  {
  }

  /** A list that has items does not look empty. */
  lemma ItemsStart(t: string, items: seq<Json>, d: nat, rest: string)
    requires items != [] && ItemsText(t, items, d)
    ensures var s := SkipSpaces(t + rest); s != "" && s[0] != ']'
  {
    hide Spaced;
    if |items| == 1 {
      SpacedStart(t, items[0], d + 1, rest);
    } else {
      var i: nat :| ItemAt(t, i, items, d);
      SpacedStart(t[..i], items[0], d + 1, t[i..] + rest);
      assert t + rest == t[..i] + (t[i..] + rest);
    }
  }

  lemma SpacedStart(t: string, v: Json, d: nat, rest: string)
    requires Spaced(t, v, d)
    ensures var s := SkipSpaces(t + rest); s != "" && s[0] != ']'
  {
    hide ValueText;
    var a: nat, b: nat :| SpacedAt(t, a, b, v, d);
    ValueStart(t[a..b], v, d);
    var back := t[a..b] + (t[b..] + rest);
    assert t + rest == t[..a] + back;
    SpacesThen(t[..a], back);
  }

  lemma {:induction false} ItemsRead(t: string, items: seq<Json>, done: seq<Json>, d: nat, rest: string)
    requires items != [] && ItemsText(t, items, d)
    ensures ReadItems(t + ("]" + rest), done, d) == Good(JList(done + items), rest)
    decreases |t|, 3
  {
    hide Spaced, ReadItems, ReadValue, SkipSpaces;
    if |items| == 1 {
      var w := SpacedRead(t, items[0], d + 1, "]" + rest);
      SpacesThen(w, "]" + rest);
      ItemStep(t + ("]" + rest), done, d, items[0], w + ("]" + rest));
      assert ("]" + rest)[1..] == rest && items == [items[0]];
    } else {
      var k: nat :| ItemAt(t, k, items, d);
      var back := "," + (t[k + 1..] + ("]" + rest));
      assert t + ("]" + rest) == t[..k] + back && back[1..] == t[k + 1..] + ("]" + rest);
      var w := SpacedRead(t[..k], items[0], d + 1, back);
      SpacesThen(w, back);
      ItemStep(t + ("]" + rest), done, d, items[0], w + back);
      ItemsRead(t[k + 1..], items[1..], done + [items[0]], d, rest);
      assert done + [items[0]] + items[1..] == done + items;
    }
  }

  /** What the parser does behind an item. */
  lemma ItemStep(s: string, done: seq<Json>, d: nat, v: Json, rest: string)
    requires ReadValue(s, d + 1) == Good(v, rest)
    ensures ReadItems(s, done, d) ==
      var t := SkipSpaces(rest);
      if t == "" then Bad
      else if t[0] == ',' then ReadItems(t[1..], done + [v], d)
      else if t[0] == ']' then Good(JList(done + [v]), t[1..])
      else Bad
  {
    hide ReadValue;
  }

  lemma {:induction false} MapRead(t: string, es: seq<Entry>, d: nat, rest: string)
    requires ValueText(t, JMap(es), d)
    ensures ReadValue(t + rest, d) == Good(JMap(es), rest)
    decreases |t|, 0
  {
    hide ReadValue, ReadObject, ReadEntries, SkipSpaces, EntriesText;
    var inner := t[1..|t| - 1];
    MapOpens(t, inner, d, rest);
    if es == [] {
      EmptyReads(inner, d, rest);
    } else {
      var more :| more != [] && es == SetAll([], more) && EntriesText(inner, more, d);
      EntriesRead(inner, more, [], d, rest);
      EntriesStart(inner, more, d, "}" + rest);
      FullReads(inner + ("}" + rest), d);
    }
  }

  lemma MapOpens(t: string, inner: string, d: nat, rest: string)
    requires d <= MAX_DEPTH && |t| >= 2 && t[0] == '{' && t[|t| - 1] == '}' && inner == t[1..|t| - 1]
    ensures ReadValue(t + rest, d) == ReadObject(inner + ("}" + rest), d)
  {
    hide ReadArray, ReadLiteral, ReadString, ReadNumber, ReadObject, SkipSpaces;
    Starts(t, rest);
    assert (t + rest)[1..] == inner + ("}" + rest);
  }

  lemma SameEntries(s1: string, s2: string, d: nat)
    requires s2 == SkipSpaces(s1)
    ensures forall es :: ReadEntries(s1, es, d) == ReadEntries(s2, es, d)
  {
    SkipTwice(s1);
  }

  lemma EntriesStart(t: string, es: seq<Entry>, d: nat, rest: string)
    requires es != [] && EntriesText(t, es, d)
    ensures var s := SkipSpaces(t + rest); s != "" && s[0] == '"'
  {
    hide EntryText;
    if |es| == 1 {
      EntryStart(t, es[0], d, rest);
    } else {
      var i: nat :| EntriesAt(t, i, es, d);
      EntryStart(t[..i], es[0], d, t[i..] + rest);
      assert t + rest == t[..i] + (t[i..] + rest);
    }
  }

  lemma EntryStart(t: string, e: Entry, d: nat, rest: string)
    requires EntryText(t, e, d)
    ensures var s := SkipSpaces(t + rest); s != "" && s[0] == '"'
  {
    hide Spaced, StringText;
    var a: nat, b: nat, c: nat :| EntryAt(t, a, b, c, e, d);
    QuoteFirst(t[a..b], e.key.s);
    var back := t[a..b] + (t[b..] + rest);
    assert t + rest == t[..a] + back;
    SpacesThen(t[..a], back);
  }

  /** One entry, up to what follows it. */
  lemma {:induction false} EntryRead(t: string, e: Entry, done: seq<Entry>, d: nat, rest: string) returns (w: string)
    requires EntryText(t, e, d) && Closes(rest)
    ensures Spaces(w) && ReadEntries(t + rest, done, d) == AfterEntry(w + rest, done, e, d)
    decreases |t|, 3
  {
    hide Spaced, StringText, ReadEntries, AfterEntry, ReadString, ReadValue, SkipSpaces;
    var a: nat, b: nat, c: nat :| EntryAt(t, a, b, c, e, d);
    w := SpacedRead(t[c + 1..], e.value, d + 1, rest);
    var colon := ":" + (t[c + 1..] + rest);
    var key := t[a..b] + (t[b..c] + colon);
    assert t + rest == t[..a] + key && colon[1..] == t[c + 1..] + rest;
    QuoteFirst(t[a..b], e.key.s);
    SpacesThen(t[..a], key);
    StringRead(t[a..b], e.key.s, t[b..c] + colon);
    SpacesThen(t[b..c], colon);
    EntryStep(t + rest, key, t[b..c] + colon, colon, w + rest, done, e, d);
  }

  lemma EntryStep(s: string, key: string, behind: string, colon: string, rest: string, done: seq<Entry>,
                  e: Entry, d: nat)
    requires e.key.JStr? && key != "" && key[0] == '"' && colon != "" && colon[0] == ':'
    requires SkipSpaces(s) == key && ReadString(key[1..], "") == GoodText(e.key.s, behind)
    requires SkipSpaces(behind) == colon && ReadValue(colon[1..], d + 1) == Good(e.value, rest)
    ensures ReadEntries(s, done, d) == AfterEntry(rest, done, e, d)
  {
    hide ReadString, ReadValue;
  }

  lemma QuoteFirst(t: string, x: string)
    requires StringText(t, x)
    ensures t != "" && t[0] == '"'
  {
  }

  /** The parser behind an entry. */
  function AfterEntry(s: string, done: seq<Entry>, e: Entry, d: nat): Parsed {
    var u := SkipSpaces(s);
    var more := SetEntry(done, e.key, e.value);
    if u == "" then Bad
    else if u[0] == ',' then ReadEntries(u[1..], more, d)
    else if u[0] == '}' then Good(JMap(more), u[1..])
    else Bad
  }

  lemma {:induction false} EntriesRead(t: string, es: seq<Entry>, done: seq<Entry>, d: nat, rest: string)
    requires es != [] && EntriesText(t, es, d)
    ensures ReadEntries(t + ("}" + rest), done, d) == Good(JMap(SetAll(done, es)), rest)
    decreases |t|, 4
  {
    hide EntryText, ReadEntries;
    if |es| == 1 {
      var w := EntryRead(t, es[0], done, d, "}" + rest);
      SpacesThen(w, "}" + rest);
      assert ("}" + rest)[1..] == rest && es[1..] == [];
    } else {
      var k: nat :| EntriesAt(t, k, es, d);
      var back := "," + (t[k + 1..] + ("}" + rest));
      assert t + ("}" + rest) == t[..k] + back && back[1..] == t[k + 1..] + ("}" + rest);
      var w := EntryRead(t[..k], es[0], done, d, back);
      SpacesThen(w, back);
      EntriesRead(t[k + 1..], es[1..], SetEntry(done, es[0].key, es[0].value), d, rest);
    }
  }

  // ---------------------------------------------------------------- what is read has been said

  lemma {:induction false} ValueSound(s: string, d: nat) returns (w: string, t: string)
    requires ReadValue(s, d).Good?
    ensures var r := ReadValue(s, d); s == w + (t + r.rest) && Spaces(w) && ValueText(t, r.v, d)
    decreases |s|, 1
  {
    hide ReadNumber, ReadString, ReadArray, ReadObject, ReadLiteral, ValueText, SkipSpaces;
    w := SkippedSpaces(s);
    var u := SkipSpaces(s);
    var r := ReadValue(s, d);
    if u[0] == '"' {
      t := StringSound(u, d);
    } else if u[0] == '[' {
      t := ListSound(u, d);
    } else if u[0] == '{' {
      t := MapSound(u, d);
    } else if StartsNumber(u) {
      t := NumberSound(u, d);
    } else {
      t := LiteralSound(u, r, d);
    }
  }

  lemma LiteralSound(u: string, r: Parsed, d: nat) returns (t: string)
    requires d <= MAX_DEPTH && r.Good?
    requires || r == ReadLiteral(u, "null", JNull) || r == ReadLiteral(u, "true", JBool(true))
          || r == ReadLiteral(u, "false", JBool(false))
    ensures u == t + r.rest && ValueText(t, r.v, d)
  {
    t := u[..|u| - |r.rest|];
  }

  lemma StringSound(u: string, d: nat) returns (t: string)
    requires d <= MAX_DEPTH && u != "" && u[0] == '"' && ReadString(u[1..], "").GoodText?
    ensures var r := ReadString(u[1..], ""); u == t + r.rest && ValueText(t, JStr(r.t), d) && StringText(t, r.t)
  {
    hide ReadString, BodyText;
    var r := ReadString(u[1..], "");
    var b, x := BodySound(u[1..], "");
    assert x == r.t;
    t := "\"" + b + "\"";
    assert t[1..|t| - 1] == b;
    assert u == [u[0]] + u[1..];
  }

  lemma {:induction false} ListSound(u: string, d: nat) returns (t: string)
    requires d <= MAX_DEPTH && u != "" && u[0] == '[' && ReadArray(u[1..], d).Good?
    ensures var r := ReadArray(u[1..], d); u == t + r.rest && ValueText(t, r.v, d)
    decreases |u|, 0
  {
    hide ReadItems, ItemsText, ValueText, SkipSpaces;
    var r := ReadArray(u[1..], d);
    var at := SkipSpaces(u[1..]);
    var inner;
    if at != "" && at[0] == ']' {
      inner := SkippedSpaces(u[1..]);
      assert at == "]" + at[1..];
    } else {
      var items;
      SameItems(u[1..], at, d);
      inner, items := ItemsSound(u[1..], [], d);
      assert r.v.items == items;
    }
    t := ['['] + inner + [']'];
    Bracketed(u, '[', inner, ']', r.rest);
    ListText(t, inner, r.v.items, d);
  }

  lemma Bracketed(u: string, open: char, inner: string, close: char, rest: string)
    requires u != "" && u[0] == open && u[1..] == inner + ([close] + rest)
    ensures u == [open] + inner + [close] + rest
  {
  }

  lemma ListText(t: string, inner: string, items: seq<Json>, d: nat)
    requires d <= MAX_DEPTH && t == ['['] + inner + [']']
    requires if items == [] then Spaces(inner) else ItemsText(inner, items, d)
    ensures ValueText(t, JList(items), d)
  {
    assert t[1..|t| - 1] == inner;
  }

  lemma MapText(t: string, inner: string, es: seq<Entry>, more: seq<Entry>, d: nat)
    requires d <= MAX_DEPTH && t == ['{'] + inner + ['}']
    requires if es == [] then Spaces(inner) else more != [] && es == SetAll([], more) && EntriesText(inner, more, d)
    ensures ValueText(t, JMap(es), d)
  {
    assert t[1..|t| - 1] == inner;
  }

  /** A value with spaces in front, and those behind. */
  lemma {:induction false} SpacedSound(s: string, d: nat) returns (t: string)
    requires ReadValue(s, d).Good?
    ensures var r := ReadValue(s, d); s == t + SkipSpaces(r.rest) && Spaced(t, r.v, d)
    decreases |s|, 2
  {
    hide ReadValue, ValueText;
    var r := ReadValue(s, d);
    var w, u := ValueSound(s, d);
    var w2 := SkippedSpaces(r.rest);
    t := w + u + w2;
    var a, b := |w|, |w + u|;
    assert t[..a] == w && t[a..b] == u && t[b..] == w2;
    assert SpacedAt(t, a, b, r.v, d);
  }

  lemma {:induction false} ItemsSound(s: string, done: seq<Json>, d: nat) returns (t: string, items: seq<Json>)
    requires ReadItems(s, done, d).Good?
    ensures var r := ReadItems(s, done, d);
      s == t + ("]" + r.rest) && r.v == JList(done + items) && items != [] && ItemsText(t, items, d)
    decreases |s|, 3
  {
    hide ReadValue, Spaced;
    var r := ReadValue(s, d + 1);
    var first := SpacedSound(s, d + 1);
    var u := SkipSpaces(r.rest);
    assert u == [u[0]] + u[1..];
    if u[0] == ']' {
      t, items := first, [r.v];
    } else {
      ValueMoves(s, d + 1);
      var more, others := ItemsSound(u[1..], done + [r.v], d);
      t, items := first + ("," + more), [r.v] + others;
      var k := |first|;
      assert t[..k] == first && t[k + 1..] == more && items[1..] == others;
      assert ItemAt(t, k, items, d);
      assert done + [r.v] + others == done + items;
    }
  }

  lemma ValueMoves(s: string, d: nat)
    ensures ReadValue(s, d).Good? ==> |ReadValue(s, d).rest| < |s|
  {
  }

  lemma {:induction false} MapSound(u: string, d: nat) returns (t: string)
    requires d <= MAX_DEPTH && u != "" && u[0] == '{' && ReadObject(u[1..], d).Good?
    ensures var r := ReadObject(u[1..], d); u == t + r.rest && ValueText(t, r.v, d)
    decreases |u|, 0
  {
    hide ReadEntries, EntriesText, ValueText, SkipSpaces, SetAll;
    var r := ReadObject(u[1..], d);
    var at := SkipSpaces(u[1..]);
    var inner, es;
    if at != "" && at[0] == '}' {
      es := [];
      inner := SkippedSpaces(u[1..]);
      assert at == "}" + at[1..];
    } else {
      SameEntries(u[1..], at, d);
      inner, es := EntriesSound(u[1..], [], d);
      SetAllSome([], es);
    }
    t := ['{'] + inner + ['}'];
    Bracketed(u, '{', inner, '}', r.rest);
    MapText(t, inner, r.v.entries, es, d);
  }

  lemma {:induction false} SetAllSome(done: seq<Entry>, es: seq<Entry>)
    ensures done != [] || es != [] ==> SetAll(done, es) != []
    decreases |es|
  {
    if es != [] { SetAllSome(SetEntry(done, es[0].key, es[0].value), es[1..]); }
  }

  /** One entry and what the parser does behind it. */
  lemma {:induction false} EntrySound(s: string, done: seq<Entry>, d: nat) returns (t: string, e: Entry, rest: string)
    requires ReadEntries(s, done, d).Good?
    ensures s == t + SkipSpaces(rest) && |rest| < |s| && EntryText(t, e, d)
    ensures ReadEntries(s, done, d) == AfterEntry(rest, done, e, d)
    decreases |s|, 3
  {
    hide ReadEntries, ReadValue, ReadString, Spaced, StringText, SkipSpaces, EntryText, AfterEntry;
    EntryParts(s, done, d);
    var q := SkipSpaces(s);
    var key := ReadString(q[1..], "");
    var colon := SkipSpaces(key.rest);
    var v := ReadValue(colon[1..], d + 1);
    var w1 := SkippedSpaces(s);
    var x := StringSound(q, 0);
    var w2 := SkippedSpaces(key.rest);
    var y := SpacedSound(colon[1..], d + 1);
    e, rest := Entry(JStr(key.t), v.v), v.rest;
    t := w1 + (x + (w2 + (":" + y)));
    MakeEntry(w1, x, w2, y, e, d);
    assert colon == ":" + (y + SkipSpaces(rest));
    assert s == w1 + (x + (w2 + (":" + (y + SkipSpaces(rest)))));
    assert s == t + SkipSpaces(rest);
  }

  lemma EntryParts(s: string, done: seq<Entry>, d: nat)
    requires ReadEntries(s, done, d).Good?
    ensures SkipSpaces(s) != "" && SkipSpaces(s)[0] == '"'
    ensures var key := ReadString(SkipSpaces(s)[1..], "");
      && key.GoodText? && SkipSpaces(key.rest) != "" && SkipSpaces(key.rest)[0] == ':'
      && var v := ReadValue(SkipSpaces(key.rest)[1..], d + 1);
      && v.Good? && |v.rest| < |s| && ReadEntries(s, done, d) == AfterEntry(v.rest, done, Entry(JStr(key.t), v.v), d)
    ensures |SkipSpaces(ReadString(SkipSpaces(s)[1..], "").rest)| <= |s|
  {
  }

  lemma MakeEntry(w1: string, x: string, w2: string, y: string, e: Entry, d: nat)
    requires Spaces(w1) && e.key.JStr? && StringText(x, e.key.s) && Spaces(w2) && Spaced(y, e.value, d + 1)
    ensures EntryText(w1 + (x + (w2 + (":" + y))), e, d)
  {
    hide Spaced, StringText, Spaces;
    var t := w1 + (x + (w2 + (":" + y)));
    var a, b, c := |w1|, |w1| + |x|, |w1| + |x| + |w2|;
    assert t[..a] == w1 && t[a..b] == x && t[b..c] == w2 && t[c] == ':' && t[c + 1..] == y;
    assert EntryAt(t, a, b, c, e, d);
  }

  lemma {:induction false} EntriesSound(s: string, done: seq<Entry>, d: nat) returns (t: string, es: seq<Entry>)
    requires ReadEntries(s, done, d).Good?
    ensures var r := ReadEntries(s, done, d);
      s == t + ("}" + r.rest) && es != [] && r.v == JMap(SetAll(done, es)) && EntriesText(t, es, d)
    decreases |s|, 4
  {
    hide ReadEntries, EntryText;
    var first, e, rest := EntrySound(s, done, d);
    var u := SkipSpaces(rest);
    var more := SetEntry(done, e.key, e.value);
    assert u == [u[0]] + u[1..];
    if u[0] == '}' {
      t, es := first, [e];
      assert es[1..] == [];
    } else {
      var t2, others := EntriesSound(u[1..], more, d);
      t, es := first + ("," + t2), [e] + others;
      var k := |first|;
      assert t[..k] == first && t[k + 1..] == t2 && es[1..] == others;
      assert EntriesAt(t, k, es, d);
    }
  }

  // ---------------------------------------------------------------- the main result

  /** The parser accepts exactly the texts of values with spaces around them, and gives what they say. */
  lemma ParsesExactly(s: string, v: Json)
    ensures ParseText(s) == Some(v) <==> Spaced(s, v, 0)
  {
    hide ReadValue, Spaced;
    var r := ReadValue(s, 0);
    if ParseText(s) == Some(v) {
      var t := SpacedSound(s, 0);
      assert t + "" == t;
    }
    if Spaced(s, v, 0) {
      var w := SpacedRead(s, v, 0, "");
      assert s + "" == s && w + "" == w;
      SpacesThen(w, "");
    }
  }
}
