/** The writer and the parser as they run: one appends to a text, the other moves a cursor over it. */
module JsonCursor {
  import opened Numerals
  import opened JsonText
  import opened Options
  import JsonGrammar

  // ---------------------------------------------------------------- the writer

  /** Adds a value's text to `out`, or reports that it cannot be written. */
  method JsonWrite(v: Json, out: string, depth: nat) returns (ok: bool, text: string)
    ensures ok <==> Write(v, depth).Some?
    ensures ok ==> text == out + Write(v, depth).value
    decreases v, 1
  {
    if depth > MAX_DEPTH { return false, out; }
    match v {
      case JNull => return true, out + "null";
      case JBool(b) => return true, out + if b then "true" else "false";
      case JInt(n) => return true, out + IntText(n);
      case JStr(s) =>
        text := WriteString(s, out);
        ok := true;
      case JList(items) =>
        ok, text := WriteList(v, out + "[", depth);
        if ok { text := text + "]"; }
      case JMap(entries) =>
        ok, text := WriteMap(v, out + "{", depth);
        if ok { text := text + "}"; }
      case JFloat(_) => return false, out;
      case JOther => return false, out;
    }
  }

  method WriteString(s: string, out: string) returns (text: string)
    ensures text == out + Quoted(s)
  {
    hide Escaped, Escape;
    text := out + "\"";
    var i := 0;
    assert s[0..] == s;
    while i < |s|
      invariant 0 <= i <= |s| && (out + "\"") + Escaped(s) == text + Escaped(s[i..])
    {
      EscapedFrom(s, i);
      Regroup(text, Escape(s[i]), Escaped(s[i + 1..]));
      text := text + Escape(s[i]);
      i := i + 1;
    }
    EscapedFrom(s, i);
    assert text + "" == text;
    Regroup(out, "\"", Escaped(s));
    Regroup(out, "\"" + Escaped(s), "\"");
    text := text + "\"";
  }

  lemma Regroup(a: string, b: string, c: string)
    ensures a + (b + c) == (a + b) + c
  {
  }

  lemma EscapedFrom(s: string, i: nat)
    requires i <= |s|
    ensures Escaped(s[i..]) == if i == |s| then "" else Escape(s[i]) + Escaped(s[i + 1..])
  {
    hide Escape;
    assert i < |s| ==> s[i..][1..] == s[i + 1..];
  }

  method WriteList(v: Json, out: string, depth: nat) returns (ok: bool, text: string)
    requires v.JList?
    ensures var w := WriteItems(v.items, depth + 1, true); (ok <==> w.Some?) && (ok ==> text == out + w.value)
    decreases v, 0
  {
    hide Write, WriteItems;
    ghost var whole := WriteItems(v.items, depth + 1, true);
    text := out;
    var i := 0;
    assert v.items[0..] == v.items;
    ghost var first := true;
    while i < |v.items|
      invariant 0 <= i <= |v.items| && first == (i == 0)
      invariant var rest := WriteItems(v.items[i..], depth + 1, first);
        (whole.Some? <==> rest.Some?) && (whole.Some? ==> out + whole.value == text + rest.value)
    {
      ItemsFrom(v.items, i, depth + 1, first);
      if i > 0 { text := text + ", "; }
      ok, text := JsonWrite(v.items[i], text, depth + 1);
      if !ok { return; }
      i := i + 1;
      first := false;
    }
    ItemsFrom(v.items, i, depth + 1, first);
    ok := true;
  }

  lemma ItemsFrom(items: seq<Json>, i: nat, depth: nat, first: bool)
    requires i <= |items|
    ensures WriteItems(items[i..], depth, first) ==
      if i == |items| then Some("")
      else Joined(Separator(first), Joined(Write(items[i], depth), WriteItems(items[i + 1..], depth, false)))
  {
    hide Write;
    assert i < |items| ==> items[i..][0] == items[i] && items[i..][1..] == items[i + 1..];
  }

  method WriteMap(v: Json, out: string, depth: nat) returns (ok: bool, text: string)
    requires v.JMap?
    ensures var w := WriteEntries(v.entries, depth + 1, true); (ok <==> w.Some?) && (ok ==> text == out + w.value)
    decreases v, 0
  {
    hide Write, WriteEntry, WriteEntries;
    ghost var whole := WriteEntries(v.entries, depth + 1, true);
    text := out;
    var i := 0;
    assert v.entries[0..] == v.entries;
    ghost var first := true;
    while i < |v.entries|
      invariant 0 <= i <= |v.entries| && first == (i == 0)
      invariant var rest := WriteEntries(v.entries[i..], depth + 1, first);
        (whole.Some? <==> rest.Some?) && (whole.Some? ==> out + whole.value == text + rest.value)
    {
      EntriesFrom(v.entries, i, depth + 1, first);
      if i > 0 { text := text + ", "; }
      EntryParts(v.entries[i], depth + 1);
      if !v.entries[i].key.JStr? { return false, text; }
      ghost var was := text;
      ok, text := JsonWrite(v.entries[i].key, text, depth + 1);
      if !ok { return; }
      text := text + ": ";
      ok, text := JsonWrite(v.entries[i].value, text, depth + 1);
      if !ok { return; }
      assert text == was + WriteEntry(v.entries[i], depth + 1).value;
      i := i + 1;
      first := false;
    }
    EntriesFrom(v.entries, i, depth + 1, first);
    ok := true;
  }

  lemma EntriesFrom(es: seq<Entry>, i: nat, depth: nat, first: bool)
    requires i <= |es|
    ensures WriteEntries(es[i..], depth, first) ==
      if i == |es| then Some("")
      else Joined(Separator(first), Joined(WriteEntry(es[i], depth), WriteEntries(es[i + 1..], depth, false)))
  {
    hide WriteEntry;
    assert i < |es| ==> es[i..][0] == es[i] && es[i..][1..] == es[i + 1..];
  }

  lemma EntryParts(e: Entry, depth: nat)
    ensures WriteEntry(e, depth) ==
      if !e.key.JStr? || Write(e.key, depth).None? || Write(e.value, depth).None? then None
      else Some(Write(e.key, depth).value + (": " + Write(e.value, depth).value))
  {
  }

  // ---------------------------------------------------------------- the parser

  class JsonParser {
    const s: string
    var i: nat
    /** Where the first error was found. */
    var err: Option<nat>

    constructor (src: string)
      ensures s == src && i == 0 && err == None
    {
      s := src;
      i, err := 0, None;
    }

    /** What is left. */
    function Left(): string
      reads this
    {
      if i <= |s| then s[i..] else ""
    }

    predicate Valid()
      reads this
    {
      i <= |s|
    }

    /** The cursor stands behind what was read, or an error is noted. */
    ghost predicate Did(r: Parsed, ok: bool, v: Json)
      reads this
    {
      && (ok <==> r.Good?) && (!ok ==> err.Some?)
      && (ok ==> Valid() && v == r.v && Left() == r.rest)
    }

    ghost predicate DidText(r: ParsedText, ok: bool, t: string)
      reads this
    {
      && (ok <==> r.GoodText?) && (!ok ==> err.Some?)
      && (ok ==> Valid() && t == r.t && Left() == r.rest)
    }

    lemma Next()
      requires Valid()
      ensures Left() == "" <==> i == |s|
      ensures i < |s| ==> Left()[0] == s[i] && Left()[1..] == s[i + 1..]
      ensures i + 1 < |s| ==> Left()[1] == s[i + 1] && Left()[2..] == s[i + 2..]
    {
    }

    method Fail() returns (ok: bool)
      modifies this`err
      ensures !ok && err.Some? && (old(err).Some? ==> err == old(err))
    {
      if err.None? { err := Some(i); }
      ok := false;
    }

    method SkipWs()
      requires Valid()
      modifies this`i
      ensures Valid() && Left() == SkipSpaces(old(Left()))
    {
      while i < |s| && IsSpace(s[i])
        invariant Valid() && SkipSpaces(Left()) == SkipSpaces(old(Left()))
      {
        Next();
        i := i + 1;
      }
      Next();
    }

    method ParseLit(lit: string, v: Json) returns (ok: bool, out: Json)
      requires Valid()
      modifies this
      ensures Did(ReadLiteral(old(Left()), lit, v), ok, out)
    {
      out := v;
      if i + |lit| > |s| || s[i..i + |lit|] != lit {
        assert i + |lit| <= |s| ==> Left()[..|lit|] == s[i..i + |lit|];
        ok := Fail();
        return;
      }
      assert Left()[..|lit|] == s[i..i + |lit|] && Left()[|lit|..] == s[i + |lit|..];
      i := i + |lit|;
      ok := true;
    }

    method SkipDigits()
      requires Valid()
      modifies this`i
      ensures Valid() && i == old(i) + LeadingDigits(old(Left()))
    {
      while i < |s| && IsDigit(s[i])
        invariant old(i) <= i <= |s| && i + LeadingDigits(Left()) == old(i) + LeadingDigits(old(Left()))
      {
        Next();
        i := i + 1;
      }
      Next();
    }

    lemma Later(start: nat, j: nat)
      requires start <= j <= |s|
      ensures s[start..][j - start..] == s[j..] && s[start..][..j - start] == s[start..j]
    {
    }

    /** Suffixes that are shorter begin later. */
    lemma Ahead(a: nat, b: nat)
      requires a <= |s| && b <= |s|
      ensures |s[b..]| < |s[a..]| ==> b > a
      ensures |s[b..]| <= |s[a..]| ==> b >= a
    {
    }

    method SkipFraction()
      requires Valid()
      modifies this`i
      ensures Valid() && i == old(i) + FractionLength(old(Left()))
    {
      Next();
      if i < |s| && s[i] == '.' {
        i := i + 1;
        SkipDigits();
      }
    }

    method SkipExponent()
      requires Valid()
      modifies this`i
      ensures Valid() && i == old(i) + ExponentLength(old(Left()))
    {
      hide LeadingDigits;
      Next();
      if i < |s| && (s[i] == 'e' || s[i] == 'E') {
        i := i + 1;
        if i < |s| && (s[i] == '+' || s[i] == '-') { i := i + 1; }
        SkipDigits();
      }
    }

    /** The sign and the digits of a number, and whether there was a sign. */
    method SkipWhole() returns (negative: bool)
      requires Valid()
      modifies this`i
      ensures Valid() && i == old(i) + WholeLength(old(Left())) && (negative <==> SignLength(old(Left())) == 1)
    {
      hide LeadingDigits;
      ghost var start := i;
      Next();
      negative := i < |s| && s[i] == '-';
      if negative { i := i + 1; }
      Later(start, i);
      SkipDigits();
    }

    method SkipRest(ghost start: nat)
      requires Valid() && start <= i && i == start + WholeLength(s[start..])
      modifies this`i
      ensures Valid() && i == start + NumberLength(s[start..])
    {
      hide WholeLength, FractionLength, ExponentLength;
      Later(start, i);
      SkipFraction();
      Later(start, i);
      SkipExponent();
    }

    method ParseNumber() returns (ok: bool, out: Json)
      requires Valid()
      modifies this
      ensures Did(ReadNumber(old(Left())), ok, out)
    {
      hide WholeLength, NumberLength, IntOf;
      out := JNull;
      var start := i;
      ghost var all := Left();
      var negative := SkipWhole();
      var whole := i;
      Later(start, i);
      SkipRest(start);
      Later(start, i);
      if i > whole {
        out := JFloat(s[start..i]);
        ok := true;
        return;
      }
      var digits := s[if negative then start + 1 else start..whole];
      assert digits == all[SignLength(all)..whole - start];
      var n := IntOf(negative, digits);
      if n.None? {
        ok := Fail();
        return;
      }
      out := JInt(n.value);
      ok := true;
    }

    /** Four hexadecimal digits. */
    method ParseHex4() returns (ok: bool, cp: nat)
      requires Valid()
      modifies this
      ensures var r := ReadHex4(old(Left()));
        (ok <==> r.Some?) && (!ok ==> err.Some?) && (ok ==> Valid() && cp == r.value.0 && Left() == r.value.1)
    {
      cp := 0;
      if i + 4 > |s| {
        ok := Fail();
        return;
      }
      var start := i;
      ghost var four := s[i..i + 4];
      assert four == Left()[..4] && s[i + 4..] == Left()[4..];
      var k := 0;
      while k < 4
        invariant 0 <= k <= 4 && i == start + k && start + 4 <= |s| && HexNumber(four[..k]) == Some(cp)
      {
        HexSnoc(four, k);
        var d := HexValue(s[i]);
        i := i + 1;
        if d.None? {
          HexStays(four, k + 1);
          ok := Fail();
          return;
        }
        cp := 16 * cp + d.value;
        k := k + 1;
      }
      assert four[..4] == four;
      ok := true;
    }

    /** Behind an opening quote's place: the string's text. */
    method ParseString() returns (ok: bool, t: string)
      requires Valid() && i < |s|
      modifies this
      ensures DidText(ReadString(old(Left())[1..], ""), ok, t)
      decreases |s| - i
    {
      hide ReadString, ReadEscape;
      Next();
      i := i + 1;
      t := "";
      ghost var whole := ReadString(Left(), "");
      while i < |s| && s[i] != '"'
        invariant Valid() && whole == ReadString(Left(), t)
        decreases |s| - i
      {
        ok, t := ParseStringPart(t);
        if !ok { return; }
      }
      Next();
      StringIs(Left(), t);
      if i >= |s| {
        ok := Fail();
        return;
      }
      i := i + 1;
      ok := true;
    }

    /** One character, or one escape. */
    method ParseStringPart(t: string) returns (ok: bool, u: string)
      requires Valid() && i < |s| && s[i] != '"'
      modifies this
      ensures !ok ==> err.Some? && ReadString(old(Left()), t).BadText?
      ensures ok ==> Valid() && old(i) < i && ReadString(old(Left()), t) == ReadString(Left(), u)
    {
      hide ReadString, ReadEscape, SkipSpaces;
      Next();
      StringIs(Left(), t);
      if s[i] == '\\' {
        i := i + 1;
        ghost var at, length := i, |Left()|;
        var e;
        ok, e := ParseEscape();
        if !ok { return false, t; }
        assert |Left()| < length;
        u := t + e;
      } else {
        u := t + [s[i]];
        i := i + 1;
        ok := true;
      }
    }

    /** Behind a backslash. */
    method ParseEscape() returns (ok: bool, t: string)
      requires Valid()
      modifies this
      ensures DidText(ReadEscape(old(Left())), ok, t)
    {
      hide ReadUnicode;
      t := "";
      Next();
      if i >= |s| {
        ok := Fail();
        return;
      }
      var e := s[i];
      i := i + 1;
      ok := true;
      match e {
        case '"' => t := "\"";
        case '\\' => t := "\\";
        case '/' => t := "/";
        case 'n' => t := "\n";
        case 'r' => t := "\r";
        case 't' => t := "\t";
        case 'b' => t := [8 as char];
        case 'f' => t := [12 as char];
        case 'u' => ok, t := ParseUnicode();
        case _ => ok := Fail();
      }
    }

    method ParseUnicode() returns (ok: bool, t: string)
      requires Valid()
      modifies this
      ensures DidText(ReadUnicode(old(Left())), ok, t)
    {
      hide ReadHex4, Utf8;
      t := "";
      var cp;
      ok, cp := ParseHex4();
      if !ok { return; }
      Next();
      if 0xD800 <= cp <= 0xDBFF {
        if i + 1 < |s| && s[i] == '\\' && s[i + 1] == 'u' {
          i := i + 2;
          var lo;
          ok, lo := ParseHex4();
          if !ok { return; }
          if lo < 0xDC00 || lo > 0xDFFF {
            ok := Fail();
            return;
          }
          cp := 0x1_0000 + (cp - 0xD800) * 1024 + (lo - 0xDC00);
        } else {
          ok := Fail();
          return;
        }
      }
      t := Utf8(cp);
    }

    method ParseValue(depth: nat) returns (ok: bool, out: Json)
      requires Valid()
      modifies this
      ensures Did(ReadValue(old(Left()), depth), ok, out)
      decreases |s| - i, 2
    {
      hide SkipSpaces, ReadNumber, ReadString, ReadArray, ReadObject, ReadLiteral;
      out := JNull;
      if depth > MAX_DEPTH {
        ok := Fail();
        return;
      }
      ghost var was := i;
      SkipWs();
      Next();
      if i >= |s| {
        ok := Fail();
        return;
      }
      Ahead(was, i);
      var c := s[i];
      if c == 'n' { ok, out := ParseLit("null", JNull); }
      else if c == 't' { ok, out := ParseLit("true", JBool(true)); }
      else if c == 'f' { ok, out := ParseLit("false", JBool(false)); }
      else if c == '"' {
        var t;
        ok, t := ParseString();
        out := JStr(t);
      }
      else if c == '[' { ok, out := ParseArray(depth); }
      else if c == '{' { ok, out := ParseObject(depth); }
      else if c == '-' || IsDigit(c) { ok, out := ParseNumber(); }
      else { ok := Fail(); }
    }

    /** A value and the spaces behind it. */
    method ParsePart(depth: nat) returns (ok: bool, v: Json)
      requires Valid()
      modifies this
      ensures var r := ReadValue(old(Left()), depth);
        (ok <==> r.Good?) && (!ok ==> err.Some?)
        && (ok ==> Valid() && v == r.v && Left() == SkipSpaces(r.rest) && i > old(i))
      decreases |s| - i, 3
    {
      hide ReadValue, SkipSpaces;
      ghost var start := i;
      ok, v := ParseValue(depth);
      if !ok { return; }
      Ahead(start, i);
      ghost var mid := i;
      SkipWs();
      Ahead(mid, i);
    }

    method ParseArray(depth: nat) returns (ok: bool, out: Json)
      requires Valid() && i < |s|
      modifies this
      ensures Did(ReadArray(old(Left())[1..], depth), ok, out)
      decreases |s| - i, 1
    {
      hide ReadItems, SkipSpaces;
      out := JNull;
      Next();
      ghost var start := i + 1;
      i := i + 1;
      SkipWs();
      Ahead(start, i);
      Next();
      if i < |s| && s[i] == ']' {
        i := i + 1;
        return true, JList([]);
      }
      ok, out := ParseItems(depth);
    }

    method ParseItems(depth: nat) returns (ok: bool, out: Json)
      requires Valid()
      modifies this
      ensures Did(ReadItems(old(Left()), [], depth), ok, out)
      decreases |s| - i, 4
    {
      hide ReadItems, ReadValue, SkipSpaces;
      out := JNull;
      ghost var start := i;
      ghost var whole := ReadItems(Left(), [], depth);
      var items: seq<Json> := [];
      while true
        invariant Valid() && i >= start && whole == ReadItems(Left(), items, depth)
        decreases |s| - i
      {
        ItemsIs(Left(), items, depth);
        var v;
        ok, v := ParsePart(depth + 1);
        if !ok { return; }
        items := items + [v];
        Next();
        if i < |s| && s[i] == ',' {
          i := i + 1;
          continue;
        }
        if i < |s| && s[i] == ']' {
          i := i + 1;
          return true, JList(items);
        }
        ok := Fail();
        return;
      }
    }

    method ParseObject(depth: nat) returns (ok: bool, out: Json)
      requires Valid() && i < |s|
      modifies this
      ensures Did(ReadObject(old(Left())[1..], depth), ok, out)
      decreases |s| - i, 1
    {
      hide ReadEntries, SkipSpaces;
      out := JNull;
      Next();
      ghost var start := i + 1;
      i := i + 1;
      SkipWs();
      Ahead(start, i);
      Next();
      if i < |s| && s[i] == '}' {
        i := i + 1;
        return true, JMap([]);
      }
      ok, out := ParseEntries(depth);
    }

    method ParseEntries(depth: nat) returns (ok: bool, out: Json)
      requires Valid()
      modifies this
      ensures Did(ReadEntries(old(Left()), [], depth), ok, out)
      decreases |s| - i, 5
    {
      hide ReadEntries, ReadValue, SkipSpaces, ReadString, SetEntry, KeyRead;
      out := JNull;
      ghost var start := i;
      ghost var whole := ReadEntries(Left(), [], depth);
      var entries: seq<Entry> := [];
      while true
        invariant Valid() && i >= start && whole == ReadEntries(Left(), entries, depth)
        decreases |s| - i
      {
        EntriesIs(Left(), entries, depth);
        var key;
        ok, key := ParseKey();
        if !ok { return; }
        var v;
        ok, v := ParsePart(depth + 1);
        if !ok { return; }
        entries := SetEntry(entries, JStr(key), v);
        Next();
        if i < |s| && s[i] == ',' {
          i := i + 1;
          continue;
        }
        if i < |s| && s[i] == '}' {
          i := i + 1;
          return true, JMap(entries);
        }
        ok := Fail();
        return;
      }
    }

    /** A key and the colon behind it. */
    method ParseKey() returns (ok: bool, key: string)
      requires Valid()
      modifies this
      ensures var r := KeyRead(old(Left()));
        (ok <==> r.GoodText?) && (!ok ==> err.Some?) && (ok ==> Valid() && key == r.t && Left() == r.rest && i > old(i))
      decreases |s| - i, 0
    {
      hide SkipSpaces, ReadString;
      key := "";
      ghost var start := i;
      SkipWs();
      Ahead(start, i);
      Next();
      if i >= |s| || s[i] != '"' {
        ok := Fail();
        return;
      }
      ghost var quote := i + 1;
      ok, key := ParseString();
      if !ok { return; }
      Ahead(quote, i);
      ghost var mid := i;
      SkipWs();
      Ahead(mid, i);
      Next();
      if i >= |s| || s[i] != ':' {
        ok := Fail();
        return;
      }
      i := i + 1;
    }
  }

  function KeyRead(s: string): (r: ParsedText)
    ensures r.GoodText? ==> |r.rest| < |s|
  {
    var t := SkipSpaces(s);
    if t == "" || t[0] != '"' then BadText
    else match ReadString(t[1..], "")
      case BadText => BadText
      case GoodText(key, rest) =>
        var colon := SkipSpaces(rest);
        if colon == "" || colon[0] != ':' then BadText else GoodText(key, colon[1..])
  }

  lemma StringIs(s: string, acc: string)
    ensures s == "" ==> ReadString(s, acc).BadText?
    ensures s != "" && s[0] == '"' ==> ReadString(s, acc) == GoodText(acc, s[1..])
    ensures s != "" && s[0] == '\\' ==>
      var e := ReadEscape(s[1..]);
      if e.GoodText? then ReadString(s, acc) == ReadString(e.rest, acc + e.t) else ReadString(s, acc).BadText?
    ensures s != "" && s[0] != '"' && s[0] != '\\' ==> ReadString(s, acc) == ReadString(s[1..], acc + [s[0]])
  {
    hide ReadEscape;
  }

  lemma ItemsIs(s: string, items: seq<Json>, depth: nat)
    ensures ReadItems(s, items, depth) ==
      match ReadValue(s, depth + 1)
      case Bad => Bad
      case Good(v, rest) =>
        var t := SkipSpaces(rest);
        if t == "" then Bad
        else if t[0] == ',' then ReadItems(t[1..], items + [v], depth)
        else if t[0] == ']' then Good(JList(items + [v]), t[1..])
        else Bad
  {
    hide ReadValue, SkipSpaces;
  }

  lemma EntriesIs(s: string, entries: seq<Entry>, depth: nat)
    ensures ReadEntries(s, entries, depth) ==
      match KeyRead(s)
      case BadText => Bad
      case GoodText(key, colon) =>
        (match ReadValue(colon, depth + 1)
         case Bad => Bad
         case Good(v, rest) =>
           var t := SkipSpaces(rest);
           var more := SetEntry(entries, JStr(key), v);
           if t == "" then Bad
           else if t[0] == ',' then ReadEntries(t[1..], more, depth)
           else if t[0] == '}' then Good(JMap(more), t[1..])
           else Bad)
  {
    hide ReadValue, SkipSpaces, ReadString, SetEntry;
  }

  /** `json.parse`: the whole text must be one value. */
  method JsonParse(text: string) returns (v: Option<Json>)
    ensures v == ParseText(text)
    ensures v.Some? ==> JsonGrammar.Spaced(text, v.value, 0)
    ensures v.None? ==> forall x :: !JsonGrammar.Spaced(text, x, 0)
  {
    hide JsonGrammar.Spaced;
    forall x ensures JsonGrammar.Spaced(text, x, 0) <==> ParseText(text) == Some(x) {
      JsonGrammar.ParsesExactly(text, x);
    }
    var parser := new JsonParser(text);
    assert parser.Left() == text;
    var ok, out := parser.ParseValue(0);
    if !ok { return None; }
    parser.SkipWs();
    parser.Next();
    v := if parser.i != |text| then None else Some(out);
  }

  lemma HexSnoc(s: string, k: nat)
    requires k < |s|
    ensures HexNumber(s[..k + 1]) ==
      match HexNumber(s[..k])
      case None => None
      case Some(n) => (match HexValue(s[k]) case None => None case Some(d) => Some(16 * n + d))
  {
    var t := s[..k + 1];
    assert t[..|t| - 1] == s[..k];
  }

  lemma {:induction false} HexStays(s: string, k: nat)
    requires k <= |s| && HexNumber(s[..k]).None?
    ensures HexNumber(s).None?
    decreases |s| - k
  {
    if k < |s| {
      HexSnoc(s, k);
      HexStays(s, k + 1);
    } else {
      assert s[..k] == s;
    }
  }
}
