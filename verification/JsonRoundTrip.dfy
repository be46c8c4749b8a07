/** What the writer writes, the parser reads back. */
module JsonRoundTrip {
  import opened Numerals
  import opened JsonText
  import opened Options
  import OrderedMap

  /** Integers of 64 bits, no floats, keys of a map all different. */
  predicate Plain(v: Json) {
    match v
    case JInt(n) => MIN_INT <= n <= MAX_INT
    case JFloat(_) => false
    case JList(items) => AllPlain(items)
    case JMap(entries) => EntriesPlain(entries) && KeysDiffer(entries)
    case _ => true
  }

  predicate AllPlain(items: seq<Json>) { items == [] || (Plain(items[0]) && AllPlain(items[1..])) }

  predicate EntriesPlain(es: seq<Entry>) { es == [] || (EntryPlain(es[0]) && EntriesPlain(es[1..])) }

  predicate EntryPlain(e: Entry) { Plain(e.value) }

  predicate KeysDiffer(es: seq<Entry>) { forall i, j :: 0 <= i < j < |es| ==> es[i].key != es[j].key }

  // ---------------------------------------------------------------- strings

  /** Any character comes back from its escape. */
  lemma EscapeReads(c: char, rest: string, acc: string)
    ensures Escape(c) != "" && ReadString(Escape(c) + rest, acc) == ReadString(rest, acc + [c])
  {
    var e := Escape(c);
    if e[0] == '\\' {
      assert (e + rest)[1..] == e[1..] + rest;
      if c < ' ' && c != '\n' && c != '\r' && c != '\t' {
        ControlReads(c, rest);
      } else {
        assert (e[1..] + rest)[1..] == rest;
        assert ReadEscape(e[1..] + rest) == GoodText([c], rest);
      }
    } else {
      assert (e + rest)[1..] == rest;
    }
  }

  lemma HexReads(n: nat)
    requires n < 16
    ensures HexValue(HexDigit(n)) == Some(n)
  {
  }

  /** Control characters, by their number. */
  lemma ControlReads(c: char, rest: string)
    requires c < ' ' && c != '\n' && c != '\r' && c != '\t'
    ensures ReadEscape(Escape(c)[1..] + rest) == GoodText([c], rest)
  {
    var a, b := HexDigit(c as nat / 16), HexDigit(c as nat % 16);
    var digits := ['0', '0', a, b];
    var t := Escape(c)[1..] + rest;
    assert t[0] == 'u' && t[1..] == digits + rest;
    assert (digits + rest)[..4] == digits && (digits + rest)[4..] == rest;
    HexReads(c as nat / 16);
    HexReads(c as nat % 16);
    assert HexNumber("") == Some(0);
    assert ['0'][..0] == "" && ['0', '0'][..1] == ['0'] && ['0', '0', a][..2] == ['0', '0']
        && digits[..3] == ['0', '0', a];
    assert HexNumber(['0']) == Some(0) && HexNumber(['0', '0']) == Some(0)
        && HexNumber(['0', '0', a]) == Some(c as nat / 16);
    assert HexNumber(digits) == Some(c as nat);
  }

  lemma {:induction false} StringReads(s: string, rest: string, acc: string)
    ensures ReadString(Escaped(s) + "\"" + rest, acc) == GoodText(acc + s, rest)
  {
    hide Escape, ReadEscape;
    if s == "" {
      assert Escaped(s) + "\"" + rest == "\"" + rest;
      assert ("\"" + rest)[1..] == rest && acc + s == acc;
    } else {
      var more := Escaped(s[1..]) + "\"" + rest;
      assert Escaped(s) + "\"" + rest == Escape(s[0]) + more;
      EscapeReads(s[0], more, acc);
      StringReads(s[1..], rest, acc + [s[0]]);
      assert acc + [s[0]] + s[1..] == acc + s;
    }
  }

  // ---------------------------------------------------------------- numbers

  /** What may follow a number without becoming part of it. */
  predicate Ends(rest: string) { rest == "" || (!IsDigit(rest[0]) && rest[0] != '.' && rest[0] != 'e'
    && rest[0] != 'E') }

  lemma IntReads(n: int, rest: string)
    requires MIN_INT <= n <= MAX_INT && Ends(rest)
    ensures ReadNumber(IntText(n) + rest) == Good(JInt(n), rest)
  {
    hide LeadingDigits, NumeralValue, NumberLength, WholeLength, SignLength, Decimal;
    var m: nat := if n < 0 then -n else n;
    var d := Decimal(m);
    DecimalIs(m);
    var s := IntText(n) + rest;
    var sign := if n < 0 then 1 else 0;
    var whole := sign + |d|;
    SignIs(n, d, rest);
    WholeIs(s, sign, d, rest);
    assert s[whole..] == rest && s[sign..whole] == d;
    EndsThere(s, whole, rest);
  }

  lemma SignIs(n: int, d: string, rest: string)
    requires d == Decimal(if n < 0 then -n else n) && d != "" && IsDigit(d[0])
    ensures var s, sign := IntText(n) + rest, if n < 0 then 1 else 0;
      SignLength(s) == sign && |s| >= sign && s[sign..] == d + rest
  {
    hide Decimal;
  }

  lemma WholeIs(s: string, sign: nat, d: string, rest: string)
    requires sign <= |s| && SignLength(s) == sign && s[sign..] == d + rest && Ends(rest)
    requires forall c :: c in d ==> IsDigit(c)
    ensures WholeLength(s) == sign + |d|
  {
    hide LeadingDigits;
    DigitsEnd(d, rest);
  }

  /** Neither fraction nor exponent follows. */
  lemma EndsThere(s: string, whole: nat, rest: string)
    requires Ends(rest) && whole <= |s| && WholeLength(s) == whole && s[whole..] == rest
    ensures NumberLength(s) == whole
  {
    hide WholeLength, LeadingDigits;
    assert FractionLength(rest) == 0 && ExponentLength(rest) == 0;
    assert whole + 0 == whole;
  }

  // ---------------------------------------------------------------- values

  /** No value's text begins with a space or the end of something. */
  lemma TextStart(v: Json, depth: nat)
    requires Write(v, depth).Some?
    ensures var t := Write(v, depth).value; t != "" && !IsSpace(t[0]) && t[0] != ']' && t[0] != '}' && t[0] != ','
  {
    if v.JInt? {
      var m: nat := if v.n < 0 then -v.n else v.n;
      DecimalIs(m);
      assert Decimal(m)[0] in Decimal(m);
    }
  }

  lemma NoSpaces(s: string)
    requires s != "" && !IsSpace(s[0])
    ensures SkipSpaces(s) == s && SkipSpaces(" " + s) == s
  {
    assert (" " + s)[1..] == s;
  }

  /** A value's text is read back as the value, and no further. */
  lemma {:induction false} ValueReads(v: Json, depth: nat, rest: string)
    requires Plain(v) && Write(v, depth).Some? && Ends(rest)
    ensures ReadValue(Write(v, depth).value + rest, depth) == Good(v, rest)
    decreases v, 3
  {
    match v {
      case JNull => LiteralReads("null", JNull, rest); NoSpaces("null" + rest);
      case JBool(b) =>
        LiteralReads(if b then "true" else "false", JBool(b), rest);
        NoSpaces((if b then "true" else "false") + rest);
      case JInt(n) => IntValueReads(n, depth, rest);
      case JStr(s) => StringValueReads(s, depth, rest);
      case JList(items) => ListReads(v, depth, rest);
      case JMap(entries) => MapReads(v, depth, rest);
    }
  }

  lemma IntValueReads(n: int, depth: nat, rest: string)
    requires MIN_INT <= n <= MAX_INT && Ends(rest) && depth <= MAX_DEPTH
    ensures ReadValue(IntText(n) + rest, depth) == Good(JInt(n), rest)
  {
    hide ReadNumber, IntText;
    IntReads(n, rest);
    IntStart(n, rest);
    NoSpaces(IntText(n) + rest);
  }

  lemma StringValueReads(s: string, depth: nat, rest: string)
    requires depth <= MAX_DEPTH
    ensures ReadValue(Quoted(s) + rest, depth) == Good(JStr(s), rest)
  {
    hide ReadString, Escaped;
    NoSpaces(Quoted(s) + rest);
    assert (Quoted(s) + rest)[1..] == Escaped(s) + "\"" + rest;
    StringReads(s, rest, "");
    assert "" + s == s;
  }

  lemma LiteralReads(lit: string, v: Json, rest: string)
    ensures ReadLiteral(lit + rest, lit, v) == Good(v, rest)
  {
    assert (lit + rest)[..|lit|] == lit && (lit + rest)[|lit|..] == rest;
  }

  lemma IntStart(n: int, rest: string)
    ensures IntText(n) != "" && var c := (IntText(n) + rest)[0]; c == '-' || IsDigit(c)
  {
    var m: nat := if n < 0 then -n else n;
    DecimalIs(m);
    assert Decimal(m)[0] in Decimal(m);
  }

  lemma {:induction false} ListReads(v: Json, depth: nat, rest: string)
    requires v.JList? && Plain(v) && Write(v, depth).Some?
    ensures ReadValue(Write(v, depth).value + rest, depth) == Good(v, rest)
    decreases v, 2
  {
    hide ReadArray, ReadItems, WriteItems;
    var w := WriteItems(v.items, depth + 1, true).value;
    var t := Write(v, depth).value;
    var s := w + "]" + rest;
    assert (t + rest)[0] == '[' && (t + rest)[1..] == s;
    NoSpaces(t + rest);
    if v.items == [] {
      assert w == "" by { NoItems(depth + 1); }
      assert s == "]" + rest;
      EmptyArray(rest, depth);
    } else {
      FirstItemStart(v.items, depth + 1);
      ItemsRead(v, 0, depth, rest);
      assert v.items[0..] == v.items && v.items[..0] == [];
      FullArray(s, depth);
    }
  }

  lemma NoItems(depth: nat)
    ensures WriteItems([], depth, true) == Some("")
  {
  }

  lemma FirstItemStart(items: seq<Json>, depth: nat)
    requires items != [] && WriteItems(items, depth, true).Some?
    ensures var w := WriteItems(items, depth, true).value; w != "" && !IsSpace(w[0]) && w[0] != ']'
  {
    hide Write;
    TextStart(items[0], depth);
  }

  lemma EmptyArray(rest: string, depth: nat)
    ensures ReadArray("]" + rest, depth) == Good(JList([]), rest)
  {
    var s := "]" + rest;
    assert s[1..] == rest;
    NoSpaces(s);
  }

  lemma FullArray(s: string, depth: nat)
    requires s != "" && !IsSpace(s[0]) && s[0] != ']'
    ensures ReadArray(s, depth) == ReadItems(s, [], depth)
  {
    hide ReadItems;
    NoSpaces(s);
  }

  /** Items from the `i`-th on. */
  lemma {:induction false} ItemsRead(v: Json, i: nat, depth: nat, rest: string)
    requires v.JList? && i < |v.items| && AllPlain(v.items[i..]) && WriteItems(v.items[i..], depth + 1, true).Some?
    ensures ReadItems(WriteItems(v.items[i..], depth + 1, true).value + "]" + rest, v.items[..i], depth)
         == Good(v, rest)
    decreases v, 1, |v.items| - i
  {
    hide Write, ReadValue;
    var items := v.items[i..];
    assert items[0] == v.items[i] && items[1..] == v.items[i + 1..];
    var t := Write(items[0], depth + 1).value;
    var more := WriteItems(items[1..], depth + 1, false).value;
    var after := more + "]" + rest;
    assert WriteItems(items, depth + 1, true).value + "]" + rest == t + after;
    assert v.items[..i] + [items[0]] == v.items[..i + 1];
    if items[1..] == [] {
      assert after == "]" + rest && after[1..] == rest;
      ValueReads(items[0], depth + 1, after);
      NoSpaces(after);
      assert v.items[..i + 1] == v.items;
    } else {
      var next := WriteItems(items[1..], depth + 1, true).value;
      SeparatorFirst(items[1..], depth + 1);
      assert after == ", " + next + "]" + rest;
      ValueReads(items[0], depth + 1, after);
      NoSpaces(after);
      assert after[1..] == " " + (next + "]" + rest);
      TextStart(items[1], depth + 1);
      SpaceFirst(next + "]" + rest, v.items[..i + 1], depth);
      ItemsRead(v, i + 1, depth, rest);
    }
  }

  lemma SeparatorFirst(items: seq<Json>, depth: nat)
    requires items != []
    ensures var a, b := WriteItems(items, depth, false), WriteItems(items, depth, true);
      (a.Some? <==> b.Some?) && (a.Some? ==> a.value == ", " + b.value)
  {
  }

  lemma SpaceFirst(s: string, items: seq<Json>, depth: nat)
    requires s != "" && !IsSpace(s[0])
    ensures ReadItems(" " + s, items, depth) == ReadItems(s, items, depth)
  {
    NoSpaces(s);
    assert ReadValue(" " + s, depth + 1) == ReadValue(s, depth + 1);
  }

  // ---------------------------------------------------------------- maps

  predicate StringKeys(es: seq<Entry>) { forall i :: 0 <= i < |es| ==> es[i].key.JStr? }

  /** The entries as an association list. */
  function AsAssoc(es: seq<Entry>): OrderedMap.Assoc<Json>
    requires StringKeys(es)
  {
    seq(|es|, i requires 0 <= i < |es| => (OrderedMap.Str(es[i].key.s), es[i].value))
  }

  /** The parser's maps are filled like every ordered map: a known key keeps its place. */
  lemma {:induction false} EntriesAreOrderedMap(es: seq<Entry>, key: string, v: Json)
    requires StringKeys(es)
    ensures StringKeys(SetEntry(es, JStr(key), v))
    ensures AsAssoc(SetEntry(es, JStr(key), v)) == OrderedMap.Insert(AsAssoc(es), OrderedMap.Str(key), v)
  {
    hide OrderedMap.Insert;
    if es == [] {
      InsertLast(key, v);
    } else {
      var first, tail := (OrderedMap.Str(es[0].key.s), es[0].value), AsAssoc(es[1..]);
      EntriesAreOrderedMap(es[1..], key, v);
      assert AsAssoc(es) == [first] + tail;
      InsertBehind(first, tail, OrderedMap.Str(key), v);
      if es[0].key == JStr(key) {
        assert AsAssoc([Entry(JStr(key), v)] + es[1..]) == [(OrderedMap.Str(key), v)] + tail;
      } else {
        assert AsAssoc([es[0]] + SetEntry(es[1..], JStr(key), v)) == [first] + AsAssoc(SetEntry(es[1..], JStr(key), v));
      }
    }
  }

  lemma InsertLast(key: string, v: Json)
    ensures OrderedMap.Insert([], OrderedMap.Str(key), v) == [(OrderedMap.Str(key), v)]
  {
  }

  lemma InsertBehind(first: (OrderedMap.Key, Json), tail: OrderedMap.Assoc<Json>, k: OrderedMap.Key, v: Json)
    requires k != OrderedMap.Other
    ensures OrderedMap.Insert([first] + tail, k, v) ==
      if first.0 == k then [(k, v)] + tail else [first] + OrderedMap.Insert(tail, k, v)
  {
    assert ([first] + tail)[1..] == tail;
  }

  lemma {:induction false} SetNew(es: seq<Entry>, key: Json, value: Json)
    requires forall i :: 0 <= i < |es| ==> es[i].key != key
    ensures SetEntry(es, key, value) == es + [Entry(key, value)]
  {
    if es != [] { SetNew(es[1..], key, value); }
  }

  lemma {:induction false} MapReads(v: Json, depth: nat, rest: string)
    requires v.JMap? && Plain(v) && Write(v, depth).Some?
    ensures ReadValue(Write(v, depth).value + rest, depth) == Good(v, rest)
    decreases v, 2
  {
    hide WriteEntry, WriteEntries, ReadEntries, ReadObject;
    var w := WriteEntries(v.entries, depth + 1, true).value;
    var t := Write(v, depth).value;
    var s := w + "}" + rest;
    assert (t + rest)[0] == '{' && (t + rest)[1..] == s;
    NoSpaces(t + rest);
    if v.entries == [] {
      assert w == "" by { NoEntries(depth + 1); }
      assert s == "}" + rest;
      EmptyObject(rest, depth);
    } else {
      FirstEntryStart(v.entries, depth + 1);
      assert v.entries[0..] == v.entries && v.entries[..0] == [];
      EntriesRead(v, 0, depth, rest);
      FullObject(s, depth);
    }
  }

  lemma NoEntries(depth: nat)
    ensures WriteEntries([], depth, true) == Some("")
  {
  }

  lemma FirstEntryStart(entries: seq<Entry>, depth: nat)
    requires entries != [] && WriteEntries(entries, depth, true).Some?
    ensures var w := WriteEntries(entries, depth, true).value; w != "" && w[0] == '"'
  {
    hide WriteEntry;
    EntryStart(entries[0], depth);
  }

  lemma EmptyObject(rest: string, depth: nat)
    ensures ReadObject("}" + rest, depth) == Good(JMap([]), rest)
  {
    var s := "}" + rest;
    assert s[1..] == rest;
    NoSpaces(s);
  }

  lemma FullObject(s: string, depth: nat)
    requires s != "" && s[0] == '"'
    ensures ReadObject(s, depth) == ReadEntries(s, [], depth)
  {
    hide ReadEntries;
    NoSpaces(s);
  }

  lemma EntryStart(e: Entry, depth: nat)
    requires WriteEntry(e, depth).Some?
    ensures WriteEntry(e, depth).value != "" && WriteEntry(e, depth).value[0] == '"' && e.key.JStr?
    ensures Write(e.value, depth).Some?
    ensures WriteEntry(e, depth).value == "\"" + (Escaped(e.key.s) + "\"" + (": " + Write(e.value, depth).value))
  {
    hide Escaped;
    assert Write(e.key, depth) == Some(Quoted(e.key.s));
  }

  lemma {:induction false} EntriesRead(v: Json, i: nat, depth: nat, rest: string)
    requires v.JMap? && KeysDiffer(v.entries) && i < |v.entries| && EntriesPlain(v.entries[i..])
    requires WriteEntries(v.entries[i..], depth + 1, true).Some?
    ensures ReadEntries(WriteEntries(v.entries[i..], depth + 1, true).value + "}" + rest, v.entries[..i], depth)
         == Good(v, rest)
    decreases v, 1, |v.entries| - i
  {
    hide ReadEntries, WriteEntries, Write, EntriesPlain;
    var es := v.entries[i..];
    assert es[0] == v.entries[i] && es[1..] == v.entries[i + 1..];
    assert EntryPlain(es[0]) && EntriesPlain(es[1..]) by { PlainParts(es); }
    AfterEntry(es, depth + 1, rest);
    var after := WriteEntries(es[1..], depth + 1, false).value + "}" + rest;
    EntryReads(v, i, depth, after);
    assert WriteEntry(es[0], depth + 1).value + after == WriteEntries(es, depth + 1, true).value + "}" + rest;
    assert v.entries[..i] + [es[0]] == v.entries[..i + 1];
    if es[1..] == [] {
      assert after[1..] == rest;
      assert v.entries[..i + 1] == v.entries;
    } else {
      var next := WriteEntries(es[1..], depth + 1, true).value + "}" + rest;
      assert after[1..] == " " + next;
      NextEntry(es[1..], depth, rest, v.entries[..i + 1]);
      EntriesRead(v, i + 1, depth, rest);
    }
  }

  lemma PlainParts(es: seq<Entry>)
    requires EntriesPlain(es) && es != []
    ensures EntryPlain(es[0]) && EntriesPlain(es[1..])
  {
  }

  lemma NextEntry(es: seq<Entry>, depth: nat, rest: string, done: seq<Entry>)
    requires es != [] && WriteEntries(es, depth + 1, true).Some?
    ensures var next := WriteEntries(es, depth + 1, true).value + "}" + rest;
      ReadEntries(" " + next, done, depth) == ReadEntries(next, done, depth)
  {
    hide ReadString, ReadValue, Write, WriteEntry;
    EntryStart(es[0], depth + 1);
    NoSpaces(WriteEntries(es, depth + 1, true).value + "}" + rest);
  }

  /** One entry, and what follows it. */
  lemma {:induction false} EntryReads(v: Json, i: nat, depth: nat, after: string)
    requires v.JMap? && KeysDiffer(v.entries) && i < |v.entries| && EntryPlain(v.entries[i])
    requires WriteEntry(v.entries[i], depth + 1).Some? && after != "" && !IsSpace(after[0]) && Ends(after)
    ensures var more := v.entries[..i] + [v.entries[i]];
      ReadEntries(WriteEntry(v.entries[i], depth + 1).value + after, v.entries[..i], depth) ==
        if after[0] == ',' then ReadEntries(after[1..], more, depth)
        else if after[0] == '}' then Good(JMap(more), after[1..])
        else Bad
    decreases v, 0
  {
    hide ReadString, ReadValue, Escaped, Write, WriteEntry;
    var e := v.entries[i];
    EntryStart(e, depth + 1);
    var t := Write(e.value, depth + 1).value;
    var colon := ": " + (t + after);
    var s := WriteEntry(e, depth + 1).value + after;
    assert s == "\"" + (Escaped(e.key.s) + "\"" + colon);
    NoSpaces(s);
    assert s[1..] == Escaped(e.key.s) + "\"" + colon;
    StringReads(e.key.s, colon, "");
    assert "" + e.key.s == e.key.s;
    NoSpaces(colon);
    assert colon[1..] == " " + (t + after);
    TextStart(e.value, depth + 1);
    SpaceBefore(t + after, depth + 1);
    ValueReads(e.value, depth + 1, after);
    NoSpaces(after);
    SetNew(v.entries[..i], e.key, e.value);
  }

  lemma SpaceBefore(s: string, depth: nat)
    requires s != "" && !IsSpace(s[0])
    ensures ReadValue(" " + s, depth) == ReadValue(s, depth)
  {
    NoSpaces(s);
  }

  /** What follows an entry: the next one, or the end. */
  lemma AfterEntry(es: seq<Entry>, depth: nat, rest: string)
    requires es != [] && WriteEntries(es, depth, true).Some?
    ensures WriteEntries(es[1..], depth, false).Some? && WriteEntry(es[0], depth).Some?
    ensures WriteEntries(es, depth, true).value
         == WriteEntry(es[0], depth).value + WriteEntries(es[1..], depth, false).value
    ensures var after := WriteEntries(es[1..], depth, false).value + "}" + rest;
      && after != "" && !IsSpace(after[0]) && Ends(after)
      && (es[1..] == [] ==> after == "}" + rest)
      && (es[1..] != [] ==>
           WriteEntries(es[1..], depth, true).Some?
             && after == ", " + (WriteEntries(es[1..], depth, true).value + "}" + rest))
  {
    hide WriteEntry;
    assert "" + WriteEntry(es[0], depth).value == WriteEntry(es[0], depth).value;
  }

  // ---------------------------------------------------------------- the main result

  /** Every value that is written is read back: equal, with the order of its maps, and to the end of the
      text. */
  lemma JsonRoundTrip(v: Json)
    requires Plain(v) && Write(v, 0).Some?
    ensures ParseText(Write(v, 0).value) == Some(v)
  {
    ValueReads(v, 0, "");
    assert Write(v, 0).value + "" == Write(v, 0).value;
  }
}
