/** JSON text: what the writer produces for a value, and what the parser makes of a text.

 Characters stand for bytes.  String escapes are those of section 7 of RFC 8259. */
module JsonText {
  import opened Numerals
  import opened Options

  /** `JFloat` keeps a number's text, `JOther` stands for values that are not data. */
  datatype Json =
    | JNull | JBool(b: bool) | JInt(n: int) | JFloat(text: string) | JStr(s: string)
    | JList(items: seq<Json>) | JMap(entries: seq<Entry>) | JOther

  datatype Entry = Entry(key: Json, value: Json)

  const MAX_DEPTH := 100

  // ---------------------------------------------------------------- writing

  function HexDigit(n: nat): char
    requires n < 16
  {
    if n < 10 then '0' + n as char else 'a' + (n - 10) as char
  }

  function Escape(c: char): string {
    if c == '"' then "\\\"" else if c == '\\' then "\\\\"
    else if c == '\n' then "\\n" else if c == '\r' then "\\r" else if c == '\t' then "\\t"
    else if c < ' ' then "\\u00" + [HexDigit(c as nat / 16), HexDigit(c as nat % 16)]
    else [c]
  }

  function Escaped(s: string): string { if s == "" then "" else Escape(s[0]) + Escaped(s[1..]) }

  function Quoted(s: string): string { "\"" + Escaped(s) + "\"" }

  function IntText(n: int): string { if n < 0 then "-" + Decimal(-n) else Decimal(n) }

  /** The text of a value nested `depth` deep, if it can be written.  Floats are not modelled. */
  function Write(v: Json, depth: nat): Option<string>
    decreases v, 2
  {
    if depth > MAX_DEPTH then None
    else match v
      case JNull => Some("null")
      case JBool(b) => Some(if b then "true" else "false")
      case JInt(n) => Some(IntText(n))
      case JStr(s) => Some(Quoted(s))
      case JList(items) => Wrapped("[", WriteItems(items, depth + 1, true), "]")
      case JMap(entries) => Wrapped("{", WriteEntries(entries, depth + 1, true), "}")
      case JFloat(_) => None
      case JOther => None
  }

  function Wrapped(a: string, t: Option<string>, b: string): Option<string> {
    match t case Some(s) => Some(a + s + b) case None => None
  }

  function Joined(a: Option<string>, b: Option<string>): Option<string> {
    if a.Some? && b.Some? then Some(a.value + b.value) else None
  }

  function Separator(first: bool): Option<string> { Some(if first then "" else ", ") }

  function WriteItems(items: seq<Json>, depth: nat, first: bool): Option<string>
    decreases items, 3
  {
    if items == [] then Some("")
    else Joined(Separator(first), Joined(Write(items[0], depth), WriteItems(items[1..], depth, false)))
  }

  function WriteEntry(e: Entry, depth: nat): Option<string>
    decreases e, 2
  {
    if !e.key.JStr? then None
    else Joined(Write(e.key, depth), Joined(Some(": "), Write(e.value, depth)))
  }

  function WriteEntries(entries: seq<Entry>, depth: nat, first: bool): Option<string>
    decreases entries, 3
  {
    if entries == [] then Some("")
    else Joined(Separator(first), Joined(WriteEntry(entries[0], depth), WriteEntries(entries[1..], depth, false)))
  }

  // ---------------------------------------------------------------- reading

  predicate IsSpace(c: char) { c == ' ' || c == '\t' || c == '\n' || c == '\r' }

  function SkipSpaces(s: string): (r: string)
    ensures |r| <= |s|
    ensures r == "" || !IsSpace(r[0])
  {
    if s != "" && IsSpace(s[0]) then SkipSpaces(s[1..]) else s
  }

  /** A value and the text behind it, or a syntax error. */
  datatype Parsed = Bad | Good(v: Json, rest: string)
  datatype ParsedText = BadText | GoodText(t: string, rest: string)

  function ReadLiteral(s: string, lit: string, v: Json): (r: Parsed)
    ensures r.Good? ==> |r.rest| == |s| - |lit|
  {
    if |s| >= |lit| && s[..|lit|] == lit then Good(v, s[|lit|..]) else Bad
  }

  const MIN_INT := -0x8000_0000_0000_0000
  const MAX_INT := 0x7FFF_FFFF_FFFF_FFFF

  /** Digits, at least one, within 64 bits. */
  function IntOf(negative: bool, digits: string): Option<int>
    requires forall c :: c in digits ==> IsDigit(c)
  {
    if digits == "" then None
    else
      var n: int := if negative then -(NumeralValue(digits) as int) else NumeralValue(digits);
      if MIN_INT <= n <= MAX_INT then Some(n) else None
  }

  /** How far a fraction goes: a point and digits. */
  function FractionLength(s: string): (n: nat)
    ensures n <= |s|
  {
    if s != "" && s[0] == '.' then 1 + LeadingDigits(s[1..]) else 0
  }

  function ExponentLength(s: string): (n: nat)
    ensures n <= |s|
  {
    if s == "" || (s[0] != 'e' && s[0] != 'E') then 0
    else if |s| > 1 && (s[1] == '+' || s[1] == '-') then 2 + LeadingDigits(s[2..])
    else 1 + LeadingDigits(s[1..])
  }

  function SignLength(s: string): (n: nat)
    ensures n <= |s|
  {
    if s != "" && s[0] == '-' then 1 else 0
  }

  /** A sign and digits. */
  function WholeLength(s: string): (n: nat)
    ensures SignLength(s) <= n <= |s|
    ensures forall c :: c in s[SignLength(s)..n] ==> IsDigit(c)
  {
    var d := LeadingDigits(s[SignLength(s)..]);
    assert s[SignLength(s)..][..d] == s[SignLength(s)..SignLength(s) + d];
    SignLength(s) + d
  }

  /** The same with fraction and exponent. */
  function NumberLength(s: string): (n: nat)
    ensures WholeLength(s) <= n <= |s|
  {
    var fraction := WholeLength(s) + FractionLength(s[WholeLength(s)..]);
    fraction + ExponentLength(s[fraction..])
  }

  function ReadNumber(s: string): (r: Parsed)
    ensures r.Good? ==> |r.rest| < |s|
  {
    var whole, end := WholeLength(s), NumberLength(s);
    if end > whole then Good(JFloat(s[..end]), s[end..])
    else
      match IntOf(SignLength(s) == 1, s[SignLength(s)..whole])
      case Some(n) => Good(JInt(n), s[whole..])
      case None => Bad
  }

  function HexValue(c: char): Option<nat> {
    if '0' <= c <= '9' then Some((c - '0') as nat)
    else if 'a' <= c <= 'f' then Some((c - 'a') as nat + 10)
    else if 'A' <= c <= 'F' then Some((c - 'A') as nat + 10)
    else None
  }

  /** The number that hexadecimal digits write. */
  function HexNumber(s: string): Option<nat>
    decreases |s|
  {
    if s == "" then Some(0)
    else match HexNumber(s[..|s| - 1])
      case None => None
      case Some(n) => (match HexValue(s[|s| - 1]) case None => None case Some(d) => Some(16 * n + d))
  }

  lemma {:induction false} HexBound(s: string)
    requires |s| <= 4
    ensures HexNumber(s).Some? ==>
      HexNumber(s).value <
        if |s| == 0 then 1 else if |s| == 1 then 16 else if |s| == 2 then 256 else if |s| == 3 then 4096 else 0x1_0000
  {
    if s != "" { HexBound(s[..|s| - 1]); }
  }

  /** Four hexadecimal digits. */
  function ReadHex4(s: string): (r: Option<(nat, string)>)
    ensures r.Some? ==> r.value.0 < 0x1_0000 && |r.value.1| == |s| - 4
  {
    if |s| < 4 then None
    else
      HexBound(s[..4]);
      match HexNumber(s[..4]) case None => None case Some(n) => Some((n, s[4..]))
  }

  /** UTF-8, one character per byte. */
  function Utf8(cp: nat): string
    requires cp < 0x11_0000
  {
    if cp < 0x80 then [cp as char]
    else if cp < 0x800 then [(0xC0 + cp / 64) as char, (0x80 + cp % 64) as char]
    else if cp < 0x1_0000 then [(0xE0 + cp / 4096) as char, (0x80 + cp / 64 % 64) as char, (0x80 + cp % 64) as char]
    else [(0xF0 + cp / 262144) as char, (0x80 + cp / 4096 % 64) as char, (0x80 + cp / 64 % 64) as char,
        (0x80 + cp % 64) as char]
  }

  /** Behind `\\u`: a code point, from a pair of surrogates if it starts one. */
  function ReadUnicode(s: string): (r: ParsedText)
    ensures r.GoodText? ==> |r.rest| < |s|
  {
    match ReadHex4(s)
    case None => BadText
    case Some(h) =>
      var (cp, rest) := h;
      if !(0xD800 <= cp <= 0xDBFF) then GoodText(Utf8(cp), rest)
      else if |rest| < 2 || rest[0] != '\\' || rest[1] != 'u' then BadText
      else match ReadHex4(rest[2..])
        case None => BadText
        case Some(l) =>
          if l.0 < 0xDC00 || l.0 > 0xDFFF then BadText
          else GoodText(Utf8(0x1_0000 + (cp - 0xD800) * 1024 + (l.0 - 0xDC00)), l.1)
  }

  /** Behind a backslash. */
  function ReadEscape(s: string): (r: ParsedText)
    ensures r.GoodText? ==> |r.rest| < |s|
  {
    if s == "" then BadText
    else match s[0]
      case '"' => GoodText("\"", s[1..])
      case '\\' => GoodText("\\", s[1..])
      case '/' => GoodText("/", s[1..])
      case 'n' => GoodText("\n", s[1..])
      case 'r' => GoodText("\r", s[1..])
      case 't' => GoodText("\t", s[1..])
      case 'b' => GoodText([8 as char], s[1..])
      case 'f' => GoodText([12 as char], s[1..])
      case 'u' => ReadUnicode(s[1..])
      case _ => BadText
  }

  /** Behind an opening quote, `acc` being read already. */
  function ReadString(s: string, acc: string): (r: ParsedText)
    ensures r.GoodText? ==> |r.rest| < |s|
    decreases |s|
  {
    if s == "" then BadText
    else if s[0] == '"' then GoodText(acc, s[1..])
    else if s[0] == '\\' then
      (match ReadEscape(s[1..])
       case GoodText(t, rest) => ReadString(rest, acc + t)
       case BadText => BadText)
    else ReadString(s[1..], acc + [s[0]])
  }

  function ReadValue(s0: string, depth: nat): (r: Parsed)
    ensures r.Good? ==> |r.rest| < |s0|
    decreases |s0|, 3
  {
    var s := SkipSpaces(s0);
    if depth > MAX_DEPTH || s == "" then Bad
    else if s[0] == 'n' then ReadLiteral(s, "null", JNull)
    else if s[0] == 't' then ReadLiteral(s, "true", JBool(true))
    else if s[0] == 'f' then ReadLiteral(s, "false", JBool(false))
    else if s[0] == '"' then
      (match ReadString(s[1..], "") case GoodText(t, rest) => Good(JStr(t), rest) case BadText => Bad)
    else if s[0] == '[' then ReadArray(s[1..], depth)
    else if s[0] == '{' then ReadObject(s[1..], depth)
    else if s[0] == '-' || IsDigit(s[0]) then ReadNumber(s)
    else Bad
  }

  function ReadArray(s: string, depth: nat): (r: Parsed)
    ensures r.Good? ==> |r.rest| < |s|
    decreases |s|, 5
  {
    var t := SkipSpaces(s);
    if t != "" && t[0] == ']' then Good(JList([]), t[1..]) else ReadItems(t, [], depth)
  }

  function ReadItems(s: string, items: seq<Json>, depth: nat): (r: Parsed)
    ensures r.Good? ==> |r.rest| < |s|
    decreases |s|, 4
  {
    match ReadValue(s, depth + 1)
    case Bad => Bad
    case Good(v, rest) =>
      var t := SkipSpaces(rest);
      if t == "" then Bad
      else if t[0] == ',' then ReadItems(t[1..], items + [v], depth)
      else if t[0] == ']' then Good(JList(items + [v]), t[1..])
      else Bad
  }

  function ReadObject(s: string, depth: nat): (r: Parsed)
    ensures r.Good? ==> |r.rest| < |s|
    decreases |s|, 5
  {
    var t := SkipSpaces(s);
    if t != "" && t[0] == '}' then Good(JMap([]), t[1..]) else ReadEntries(t, [], depth)
  }

  function ReadEntries(s: string, entries: seq<Entry>, depth: nat): (r: Parsed)
    ensures r.Good? ==> |r.rest| < |s|
    decreases |s|, 4
  {
    var t := SkipSpaces(s);
    if t == "" || t[0] != '"' then Bad
    else match ReadString(t[1..], "")
      case BadText => Bad
      case GoodText(key, rest) =>
        var colon := SkipSpaces(rest);
        if colon == "" || colon[0] != ':' then Bad
        else match ReadValue(colon[1..], depth + 1)
          case Bad => Bad
          case Good(v, rest2) =>
            var u := SkipSpaces(rest2);
            var more := SetEntry(entries, JStr(key), v);
            if u == "" then Bad
            else if u[0] == ',' then ReadEntries(u[1..], more, depth)
            else if u[0] == '}' then Good(JMap(more), u[1..])
            else Bad
  }

  /** A map keeps the place of a key that it has, and puts a new one last. */
  function SetEntry(entries: seq<Entry>, key: Json, value: Json): seq<Entry> {
    if entries == [] then [Entry(key, value)]
    else if entries[0].key == key then [Entry(key, value)] + entries[1..]
    else [entries[0]] + SetEntry(entries[1..], key, value)
  }

  /** A whole text: a value and spaces. */
  function ParseText(s: string): Option<Json> {
    match ReadValue(s, 0)
    case Good(v, rest) => if SkipSpaces(rest) == "" then Some(v) else None
    case Bad => None
  }
}
