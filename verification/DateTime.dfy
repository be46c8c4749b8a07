/** Datetimes as text: `format` and `parse`, and when the second undoes the first. */
module DateTime {
  import opened Calendar
  import opened Numerals

  datatype Result<T> = Ok(value: T) | Err

  datatype Fields = Fields(y: int, mo: int, d: int, h: int, mi: int, s: int)

  // ---------------------------------------------------------------- timestamps

  function FieldsOf(ts: int): Fields {
    var t, rem := CivilFromDays(ts / 86400), ts % 86400;
    Fields(t.y, t.m, t.d, rem / 3600, rem % 3600 / 60, rem % 60)
  }

  function Stamp(f: Fields): int { DaysFromCivil(f.y, f.mo, f.d) * 86400 + f.h * 3600 + f.mi * 60 + f.s }

  /** Monday is 0. */
  function Weekday(ts: int): nat { (ts / 86400 + 3) % 7 }

  /** Days and seconds by division towards zero, mended for times before 1970; the weekday likewise. */
  method SplitTimestamp(ts: int) returns (days: int, rem: int, weekday: int)
    ensures days == ts / 86400 && rem == ts % 86400 && weekday == Weekday(ts)
  {
    days, rem := Div(ts, 86400), ts - Div(ts, 86400) * 86400;
    if rem < 0 { rem, days := rem + 86400, days - 1; }
    var r := days - Div(days, 7) * 7;
    var w := r + 7 + 3;
    weekday := w - Div(w, 7) * 7;
  }

  lemma StampOfFields(ts: int)
    ensures Stamp(FieldsOf(ts)) == ts
    ensures var f := FieldsOf(ts); 1 <= f.mo <= 12 && 1 <= f.d <= 31 && 0 <= f.h < 24 && 0 <= f.mi < 60 && 0 <= f.s < 60
  {
    hide DaysFromCivil, CivilFromDays;
    DayRoundTrip(ts / 86400);
    var rem := ts % 86400;
    assert rem == rem / 3600 * 3600 + rem % 3600;
    assert rem % 60 == rem % 3600 % 60 by { SecondsIn(rem); }
  }

  lemma SecondsIn(rem: nat)
    ensures rem % 60 == rem % 3600 % 60
  {
    var q, r := rem / 3600, rem % 3600;
    var a, b := r / 60, r % 60;
    assert rem == 60 * (60 * q + a) + b;
    RestOf(rem, 60 * q + a, b);
  }

  lemma RestOf(n: nat, q: nat, r: nat)
    requires n == 60 * q + r && r < 60
    ensures n % 60 == r
  {
  }

  // ---------------------------------------------------------------- numbers

  function Zeros(s: string, width: nat): string
    decreases width - |s|
  {
    if |s| >= width then s else Zeros("0" + s, width)
  }

  /** At least `width` characters, padded with zeros behind the sign. */
  function Padded(v: int, width: nat): string
    requires width > 0
  {
    if v < 0 then "-" + Zeros(Decimal(-v), width - 1) else Zeros(Decimal(v), width)
  }

  /** Up to `width` digits: their value, how many, and what follows. */
  datatype Read = Read(value: nat, count: nat, rest: string)

  function ReadDigits(txt: string, width: nat, v: nat, n: nat): Read
    decreases width
  {
    if width == 0 || txt == "" || !IsDigit(txt[0]) then Read(v, n, txt)
    else ReadDigits(txt[1..], width - 1, v * 10 + DigitValue(txt[0]), n + 1)
  }

  function ReadInt(txt: string, width: nat): Read { ReadDigits(txt, width, 0, 0) }

  // ---------------------------------------------------------------- format and parse

  /** The text of a format; an unknown directive is an error. */
  function FormatFrom(fmt: string, f: Fields, wd: nat): Result<string> {
    if fmt == "" then Ok("")
    else if fmt[0] != '%' || |fmt| == 1 then Prepend([fmt[0]], FormatFrom(fmt[1..], f, wd))
    else
      match Directive(fmt[1], f, wd)
      case Ok(s) => Prepend(s, FormatFrom(fmt[2..], f, wd))
      case Err => Err
  }

  function Prepend(s: string, r: Result<string>): Result<string> {
    match r case Ok(t) => Ok(s + t) case Err => Err
  }

  function Directive(c: char, f: Fields, wd: nat): Result<string> {
    if c == 'Y' then Ok(Padded(f.y, 4))
    else if c == 'm' then Ok(Padded(f.mo, 2))
    else if c == 'd' then Ok(Padded(f.d, 2))
    else if c == 'H' then Ok(Padded(f.h, 2))
    else if c == 'M' then Ok(Padded(f.mi, 2))
    else if c == 'S' then Ok(Padded(f.s, 2))
    else if c == 'w' then Ok(Decimal(wd))
    else if c == '%' then Ok("%")
    else Err
  }

  /** The fields that a text has under a format, on top of `acc`. */
  function ParseFrom(fmt: string, txt: string, acc: Fields): Result<Fields> {
    if fmt == "" then Ok(acc)
    else if fmt[0] != '%' || |fmt| == 1 then
      (if txt == "" || txt[0] != fmt[0] then Err else ParseFrom(fmt[1..], txt[1..], acc))
    else if fmt[1] == '%' then
      (if txt == "" || txt[0] != '%' then Err else ParseFrom(fmt[2..], txt[1..], acc))
    else if fmt[1] !in "YmdHMS" then Err
    else
      var r := ReadInt(txt, if fmt[1] == 'Y' then 4 else 2);
      if r.count == 0 then Err else ParseFrom(fmt[2..], r.rest, Put(acc, fmt[1], r.value))
  }

  function Put(f: Fields, c: char, v: int): Fields {
    if c == 'Y' then f.(y := v) else if c == 'm' then f.(mo := v) else if c == 'd' then f.(d := v)
    else if c == 'H' then f.(h := v) else if c == 'M' then f.(mi := v) else f.(s := v)
  }

  const EPOCH := Fields(1970, 1, 1, 0, 0, 0)

  predicate InRange(f: Fields) {
    1 <= f.mo <= 12 && 1 <= f.d <= 31 && f.h <= 23 && f.mi <= 59 && f.s <= 59
  }

  function Parsed(txt: string, fmt: string): Result<int> {
    match ParseFrom(fmt, txt, EPOCH)
    case Ok(f) => if InRange(f) then Ok(Stamp(f)) else Err
    case Err => Err
  }

  // ---------------------------------------------------------------- the loops

  method FormatInt(v: int, width: nat) returns (s: string)
    requires width > 0
    ensures s == Padded(v, width)
  {
    s := if v < 0 then "-" + Zeros(Decimal(-v), width - 1) else Zeros(Decimal(v), width);
  }

  /** One directive's text. */
  method WriteDirective(c: char, t: Date, rem: nat, wd: nat) returns (r: Result<string>)
    ensures r == Directive(c, Fields(t.y, t.m, t.d, rem / 3600, rem % 3600 / 60, rem % 60), wd)
  {
    var s := "%";
    if c == 'Y' { s := FormatInt(t.y, 4); }
    else if c == 'm' { s := FormatInt(t.m, 2); }
    else if c == 'd' { s := FormatInt(t.d, 2); }
    else if c == 'H' { s := FormatInt(rem / 3600, 2); }
    else if c == 'M' { s := FormatInt(rem % 3600 / 60, 2); }
    else if c == 'S' { s := FormatInt(rem % 60, 2); }
    else if c == 'w' { s := Decimal(wd); }
    else if c != '%' { return Err; }
    r := Ok(s);
  }

  /** `format`: one pass over the format string. */
  method Format(ts: int, fmt: string) returns (r: Result<string>)
    ensures r == FormatFrom(fmt, FieldsOf(ts), Weekday(ts))
  {
    hide FormatFrom, Directive, Weekday, CivilFromDays;
    var days, rem, wd := SplitTimestamp(ts);
    var t := CivilFromDays(days);
    ghost var f := FieldsOf(ts);
    ghost var whole := FormatFrom(fmt, f, Weekday(ts));
    var out := "";
    var i := 0;
    assert fmt[0..] == fmt;
    assert whole == Prepend(out, whole) by { NothingBefore(whole); }
    while i < |fmt|
      invariant 0 <= i <= |fmt| && whole == Prepend(out, FormatFrom(fmt[i..], f, Weekday(ts)))
    {
      FormatStep(fmt, i, f, Weekday(ts));
      if fmt[i] != '%' || i + 1 >= |fmt| {
        Joined(out, [fmt[i]], FormatFrom(fmt[i + 1..], f, Weekday(ts)));
        out := out + [fmt[i]];
        i := i + 1;
        continue;
      }
      var s := WriteDirective(fmt[i + 1], t, rem, wd);
      if s.Err? { return Err; }
      Joined(out, s.value, FormatFrom(fmt[i + 2..], f, Weekday(ts)));
      out := out + s.value;
      i := i + 2;
    }
    FormatStep(fmt, i, f, Weekday(ts));
    assert out + "" == out;
    r := Ok(out);
  }

  /** What one round of the loop does. */
  lemma FormatStep(fmt: string, i: nat, f: Fields, wd: nat)
    requires i <= |fmt|
    ensures FormatFrom(fmt[i..], f, wd) ==
      if i == |fmt| then Ok("")
      else if fmt[i] != '%' || i + 1 >= |fmt| then Prepend([fmt[i]], FormatFrom(fmt[i + 1..], f, wd))
      else match Directive(fmt[i + 1], f, wd) case Ok(s) => Prepend(s, FormatFrom(fmt[i + 2..], f, wd)) case Err => Err
  {
    hide Directive;
    if i < |fmt| { assert fmt[i..][0] == fmt[i] && fmt[i..][1..] == fmt[i + 1..]; }
    if i + 1 < |fmt| { assert fmt[i..][1] == fmt[i + 1] && fmt[i..][2..] == fmt[i + 2..]; }
  }

  lemma NothingBefore(r: Result<string>)
    ensures Prepend("", r) == r
  {
    if r.Ok? { assert "" + r.value == r.value; }
  }

  lemma Joined(a: string, b: string, r: Result<string>)
    ensures Prepend(a, Prepend(b, r)) == Prepend(a + b, r)
  {
    if r.Ok? { assert a + (b + r.value) == a + b + r.value; }
  }

  /** Reads digits at `ti`; gives the new cursor. */
  method ReadNumber(txt: string, ti: nat, width: nat) returns (ok: bool, v: nat, to: nat)
    requires ti <= |txt|
    ensures var r := ReadInt(txt[ti..], width);
      ti <= to <= |txt| && v == r.value && (ok <==> r.count > 0) && txt[to..] == r.rest
  {
    v, to := 0, ti;
    var n := 0;
    ghost var whole := ReadInt(txt[ti..], width);
    while n < width && to < |txt| && IsDigit(txt[to])
      invariant 0 <= n <= width && ti <= to <= |txt| && whole == ReadDigits(txt[to..], width - n, v, n)
    {
      assert txt[to..][0] == txt[to] && txt[to..][1..] == txt[to + 1..];
      v, to, n := v * 10 + DigitValue(txt[to]), to + 1, n + 1;
    }
    ok := n > 0;
  }

  /** `parse`: the same pass, with a cursor in the text. */
  method Parse(txt: string, fmt: string) returns (r: Result<int>)
    ensures r == Parsed(txt, fmt)
  {
    hide ParseFrom, ReadInt, Put;
    var f := EPOCH;
    var ti := 0;
    var i := 0;
    ghost var whole := ParseFrom(fmt, txt, EPOCH);
    assert fmt[0..] == fmt && txt[0..] == txt;
    while i < |fmt|
      invariant 0 <= i <= |fmt| && 0 <= ti <= |txt| && whole == ParseFrom(fmt[i..], txt[ti..], f)
    {
      ParseStep(fmt, i, txt, ti, f);
      if fmt[i] != '%' || i + 1 >= |fmt| {
        if ti >= |txt| || txt[ti] != fmt[i] { return Err; }
        ti := ti + 1;
        i := i + 1;
        continue;
      }
      var c := fmt[i + 1];
      if c == '%' {
        if ti >= |txt| || txt[ti] != '%' { return Err; }
        ti := ti + 1;
      } else if c == 'Y' || c == 'm' || c == 'd' || c == 'H' || c == 'M' || c == 'S' {
        var ok, v, to := ReadNumber(txt, ti, if c == 'Y' then 4 else 2);
        if !ok { return Err; }
        f := Put(f, c, v);
        ti := to;
      } else {
        return Err;
      }
      i := i + 2;
    }
    ParseStep(fmt, i, txt, ti, f);
    if f.mo < 1 || f.mo > 12 || f.d < 1 || f.d > 31 || f.h > 23 || f.mi > 59 || f.s > 59 { return Err; }
    r := Ok(DaysFromCivil(f.y, f.mo, f.d) * 86400 + f.h * 3600 + f.mi * 60 + f.s);
  }

  lemma ParseStep(fmt: string, i: nat, txt: string, ti: nat, f: Fields)
    requires i <= |fmt| && ti <= |txt|
    ensures ParseFrom(fmt[i..], txt[ti..], f) ==
      if i == |fmt| then Ok(f)
      else if fmt[i] != '%' || i + 1 >= |fmt| then
        (if ti == |txt| || txt[ti] != fmt[i] then Err else ParseFrom(fmt[i + 1..], txt[ti + 1..], f))
      else if fmt[i + 1] == '%' then
        (if ti == |txt| || txt[ti] != '%' then Err else ParseFrom(fmt[i + 2..], txt[ti + 1..], f))
      else if fmt[i + 1] !in "YmdHMS" then Err
      else
        var r := ReadInt(txt[ti..], if fmt[i + 1] == 'Y' then 4 else 2);
        if r.count == 0 then Err else ParseFrom(fmt[i + 2..], r.rest, Put(f, fmt[i + 1], r.value))
  {
    hide ReadInt, Put;
    if i < |fmt| { assert fmt[i..][0] == fmt[i] && fmt[i..][1..] == fmt[i + 1..]; }
    if i + 1 < |fmt| { assert fmt[i..][1] == fmt[i + 1] && fmt[i..][2..] == fmt[i + 2..]; }
    if ti < |txt| { assert txt[ti..][0] == txt[ti] && txt[ti..][1..] == txt[ti + 1..]; }
  }

  // ---------------------------------------------------------------- reading what was written

  lemma ReadDigit(d: nat, rest: string, width: nat, v: nat, n: nat)
    requires d < 10 && width > 0
    ensures ReadDigits([Digit(d)] + rest, width, v, n) == ReadDigits(rest, width - 1, v * 10 + d, n + 1)
  {
    assert ([Digit(d)] + rest)[1..] == rest;
  }

  lemma NoMore(rest: string, v: nat, n: nat)
    ensures ReadDigits(rest, 0, v, n) == Read(v, n, rest)
  {
  }

  lemma TwoRead(v: nat, rest: string)
    requires v < 100
    ensures ReadInt(Padded(v, 2) + rest, 2) == Read(v, 2, rest)
  {
    TwoIs(v);
    var a, b := v / 10, v % 10;
    assert [Digit(a), Digit(b)] + rest == [Digit(a)] + ([Digit(b)] + rest);
    ReadDigit(a, [Digit(b)] + rest, 2, 0, 0);
    ReadDigit(b, rest, 1, a, 1);
  }

  lemma TwoIs(v: nat)
    requires v < 100
    ensures Padded(v, 2) == [Digit(v / 10), Digit(v % 10)]
  {
    if v < 10 {
      assert Zeros([Digit(v)], 2) == Zeros("0" + [Digit(v)], 2);
    } else {
      assert Decimal(v) == [Digit(v / 10)] + [Digit(v % 10)];
    }
  }

  lemma FourIs(v: nat)
    requires v < 10000
    ensures Padded(v, 4) == [Digit(v / 1000), Digit(v / 100 % 10), Digit(v / 10 % 10), Digit(v % 10)]
  {
    hide Digit, Zeros, Decimal;
    if v < 10 { OneIs(v); ZerosTo(Decimal(v), 4); ZeroDigit(); }
    else if v < 100 { TwoAre(v); ZerosTo(Decimal(v), 4); ZeroDigit(); }
    else if v < 1000 { ThreeAre(v); ZerosTo(Decimal(v), 4); ZeroDigit(); }
    else { FourAre(v); LongEnough(Decimal(v), 4); }
  }

  lemma ZeroDigit()
    ensures Digit(0) == '0'
  {
  }

  lemma LongEnough(s: string, width: nat)
    requires |s| >= width
    ensures Zeros(s, width) == s
  {
  }

  lemma OneIs(v: nat)
    requires v < 10
    ensures Decimal(v) == [Digit(v)]
  {
  }

  lemma TwoAre(v: nat)
    requires 10 <= v < 100
    ensures Decimal(v) == [Digit(v / 10), Digit(v % 10)]
  {
    hide Digit;
    OneIs(v / 10);
  }

  lemma ThreeAre(v: nat)
    requires 100 <= v < 1000
    ensures Decimal(v) == [Digit(v / 100), Digit(v / 10 % 10), Digit(v % 10)]
  {
    hide Digit;
    TwoAre(v / 10);
  }

  lemma FourAre(v: nat)
    requires 1000 <= v < 10000
    ensures Decimal(v) == [Digit(v / 1000), Digit(v / 100 % 10), Digit(v / 10 % 10), Digit(v % 10)]
  {
    hide Digit;
    ThreeAre(v / 10);
  }

  lemma ZerosTo(s: string, width: nat)
    requires 1 <= |s| < width == 4
    ensures Zeros(s, width) == (if |s| == 1 then "000" else if |s| == 2 then "00" else "0") + s
  {
    assert "0" + ("0" + s) == "00" + s;
    assert "0" + ("00" + s) == "000" + s;
    if |s| == 1 {
      assert Zeros(s, 4) == Zeros("0" + s, 4) == Zeros("00" + s, 4) == Zeros("000" + s, 4);
    } else if |s| == 2 {
      assert Zeros(s, 4) == Zeros("0" + s, 4) == Zeros("00" + s, 4);
    }
  }

  lemma FourRead(v: nat, rest: string)
    requires v < 10000
    ensures ReadInt(Padded(v, 4) + rest, 4) == Read(v, 4, rest)
  {
    hide Padded, ReadDigits, Digit;
    FourIs(v);
    FourDigits(v);
    ReadAll(v / 1000, v / 100 % 10, v / 10 % 10, v % 10, rest);
  }

  lemma FourDigits(v: nat)
    requires v < 10000
    ensures v / 1000 < 10
    ensures ((v / 1000 * 10 + v / 100 % 10) * 10 + v / 10 % 10) * 10 + v % 10 == v
  {
    assert v == v / 10 * 10 + v % 10;
    assert v / 10 == v / 100 * 10 + v / 10 % 10;
    assert v / 100 == v / 1000 * 10 + v / 100 % 10;
  }

  lemma ReadAll(a: nat, b: nat, c: nat, d: nat, rest: string)
    requires a < 10 && b < 10 && c < 10 && d < 10
    ensures ReadInt([Digit(a), Digit(b), Digit(c), Digit(d)] + rest, 4)
         == Read(((a * 10 + b) * 10 + c) * 10 + d, 4, rest)
  {
    hide ReadDigits, Digit;
    var r1 := [Digit(d)] + rest;
    var r2 := [Digit(c)] + r1;
    var r3 := [Digit(b)] + r2;
    assert [Digit(a), Digit(b), Digit(c), Digit(d)] + rest == [Digit(a)] + r3;
    ReadDigit(a, r3, 4, 0, 0);
    ReadDigit(b, r2, 3, a, 1);
    ReadDigit(c, r1, 2, a * 10 + b, 2);
    ReadDigit(d, rest, 1, (a * 10 + b) * 10 + c, 3);
    NoMore(rest, ((a * 10 + b) * 10 + c) * 10 + d, 4);
  }

  // ---------------------------------------------------------------- round trips

  /** The directives that `parse` knows, and literal characters. */
  predicate Parseable(fmt: string) {
    fmt == ""
    || ((fmt[0] != '%' || |fmt| == 1) && Parseable(fmt[1..]))
    || (fmt[0] == '%' && |fmt| > 1 && fmt[1] in "%YmdHMS" && Parseable(fmt[2..]))
  }

  /** `acc` with the fields that the format mentions taken from `f`. */
  function Taken(fmt: string, f: Fields, acc: Fields): Fields {
    if fmt == "" then acc
    else if fmt[0] != '%' || |fmt| == 1 then Taken(fmt[1..], f, acc)
    else if fmt[1] in "YmdHMS" then Taken(fmt[2..], f, Put(acc, fmt[1], FieldValue(f, fmt[1])))
    else Taken(fmt[2..], f, acc)
  }

  function FieldValue(f: Fields, c: char): int {
    if c == 'Y' then f.y else if c == 'm' then f.mo else if c == 'd' then f.d
    else if c == 'H' then f.h else if c == 'M' then f.mi else f.s
  }

  predicate Mentions(fmt: string, c: char) {
    if fmt == "" then false
    else if fmt[0] != '%' || |fmt| == 1 then Mentions(fmt[1..], c)
    else fmt[1] == c || Mentions(fmt[2..], c)
  }

  predicate MentionsAll(fmt: string) { forall c :: c in "YmdHMS" ==> Mentions(fmt, c) }

  predicate Printable(f: Fields) {
    0 <= f.y < 10000 && 0 <= f.mo < 100 && 0 <= f.d < 100 && 0 <= f.h < 100 && 0 <= f.mi < 100 && 0 <= f.s < 100
  }

  lemma DirectiveRead(c: char, f: Fields, wd: nat, rest: string)
    requires c in "YmdHMS" && Printable(f)
    ensures Directive(c, f, wd).Ok?
    ensures ReadInt(Directive(c, f, wd).value + rest, if c == 'Y' then 4 else 2)
         == Read(FieldValue(f, c), if c == 'Y' then 4 else 2, rest)
  {
    hide ReadInt, Padded;
    if c == 'Y' { FourRead(f.y, rest); } else { TwoRead(FieldValue(f, c), rest); }
  }

  /** Format and parse move over the format in step: reading the text of a format gives the fields that
      the format mentions, whatever follows the text. */
  lemma {:induction false} Lockstep(fmt: string, f: Fields, wd: nat, acc: Fields, rest: string)
    requires Parseable(fmt) && Printable(f)
    ensures FormatFrom(fmt, f, wd).Ok?
    ensures ParseFrom(fmt, FormatFrom(fmt, f, wd).value + rest, acc) == Ok(Taken(fmt, f, acc))
  {
    hide ReadInt, Directive, Printable;
    if fmt != "" {
      if fmt[0] != '%' || |fmt| == 1 {
        Lockstep(fmt[1..], f, wd, acc, rest);
        var t := FormatFrom(fmt[1..], f, wd).value;
        assert ([fmt[0]] + t + rest)[1..] == t + rest;
      } else if fmt[1] == '%' {
        Lockstep(fmt[2..], f, wd, acc, rest);
        var t := FormatFrom(fmt[2..], f, wd).value;
        PercentIs(f, wd);
        assert ("%" + t + rest)[1..] == t + rest;
      } else {
        var next := Put(acc, fmt[1], FieldValue(f, fmt[1]));
        Lockstep(fmt[2..], f, wd, next, rest);
        var t := FormatFrom(fmt[2..], f, wd).value;
        DirectiveRead(fmt[1], f, wd, t + rest);
        assert Directive(fmt[1], f, wd).value + t + rest == Directive(fmt[1], f, wd).value + (t + rest);
      }
    }
  }

  lemma PercentIs(f: Fields, wd: nat)
    ensures Directive('%', f, wd) == Ok("%")
  {
  }

  /** A field that is mentioned is taken, another kept. */
  lemma {:induction false} TakenValue(fmt: string, f: Fields, acc: Fields, c: char)
    requires c in "YmdHMS"
    ensures FieldValue(Taken(fmt, f, acc), c) == FieldValue(if Mentions(fmt, c) then f else acc, c)
  {
    if fmt != "" {
      if fmt[0] != '%' || |fmt| == 1 {
        TakenValue(fmt[1..], f, acc, c);
      } else if fmt[1] in "YmdHMS" {
        TakenValue(fmt[2..], f, Put(acc, fmt[1], FieldValue(f, fmt[1])), c);
      } else {
        TakenValue(fmt[2..], f, acc, c);
      }
    }
  }

  lemma AllTaken(fmt: string, f: Fields, acc: Fields)
    requires MentionsAll(fmt)
    ensures Taken(fmt, f, acc) == f
  {
    assert 'Y' in "YmdHMS" && 'm' in "YmdHMS" && 'd' in "YmdHMS" && 'H' in "YmdHMS" && 'M' in "YmdHMS"
        && 'S' in "YmdHMS";
    TakenValue(fmt, f, acc, 'Y'); TakenValue(fmt, f, acc, 'm'); TakenValue(fmt, f, acc, 'd');
    TakenValue(fmt, f, acc, 'H'); TakenValue(fmt, f, acc, 'M'); TakenValue(fmt, f, acc, 'S');
  }

  /** What a parsed text can say: at most four digits of a year, two of the others. */
  lemma {:induction false} ParsedSmall(fmt: string, txt: string, acc: Fields)
    requires Printable(acc) && ParseFrom(fmt, txt, acc).Ok?
    ensures Printable(ParseFrom(fmt, txt, acc).value)
    decreases |fmt|
  {
    if fmt != "" {
      if fmt[0] != '%' || |fmt| == 1 {
        ParsedSmall(fmt[1..], txt[1..], acc);
      } else if fmt[1] == '%' {
        ParsedSmall(fmt[2..], txt[1..], acc);
      } else {
        var w := if fmt[1] == 'Y' then 4 else 2;
        ReadSmall(txt, w);
        ParsedSmall(fmt[2..], ReadInt(txt, w).rest, Put(acc, fmt[1], ReadInt(txt, w).value));
      }
    }
  }

  lemma ReadSmall(txt: string, width: nat)
    requires width == 2 || width == 4
    ensures ReadInt(txt, width).value < if width == 2 then 100 else 10000
  {
    ReadBound(txt, width, 0, 0);
    assert Ten(2) == 100 && Ten(4) == 10000 by { assert Ten(1) == 10; assert Ten(3) == 1000; }
  }

  function Ten(n: nat): nat { if n == 0 then 1 else 10 * Ten(n - 1) }

  lemma {:induction false} ReadBound(txt: string, width: nat, v: nat, n: nat)
    ensures ReadDigits(txt, width, v, n).value < (v + 1) * Ten(width)
    decreases width
  {
    if width == 0 || txt == "" || !IsDigit(txt[0]) {
      TenGrows(v + 1, width);
    } else {
      var d := DigitValue(txt[0]);
      ReadBound(txt[1..], width - 1, v * 10 + d, n + 1);
      Scale(v * 10 + d + 1, (v + 1) * 10, Ten(width - 1));
      assert (v + 1) * 10 * Ten(width - 1) == (v + 1) * Ten(width);
    }
  }

  lemma Scale(a: nat, b: nat, c: nat)
    requires a <= b
    ensures a * c <= b * c
  {
  }

  lemma {:induction false} TenGrows(a: nat, n: nat)
    ensures a <= a * Ten(n) && Ten(n) >= 1
  {
    if n > 0 {
      TenGrows(a, n - 1);
      Scale(Ten(n - 1), Ten(n), a);
    }
  }

  // ---------------------------------------------------------------- the exact condition

  /** Greater day numbers belong to later dates, and back. */
  lemma BeforeMeansLess(a: Date, b: Date)
    requires Valid(a) && Valid(b) && Before(a, b)
    ensures DaysFromCivil(a.y, a.m, a.d) < DaysFromCivil(b.y, b.m, b.d)
  {
    hide DaysFromCivil;
    var x, y := DaysFromCivil(a.y, a.m, a.d), DaysFromCivil(b.y, b.m, b.d);
    if x >= y { DaysOrdered(b, a, x - y); }
  }

  lemma DayInMonth(y: int, m: int, d: int)
    ensures DaysFromCivil(y, m, d) == DaysFromCivil(y, m, 1) + d - 1
  {
  }

  /** Day numbers written with a year of four digits are in such a year, even if the month is shorter. */
  lemma YearStays(y: int, mo: int, d: int)
    requires 0 <= y < 10000 && 1 <= mo <= 12 && 1 <= d <= 31
    ensures 0 <= CivilFromDays(DaysFromCivil(y, mo, d)).y < 10000
  {
    hide DaysFromCivil, CivilFromDays;
    var z := DaysFromCivil(y, mo, d);
    var t := CivilFromDays(z);
    DayRoundTrip(z);
    DayInMonth(y, mo, d);
    var first, last := Date(0, 1, 1), Date(9999, 12, 31);
    var start := Date(y, mo, 1);
    if start != first { BeforeMeansLess(first, start); }
    DaysOrdered(first, t, z - DaysFromCivil(0, 1, 1));
    var end := if mo == 12 then Date(y, 12, 31) else Date(y, mo + 1, 3);
    if mo == 12 {
      DayInMonth(y, 12, 31);
    } else {
      var len := MonthLength(y, mo);
      DayInMonth(y, mo, len);
      NextDayIsNext(Date(y, mo, len));
      DayInMonth(y, mo + 1, 3);
    }
    if end != last { BeforeMeansLess(end, last); }
    DaysOrdered(t, last, DaysFromCivil(9999, 12, 31) - z);
  }

  /** `parse` undoes `format` - for every format of literals, `%%` and the six fields that mentions all
      six - exactly for the years that four digits can write. */
  lemma ParseUndoesFormat(ts: int, fmt: string)
    requires Parseable(fmt) && MentionsAll(fmt)
    ensures var r := FormatFrom(fmt, FieldsOf(ts), Weekday(ts));
      r.Ok? && (Parsed(r.value, fmt) == Ok(ts) <==> 0 <= FieldsOf(ts).y < 10000)
  {
    hide DaysFromCivil, CivilFromDays, FormatFrom, ParseFrom, Taken, Parseable;
    var f := FieldsOf(ts);
    StampOfFields(ts);
    FormatWorks(fmt, f, Weekday(ts));
    var text := FormatFrom(fmt, f, Weekday(ts)).value;
    if 0 <= f.y < 10000 {
      Lockstep(fmt, f, Weekday(ts), EPOCH, "");
      assert text + "" == text;
      AllTaken(fmt, f, EPOCH);
    } else if Parsed(text, fmt).Ok? {
      ParsedSmall(fmt, text, EPOCH);
      var g := ParseFrom(fmt, text, EPOCH).value;
      YearStays(g.y, g.mo, g.d);
      SameDay(g);
    }
  }

  /** Fields of any size that the digits can write: a text is accepted exactly if each field is in its
      range, where any month may have 31 days. */
  lemma RangesAreChecked(f: Fields, wd: nat, fmt: string)
    requires Parseable(fmt) && MentionsAll(fmt) && Printable(f)
    ensures FormatFrom(fmt, f, wd).Ok?
    ensures Parsed(FormatFrom(fmt, f, wd).value, fmt) ==
      if f.mo == 0 || f.mo > 12 || f.d == 0 || f.d > 31 || f.h >= 24 || f.mi >= 60 || f.s >= 60 then Err
      else Ok(DaysFromCivil(f.y, f.mo, f.d) * 86400 + (f.h * 60 + f.mi) * 60 + f.s)
  {
    hide DaysFromCivil, FormatFrom, ParseFrom, Taken, Parseable;
    Lockstep(fmt, f, wd, EPOCH, "");
    var text := FormatFrom(fmt, f, wd).value;
    assert text + "" == text;
    AllTaken(fmt, f, EPOCH);
  }

  /** A field takes as many digits as stand there, up to its width, and at least one. */
  lemma {:induction false} FieldTakes(digits: string, rest: string, width: nat)
    requires (forall c :: c in digits ==> IsDigit(c)) && |digits| <= width
    requires |digits| == width || rest == "" || !IsDigit(rest[0])
    ensures ReadInt(digits + rest, width) == Read(NumeralValue(digits), |digits|, rest)
  {
    assert digits[0..] == digits && digits[..0] == "";
    DigitsTaken(digits, 0, rest, width);
  }

  lemma {:induction false} DigitsTaken(digits: string, i: nat, rest: string, width: nat)
    requires i <= |digits| <= width && forall c :: c in digits ==> IsDigit(c)
    requires |digits| == width || rest == "" || !IsDigit(rest[0])
    ensures forall c :: c in digits[..i] ==> IsDigit(c)
    ensures ReadDigits(digits[i..] + rest, width - i, NumeralValue(digits[..i]), i)
         == Read(NumeralValue(digits), |digits|, rest)
    decreases |digits| - i
  {
    if i == |digits| {
      assert digits[i..] + rest == rest && digits[..i] == digits;
    } else {
      var s := digits[..i + 1];
      assert s[..|s| - 1] == digits[..i] && s[|s| - 1] == digits[i];
      assert digits[i] in digits;
      assert (digits[i..] + rest)[1..] == digits[i + 1..] + rest;
      DigitsTaken(digits, i + 1, rest, width);
    }
  }

  lemma SameDay(g: Fields)
    requires InRange(g) && Printable(g)
    ensures Stamp(g) / 86400 == DaysFromCivil(g.y, g.mo, g.d)
  {
    hide DaysFromCivil;
    assert 0 <= g.h * 3600 + g.mi * 60 + g.s < 86400;
  }

  lemma {:induction false} FormatWorks(fmt: string, f: Fields, wd: nat)
    requires Parseable(fmt)
    ensures FormatFrom(fmt, f, wd).Ok?
  {
    if fmt != "" {
      if fmt[0] != '%' || |fmt| == 1 { FormatWorks(fmt[1..], f, wd); } else { FormatWorks(fmt[2..], f, wd); }
    }
  }

  /** With a format that leaves fields out, the text is read as of 1 January 1970, midnight. */
  lemma ParseFillsIn(ts: int, fmt: string)
    requires Parseable(fmt) && 0 <= FieldsOf(ts).y < 10000
    ensures var r := FormatFrom(fmt, FieldsOf(ts), Weekday(ts));
      var g := Taken(fmt, FieldsOf(ts), EPOCH);
      r.Ok? && Parsed(r.value, fmt) == Ok(Stamp(g)) && InRange(g)
  {
    hide DaysFromCivil, CivilFromDays, FormatFrom, ParseFrom;
    var f := FieldsOf(ts);
    StampOfFields(ts);
    Lockstep(fmt, f, Weekday(ts), EPOCH, "");
    var text := FormatFrom(fmt, f, Weekday(ts)).value;
    assert text + "" == text;
    assert 'm' in "YmdHMS" && 'd' in "YmdHMS" && 'H' in "YmdHMS" && 'M' in "YmdHMS" && 'S' in "YmdHMS";
    TakenValue(fmt, f, EPOCH, 'm'); TakenValue(fmt, f, EPOCH, 'd'); TakenValue(fmt, f, EPOCH, 'H');
    TakenValue(fmt, f, EPOCH, 'M'); TakenValue(fmt, f, EPOCH, 'S');
  }

  /** `%w` can be written but not read: no text parses under a format that mentions it. */
  lemma {:induction false} WeekdayIsNotRead(fmt: string, txt: string, acc: Fields)
    requires Mentions(fmt, 'w')
    ensures ParseFrom(fmt, txt, acc).Err?
    decreases |fmt|
  {
    if fmt[0] != '%' || |fmt| == 1 {
      if txt != "" { WeekdayIsNotRead(fmt[1..], txt[1..], acc); }
    } else if fmt[1] == '%' {
      if txt != "" { WeekdayIsNotRead(fmt[2..], txt[1..], acc); }
    } else if fmt[1] in "YmdHMS" {
      var r := ReadInt(txt, if fmt[1] == 'Y' then 4 else 2);
      WeekdayIsNotRead(fmt[2..], r.rest, Put(acc, fmt[1], r.value));
    }
  }

  // ---------------------------------------------------------------- where counting begins

  /** Timestamp 0 is midnight of the first of January 1970. */
  lemma EpochIsZero()
    ensures FieldsOf(0) == EPOCH && Stamp(EPOCH) == 0
  {
    hide CivilFromDays, DaysFromCivil;
    EpochDay();
    assert 0 / 86400 == 0 && 0 % 86400 == 0;
  }

  lemma EpochDay()
    ensures CivilFromDays(0) == Date(1970, 1, 1) && DaysFromCivil(1970, 1, 1) == 0
  {
  }

  /** That was a Thursday, counted from Monday; the weekday stays for a day and goes round every seven. */
  lemma WeekdaysGoRound(day: int, s: int, later: int)
    requires 0 <= s < 86400 && 0 <= later < 86400
    ensures Weekday(s) == 3
    ensures Weekday(day * 86400 + s) == Weekday(day * 86400 + later) < 7
    ensures var w := Weekday(day * 86400 + s); Weekday((day + 1) * 86400 + later) == if w == 6 then 0 else w + 1
  {
    hide Weekday;
    DayOf(0, s);
    DayOf(day, s);
    DayOf(day, later);
    DayOf(day + 1, later);
    RoundSeven(day + 3);
    assert day + 1 + 3 == day + 3 + 1;
  }

  lemma RoundSeven(n: int)
    ensures (n + 1) % 7 == if n % 7 == 6 then 0 else n % 7 + 1
  {
  }

  lemma DayOf(day: int, s: int)
    requires 0 <= s < 86400
    ensures Weekday(day * 86400 + s) == (day + 3) % 7
  {
    assert (day * 86400 + s) / 86400 == day;
  }

  // ---------------------------------------------------------------- what directives write

  function Two(n: nat): string
    requires n < 100
  {
    [Digit(n / 10), Digit(n % 10)]
  }

  function Four(n: nat): string
    requires n < 10000
  {
    [Digit(n / 1000), Digit(n / 100 % 10), Digit(n / 10 % 10), Digit(n % 10)]
  }

  /** Each directive writes its field: the year with four digits, the others with two, the weekday with
      one. */
  lemma DirectivesWrite(f: Fields, wd: nat)
    requires 0 <= f.y <= 9999 && 0 <= f.mo <= 99 && 0 <= f.d <= 99 && wd < 7
    requires 0 <= f.h <= 99 && 0 <= f.mi <= 99 && 0 <= f.s <= 99
    ensures Directive('Y', f, wd) == Ok(Four(f.y)) && Directive('m', f, wd) == Ok(Two(f.mo))
    ensures Directive('d', f, wd) == Ok(Two(f.d)) && Directive('H', f, wd) == Ok(Two(f.h))
    ensures Directive('M', f, wd) == Ok(Two(f.mi)) && Directive('S', f, wd) == Ok(Two(f.s))
    ensures Directive('w', f, wd) == Ok([Digit(wd)]) && Directive('%', f, wd) == Ok("%")
  {
    hide Padded;
    FourIs(f.y);
    TwoIs(f.mo);
    TwoIs(f.d);
    TwoIs(f.h);
    TwoIs(f.mi);
    TwoIs(f.s);
  }

  lemma OthersAreUnknown(c: char, f: Fields, wd: nat)
    ensures Directive(c, f, wd).Ok? <==> c in ['Y', 'm', 'd', 'H', 'M', 'S', 'w', '%']
  {
  }
}
