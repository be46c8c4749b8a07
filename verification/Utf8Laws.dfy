/** UTF-8 as section 3 of RFC 3629 has it, against the code that writes it and the code that steps over it. */
module Utf8Laws {
  import opened Options
  import opened JsonText
  import opened RegexMeaning

  predicate IsTail(c: char) { 0x80 <= c as int <= 0xBF }

  /** The bits of a byte behind the first one. */
  function TailBits(c: char): nat
    requires IsTail(c)
  {
    c as int - 0x80
  }

  datatype CodePoint = CodePoint(cp: nat, len: nat)

  /** The code point that a text begins with and how many bytes it takes: two bytes for eleven bits, three
      for sixteen, four for twenty-one, and never more than it needs. */
  function Decode(s: string): Option<CodePoint> {
    if s == "" then None
    else
      var b := s[0] as int;
      if b < 0x80 then Some(CodePoint(b, 1))
      else if 0xC2 <= b <= 0xDF && |s| > 1 && IsTail(s[1]) then Some(CodePoint((b - 0xC0) * 64 + TailBits(s[1]), 2))
      else if 0xE0 <= b <= 0xEF && |s| > 2 && IsTail(s[1]) && IsTail(s[2]) then
        AtLeast(0x800, CodePoint((b - 0xE0) * 4096 + TailBits(s[1]) * 64 + TailBits(s[2]), 3))
      else if 0xF0 <= b <= 0xF4 && |s| > 3 && IsTail(s[1]) && IsTail(s[2]) && IsTail(s[3]) then
        AtLeast(0x1_0000,
          CodePoint((b - 0xF0) * 262144 + TailBits(s[1]) * 4096 + TailBits(s[2]) * 64 + TailBits(s[3]), 4))
      else None
  }

  function AtLeast(least: nat, c: CodePoint): Option<CodePoint> {
    if c.cp < least || c.cp >= 0x11_0000 then None else Some(c)
  }

  /** What is written decodes to the code point, whatever follows. */
  lemma WrittenDecodes(cp: nat, rest: string)
    requires cp < 0x11_0000
    ensures Decode(Utf8(cp) + rest) == Some(CodePoint(cp, |Utf8(cp)|))
  {
    Sixes(cp);
    var s := Utf8(cp) + rest;
    assert s[..|Utf8(cp)|] == Utf8(cp);
    forall k | 0 <= k < |Utf8(cp)| ensures s[k] == Utf8(cp)[k] {}
  }

  /** A number in groups of six bits. */
  lemma Sixes(cp: nat)
    ensures cp == cp / 64 * 64 + cp % 64
    ensures cp == cp / 4096 * 4096 + cp / 64 % 64 * 64 + cp % 64
    ensures cp == cp / 262144 * 262144 + cp / 4096 % 64 * 4096 + cp / 64 % 64 * 64 + cp % 64
  {
    assert cp / 64 / 64 == cp / 4096;
    assert cp / 4096 / 64 == cp / 262144;
  }

  /** And nothing else does. */
  lemma DecodesWritten(s: string)
    requires Decode(s).Some?
    ensures var c := Decode(s).value; c.cp < 0x11_0000 && c.len <= |s| && s[..c.len] == Utf8(c.cp)
  {
    hide Utf8;
    var c := Decode(s).value;
    if c.len == 1 {
      Written1(s[0]);
      assert s[..1] == [s[0]];
    } else if c.len == 2 {
      Written2(s[0], s[1]);
      assert s[..2] == [s[0], s[1]];
    } else if c.len == 3 {
      Written3(s[0], s[1], s[2]);
      assert s[..3] == [s[0], s[1], s[2]];
    } else {
      Written4(s[0], s[1], s[2], s[3]);
      assert s[..4] == [s[0], s[1], s[2], s[3]];
    }
  }

  lemma Written1(a: char)
    requires a as int < 0x80
    ensures Utf8(a as int) == [a]
  {
  }

  lemma Written2(a: char, b: char)
    requires 0xC2 <= a as int <= 0xDF && IsTail(b)
    ensures Utf8((a as int - 0xC0) * 64 + TailBits(b)) == [a, b]
  {
    Groups2(a as int - 0xC0, TailBits(b));
  }

  lemma Written3(a: char, b: char, c: char)
    requires 0xE0 <= a as int <= 0xEF && IsTail(b) && IsTail(c)
    requires (a as int - 0xE0) * 4096 + TailBits(b) * 64 + TailBits(c) >= 0x800
    ensures Utf8((a as int - 0xE0) * 4096 + TailBits(b) * 64 + TailBits(c)) == [a, b, c]
  {
    Groups3(a as int - 0xE0, TailBits(b), TailBits(c));
  }

  lemma Written4(a: char, b: char, c: char, d: char)
    requires 0xF0 <= a as int <= 0xF4 && IsTail(b) && IsTail(c) && IsTail(d)
    requires 0x1_0000 <=
      (a as int - 0xF0) * 262144 + TailBits(b) * 4096 + TailBits(c) * 64 + TailBits(d) < 0x11_0000
    ensures Utf8((a as int - 0xF0) * 262144 + TailBits(b) * 4096 + TailBits(c) * 64 + TailBits(d)) == [a, b, c, d]
  {
    Groups4(a as int - 0xF0, TailBits(b), TailBits(c), TailBits(d));
  }

  lemma Groups2(a: nat, b: nat)
    requires b < 64
    ensures var n := a * 64 + b; n / 64 == a && n % 64 == b
  {
  }

  lemma Groups3(a: nat, b: nat, c: nat)
    requires b < 64 && c < 64
    ensures var n := a * 4096 + b * 64 + c; n / 4096 == a && n / 64 % 64 == b && n % 64 == c
  {
    var n := a * 4096 + b * 64 + c;
    Groups2(a * 64 + b, c);
    Groups2(a, b);
    assert n == (a * 64 + b) * 64 + c;
    assert n / 64 / 64 == n / 4096;
  }

  lemma Groups4(a: nat, b: nat, c: nat, d: nat)
    requires b < 64 && c < 64 && d < 64
    ensures var n := a * 262144 + b * 4096 + c * 64 + d;
      n / 262144 == a && n / 4096 % 64 == b && n / 64 % 64 == c && n % 64 == d
  {
    var n := a * 262144 + b * 4096 + c * 64 + d;
    Groups3(a * 64 + b, c, d);
    Groups2(a, b);
    assert n == (a * 64 + b) * 4096 + c * 64 + d;
    assert n / 4096 / 64 == n / 262144;
  }

  /** A dot in a pattern takes a code point, whole, and any but the newline. */
  lemma DotTakesCodePoint(text: string, i: nat, j: nat)
    requires i <= |text| && Decode(text[i..]).Some?
    ensures var c := Decode(text[i..]).value; Means(Any, text, i, j) <==> c.cp != 10 && j == i + c.len
  {
    assert text[i..] != "" && text[i] == text[i..][0];
    DecodesWritten(text[i..]);
  }
}
