/** The CSV writer and reader, and exactly which tables survive being written and read again. */
module Csv {

  type Row = seq<string>
  type Table = seq<Row>

  // ---------------------------------------------------------------- writing

  predicate Special(field: string) { '"' in field || '\n' in field || '\r' in field }

  predicate NeedsQuotes(field: string, sep: char) { sep in field || Special(field) }

  function Doubled(field: string): string {
    if field == "" then ""
    else Written(field[0]) + Doubled(field[1..])
  }

  /** One character inside quotes. */
  function Written(c: char): string { if c == '"' then "\"\"" else [c] }

  function Quote(field: string, sep: char): string {
    if NeedsQuotes(field, sep) then "\"" + (Doubled(field) + "\"") else field
  }

  function CellsText(cells: Row, sep: char): string {
    if cells == [] then ""
    else if |cells| == 1 then Quote(cells[0], sep)
    else Quote(cells[0], sep) + ([sep] + CellsText(cells[1..], sep))
  }

  function TableText(rows: Table, sep: char): string {
    if rows == [] then "" else CellsText(rows[0], sep) + ("\n" + TableText(rows[1..], sep))
  }

  /** `csvQuote`. */
  method CsvQuote(field: string, sep: char) returns (out: string)
    ensures out == Quote(field, sep)
  {
    if !(sep in field || '"' in field || '\n' in field || '\r' in field) { return field; }
    out := "\"";
    for i := 0 to |field|
      invariant out + Doubled(field[i..]) == "\"" + Doubled(field)
    {
      ghost var before := out;
      if field[i] == '"' { out := out + "\"\""; } else { out := out + [field[i]]; }
      assert field[i..][1..] == field[i + 1..];
      assert out + Doubled(field[i + 1..]) == before + Doubled(field[i..]);
    }
    assert field[|field|..] == "" && Doubled("") == "" && out + "" == out;
    assert out + "\"" == "\"" + (Doubled(field) + "\"");
    out := out + "\"";
  }

  /** The row loop of `write_csv`. */
  method WriteCsv(rows: Table, sep: char) returns (out: string)
    ensures out == TableText(rows, sep)
  {
    hide CellsText;
    out := "";
    for r := 0 to |rows|
      invariant out + TableText(rows[r..], sep) == TableText(rows, sep)
    {
      var text := WriteRow(rows[r], sep);
      assert rows[r..][1..] == rows[r + 1..];
      assert out + TableText(rows[r..], sep) == out + text + "\n" + TableText(rows[r + 1..], sep);
      out := out + text + "\n";
    }
    assert rows[|rows|..] == [];
  }

  method WriteRow(cells: Row, sep: char) returns (out: string)
    ensures out == CellsText(cells, sep)
  {
    hide Quote, CellsText, Behind;
    out := "";
    for i := 0 to |cells|
      invariant i == 0 ==> out == ""
      invariant i > 0 ==> out + Behind(cells, i, sep) == CellsText(cells, sep)
    {
      var field := CsvQuote(cells[i], sep);
      CellStep(cells, i, sep);
      assert i > 0 ==>
        out + ([sep] + (field + Behind(cells, i + 1, sep))) == out + [sep] + field + Behind(cells, i + 1, sep);
      if i > 0 { out := out + [sep]; }
      assert out == "" ==> out + field == field;
      out := out + field;
    }
    EndOfRow(cells, sep);
    assert out + "" == out;
  }

  /** What follows the first `i` fields. */
  function Behind(cells: Row, i: nat, sep: char): string
    requires i <= |cells|
  {
    if i < |cells| then [sep] + CellsText(cells[i..], sep) else ""
  }

  lemma CellStep(cells: Row, i: nat, sep: char)
    requires i < |cells|
    ensures CellsText(cells[i..], sep) == Quote(cells[i], sep) + Behind(cells, i + 1, sep)
    ensures i == 0 ==> CellsText(cells, sep) == CellsText(cells[i..], sep)
    ensures Behind(cells, i, sep) == [sep] + CellsText(cells[i..], sep)
  {
    assert cells[i..][1..] == cells[i + 1..];
    assert cells[0..] == cells;
  }

  lemma EndOfRow(cells: Row, sep: char)
    ensures Behind(cells, |cells|, sep) == "" && (cells == [] ==> CellsText(cells, sep) == "")
  {
  }

  // ---------------------------------------------------------------- reading

  datatype Reader = Reader(inQuotes: bool, cell: string, row: Row, rows: Table) {
    function PushCell(): Reader { this.(cell := "", row := row + [cell]) }
    function PushRow(): Reader { Reader(inQuotes, "", [], rows + [row + [cell]]) }
  }

  const START := Reader(false, "", [], [])

  function Plain(r: Reader, c: char, sep: char): Reader {
    if c == '"' && r.cell == "" then r.(inQuotes := true)
    else if c == sep then r.PushCell()
    else if c == '\r' then r
    else if c == '\n' then r.PushRow()
    else r.(cell := r.cell + [c])
  }

  /** What the reader makes of the text still to come. */
  function Read(text: string, sep: char, r: Reader): Table {
    if text == "" then if r.cell != "" || r.row != [] then r.PushRow().rows else r.rows
    else if !r.inQuotes then Read(text[1..], sep, Plain(r, text[0], sep))
    else if text[0] != '"' then Read(text[1..], sep, r.(cell := r.cell + [text[0]]))
    else if |text| > 1 && text[1] == '"' then Read(text[2..], sep, r.(cell := r.cell + "\""))
    else Read(text[1..], sep, r.(inQuotes := false))
  }

  /** The character loop of `read_csv`. */
  method ReadCsv(content: string, sep: char) returns (rows: Table)
    ensures rows == Read(content, sep, START)
  {
    var row: Row, cell, inQuotes := [], "", false;
    rows := [];
    var i := 0;
    while i < |content|
      invariant i <= |content|
      invariant Read(content[i..], sep, Reader(inQuotes, cell, row, rows)) == Read(content, sep, START)
    {
      var c := content[i];
      assert content[i..][1..] == content[i + 1..];
      if inQuotes {
        if c == '"' {
          if i + 1 < |content| && content[i + 1] == '"' {
            assert content[i..][2..] == content[i + 2..];
            cell := cell + "\"";
            i := i + 2;
            continue;
          }
          inQuotes := false;
          i := i + 1;
          continue;
        }
        cell := cell + [c];
        i := i + 1;
        continue;
      }
      if c == '"' && cell == "" { inQuotes := true; i := i + 1; continue; }
      if c == sep { row, cell := row + [cell], ""; i := i + 1; continue; }
      if c == '\r' { i := i + 1; continue; }
      if c == '\n' { rows, row, cell := rows + [row + [cell]], [], ""; i := i + 1; continue; }
      cell := cell + [c];
      i := i + 1;
    }
    if cell != "" || row != [] { rows := rows + [row + [cell]]; }
  }

  // ---------------------------------------------------------------- one field

  lemma Inside(c: char, more: string, sep: char, r: Reader)
    requires r.inQuotes
    ensures Read(Written(c) + more, sep, r) == Read(more, sep, r.(cell := r.cell + [c]))
  {
    assert (Written(c) + more)[|Written(c)|..] == more;
  }

  lemma Closes(rest: string, sep: char, r: Reader)
    requires r.inQuotes && (rest == "" || rest[0] != '"')
    ensures Read("\"" + rest, sep, r) == Read(rest, sep, r.(inQuotes := false))
  {
    assert ("\"" + rest)[1..] == rest;
  }

  lemma {:induction false} QuotedReads(s: string, rest: string, sep: char, r: Reader)
    requires r.inQuotes && (rest == "" || rest[0] != '"')
    ensures Read(Doubled(s) + ("\"" + rest), sep, r) == Read(rest, sep, r.(inQuotes := false, cell := r.cell + s))
    decreases |s|
  {
    hide Read;
    if s == "" {
      assert r.cell + s == r.cell && Doubled(s) + ("\"" + rest) == "\"" + rest;
      Closes(rest, sep, r);
    } else {
      var more := Doubled(s[1..]) + ("\"" + rest);
      assert Doubled(s) + ("\"" + rest) == Written(s[0]) + more;
      Inside(s[0], more, sep, r);
      QuotedReads(s[1..], rest, sep, r.(cell := r.cell + [s[0]]));
      assert r.cell + [s[0]] + s[1..] == r.cell + s;
    }
  }

  lemma {:induction false} PlainReads(s: string, rest: string, sep: char, r: Reader)
    requires !r.inQuotes && !NeedsQuotes(s, sep)
    ensures Read(s + rest, sep, r) == Read(rest, sep, r.(cell := r.cell + s))
    decreases |s|
  {
    if s == "" {
      assert s + rest == rest && r.cell + s == r.cell;
    } else {
      assert (s + rest)[1..] == s[1..] + rest;
      PlainReads(s[1..], rest, sep, r.(cell := r.cell + [s[0]]));
      assert r.cell + [s[0]] + s[1..] == r.cell + s;
    }
  }

  lemma Opens(inside: string, sep: char, r: Reader)
    requires !r.inQuotes && r.cell == ""
    ensures Read("\"" + inside, sep, r) == Read(inside, sep, r.(inQuotes := true))
  {
    assert ("\"" + inside)[1..] == inside;
  }

  /** A field comes back, unless it is quoted and a quote follows. */
  lemma FieldReads(f: string, rest: string, sep: char, r: Reader)
    requires !r.inQuotes && r.cell == "" && (NeedsQuotes(f, sep) ==> rest == "" || rest[0] != '"')
    ensures Read(Quote(f, sep) + rest, sep, r) == Read(rest, sep, r.(cell := f))
  {
    hide NeedsQuotes;
    if NeedsQuotes(f, sep) {
      var inside := Doubled(f) + ("\"" + rest);
      assert Quote(f, sep) + rest == "\"" + inside;
      Opens(inside, sep, r);
      QuotedReads(f, rest, sep, r.(inQuotes := true));
    } else {
      PlainReads(f, rest, sep, r);
    }
    assert "" + f == f;
  }

  /** If a quote follows a quoted field, the reader takes the two for one quote and stays inside. */
  lemma {:induction false} QuoteAfterQuote(s: string, rest: string, sep: char, r: Reader)
    requires r.inQuotes
    ensures Read(Doubled(s) + ("\"\"" + rest), sep, r) == Read(rest, sep, r.(cell := r.cell + s + "\""))
    decreases |s|
  {
    hide Read;
    if s == "" {
      assert r.cell + s == r.cell && Doubled(s) + ("\"\"" + rest) == "\"\"" + rest;
      assert Written('"') == "\"\"";
      Inside('"', rest, sep, r);
    } else {
      var more := Doubled(s[1..]) + ("\"\"" + rest);
      assert Doubled(s) + ("\"\"" + rest) == Written(s[0]) + more;
      Inside(s[0], more, sep, r);
      QuoteAfterQuote(s[1..], rest, sep, r.(cell := r.cell + [s[0]]));
      assert r.cell + [s[0]] + s[1..] == r.cell + s;
    }
  }

  // ---------------------------------------------------------------- rows

  /** A row that comes back: not empty, and if the separator is the quote, every field before the last
      is non-empty and needs no quotes. */
  predicate Survives(cells: Row, sep: char) {
    cells != [] && (sep == '"' ==> forall i :: 0 <= i < |cells| - 1 ==> cells[i] != "" && !Special(cells[i]))
  }

  /** How a line may end: as the writer ends it, or with a carriage return before. */
  predicate LineEnd(end: string, sep: char) { sep != '\n' && (end == "\n" || (end == "\r\n" && sep != '\r')) }

  lemma {:induction false} RowReads(cells: Row, end: string, rest: string, sep: char, r: Reader)
    requires LineEnd(end, sep) && !r.inQuotes && r.cell == "" && Survives(cells, sep)
    ensures Read(CellsText(cells, sep) + (end + rest), sep, r)
         == Read(rest, sep, Reader(false, "", [], r.rows + [r.row + cells]))
    decreases |cells|
  {
    hide NeedsQuotes, Quote;
    var text := CellsText(cells, sep) + (end + rest);
    var f := cells[0];
    if |cells| == 1 {
      FieldReads(f, end + rest, sep, r);
      EndReads(end, rest, sep, r.(cell := f));
      assert cells == [f];
    } else {
      var more := CellsText(cells[1..], sep) + (end + rest);
      assert text == Quote(f, sep) + ([sep] + more);
      assert sep == '"' ==> !NeedsQuotes(f, sep) by { PlainForQuote(f); }
      FieldReads(f, [sep] + more, sep, r);
      SeparatorReads(more, sep, r.(cell := f));
      RowReads(cells[1..], end, rest, sep, r.(row := r.row + [f]));
      assert r.row + [f] + cells[1..] == r.row + cells;
    }
  }

  lemma PlainForQuote(f: string)
    ensures NeedsQuotes(f, '"') == Special(f)
  {
  }

  lemma NewlineReads(rest: string, sep: char, r: Reader)
    requires sep != '\n' && !r.inQuotes
    ensures Read("\n" + rest, sep, r) == Read(rest, sep, r.PushRow())
  {
    assert ("\n" + rest)[1..] == rest;
  }

  lemma EndReads(end: string, rest: string, sep: char, r: Reader)
    requires LineEnd(end, sep) && !r.inQuotes
    ensures Read(end + rest, sep, r) == Read(rest, sep, r.PushRow())
  {
    NewlineReads(rest, sep, r);
    if end == "\r\n" {
      assert (end + rest)[1..] == "\n" + rest;
      assert Plain(r, '\r', sep) == r;
    }
  }

  lemma SeparatorReads(rest: string, sep: char, r: Reader)
    requires !r.inQuotes && (sep == '"' ==> r.cell != "")
    ensures Read([sep] + rest, sep, r) == Read(rest, sep, r.PushCell())
  {
    assert ([sep] + rest)[1..] == rest;
  }

  /** Written as a row with one empty field. */
  function Filled(cells: Row): Row { if cells == [] then [""] else cells }

  lemma EmptyRowReads(rest: string, sep: char, r: Reader)
    requires sep != '\n' && !r.inQuotes
    ensures Read(CellsText([], sep) + ("\n" + rest), sep, r) == Read(rest, sep, r.PushRow())
  {
    NewlineReads(rest, sep, r);
    assert "" + ("\n" + rest) == "\n" + rest;
  }

  // ---------------------------------------------------------------- what is read stays read

  ghost predicate Kept(out: Table, r: Reader) {
    && |r.rows| <= |out| && out[..|r.rows|] == r.rows
    && (r.row != [] || r.cell != "" ==>
         && |r.rows| < |out| && |r.row| < |out[|r.rows|]| && out[|r.rows|][..|r.row|] == r.row
         && |r.cell| <= |out[|r.rows|][|r.row|]| && out[|r.rows|][|r.row|][..|r.cell|] == r.cell)
  }

  lemma {:induction false} StaysRead(text: string, sep: char, r: Reader)
    ensures Kept(Read(text, sep, r), r)
    decreases |text|
  {
    var out := Read(text, sep, r);
    if text == "" {
    } else if !r.inQuotes {
      var q := Plain(r, text[0], sep);
      StaysRead(text[1..], sep, q);
      PlainKeeps(out, r, text[0], sep);
    } else if text[0] != '"' {
      StaysRead(text[1..], sep, r.(cell := r.cell + [text[0]]));
      LongerCell(out, r, [text[0]]);
    } else if |text| > 1 && text[1] == '"' {
      StaysRead(text[2..], sep, r.(cell := r.cell + "\""));
      LongerCell(out, r, "\"");
    } else {
      StaysRead(text[1..], sep, r.(inQuotes := false));
    }
  }

  lemma LongerCell(out: Table, r: Reader, more: string)
    requires more != "" && Kept(out, r.(cell := r.cell + more))
    ensures Kept(out, r)
  {
    var cell := r.cell + more;
    assert cell != "" && cell[..|r.cell|] == r.cell;
    assert out[|r.rows|][|r.row|][..|cell|][..|r.cell|] == out[|r.rows|][|r.row|][..|r.cell|];
  }

  lemma PlainKeeps(out: Table, r: Reader, c: char, sep: char)
    requires Kept(out, Plain(r, c, sep))
    ensures Kept(out, r)
  {
    var q := Plain(r, c, sep);
    if c == '"' && r.cell == "" {
    } else if c == sep {
      assert q.row[..|r.row|] == r.row && q.row[|r.row|] == r.cell;
      assert out[|r.rows|][..|q.row|][..|r.row|] == out[|r.rows|][..|r.row|];
      assert out[|r.rows|][..|q.row|][|r.row|] == out[|r.rows|][|r.row|];
    } else if c == '\r' {
    } else if c == '\n' {
      assert q.rows[..|r.rows|] == r.rows && q.rows[|r.rows|] == r.row + [r.cell];
      assert out[..|q.rows|][..|r.rows|] == out[..|r.rows|] && out[..|q.rows|][|r.rows|] == out[|r.rows|];
    } else {
      LongerCell(out, r, [c]);
    }
  }

  // ---------------------------------------------------------------- the quote as separator

  predicate NoGaps(cells: Row) { forall i :: 0 <= i < |cells| - 1 ==> cells[i] != "" }

  ghost predicate WithoutGaps(rows: Table) { forall j :: 0 <= j < |rows| ==> NoGaps(rows[j]) }

  /** With the quote as separator an empty field can only be read at the end of a row. */
  lemma {:induction false} GapsAreNotRead(text: string, r: Reader)
    requires (forall i :: 0 <= i < |r.row| ==> r.row[i] != "") && WithoutGaps(r.rows)
    ensures WithoutGaps(Read(text, '"', r))
    decreases |text|
  {
    if text == "" {
    } else if !r.inQuotes {
      var q := Plain(r, text[0], '"');
      assert WithoutGaps(q.rows);
      GapsAreNotRead(text[1..], q);
      assert Read(text, '"', r) == Read(text[1..], '"', q);
    } else if text[0] != '"' {
      GapsAreNotRead(text[1..], r.(cell := r.cell + [text[0]]));
    } else if |text| > 1 && text[1] == '"' {
      GapsAreNotRead(text[2..], r.(cell := r.cell + "\""));
    } else {
      GapsAreNotRead(text[1..], r.(inQuotes := false));
    }
  }

  /** A quoted field before the separator `"` swallows it. */
  lemma {:induction false} QuotedFieldIsLost(cells: Row, rest: string, r: Reader)
    requires !r.inQuotes && r.cell == "" && NoGaps(cells) && cells != [] && !Survives(cells, '"')
    ensures RowDiffers(Read(CellsText(cells, '"') + ("\n" + rest), '"', r), r, cells)
    decreases |cells|
  {
    hide Read, Quote, NeedsQuotes, Special, RowDiffers;
    var f := cells[0];
    assert |cells| > 1;
    var more := CellsText(cells[1..], '"') + ("\n" + rest);
    assert CellsText(cells, '"') + ("\n" + rest) == Quote(f, '"') + ("\"" + more);
    if Special(f) {
      Swallowed(f, more, r);
      StaysRead(more, '"', r.(inQuotes := true, cell := f + "\""));
      LongerDiffers(Read(more, '"', r.(inQuotes := true, cell := f + "\"")), r, cells);
    } else {
      PlainForQuote(f);
      FieldReads(f, "\"" + more, '"', r);
      SeparatorReads(more, '"', r.(cell := f));
      QuotedFieldIsLost(cells[1..], rest, r.(row := r.row + [f]));
      SameDifference(Read(more, '"', r.(row := r.row + [f])), r, cells);
    }
  }

  /** The row under way does not come out as `cells` behind what it already holds. */
  predicate RowDiffers(out: Table, r: Reader, cells: Row) {
    |r.rows| < |out| ==> out[|r.rows|] != r.row + cells
  }

  lemma LongerDiffers(out: Table, r: Reader, cells: Row)
    requires cells != [] && Kept(out, r.(cell := cells[0] + "\""))
    ensures RowDiffers(out, r, cells)
  {
    assert (r.row + cells)[|r.row|] == cells[0];
  }

  lemma SameDifference(out: Table, r: Reader, cells: Row)
    requires cells != [] && RowDiffers(out, r.(row := r.row + [cells[0]]), cells[1..])
    ensures RowDiffers(out, r, cells)
  {
    assert r.row + [cells[0]] + cells[1..] == r.row + cells;
  }

  lemma Swallowed(f: string, more: string, r: Reader)
    requires !r.inQuotes && r.cell == "" && Special(f)
    ensures Read(Quote(f, '"') + ("\"" + more), '"', r) == Read(more, '"', r.(inQuotes := true, cell := f + "\""))
  {
    hide Doubled;
    var inside := Doubled(f) + ("\"\"" + more);
    assert Quote(f, '"') + ("\"" + more) == "\"" + inside;
    Opens(inside, '"', r);
    QuoteAfterQuote(f, more, '"', r.(inQuotes := true));
    assert "" + f + "\"" == f + "\"";
  }

  // ---------------------------------------------------------------- tables

  ghost predicate AllSurvive(rows: Table, sep: char) { forall j :: 0 <= j < |rows| ==> Survives(rows[j], sep) }

  lemma {:induction false} TableReads(rows: Table, sep: char, done: Table)
    requires sep != '\n' && AllSurvive(rows, sep)
    ensures Read(TableText(rows, sep), sep, Reader(false, "", [], done)) == done + rows
    decreases |rows|
  {
    hide CellsText, Survives;
    if rows == [] {
      assert done + rows == done;
    } else {
      var r := Reader(false, "", [], done);
      RowReads(rows[0], "\n", TableText(rows[1..], sep), sep, r);
      assert [] + rows[0] == rows[0];
      TableReads(rows[1..], sep, done + [rows[0]]);
      assert done + [rows[0]] + rows[1..] == done + rows;
    }
  }

  lemma {:induction false} TableIsLost(rows: Table, sep: char, done: Table)
    requires sep != '\n' && !AllSurvive(rows, sep)
    requires sep == '"' ==> WithoutGaps(done)
    ensures Read(TableText(rows, sep), sep, Reader(false, "", [], done)) != done + rows
    decreases |rows|
  {
    hide Read, CellsText;
    var r := Reader(false, "", [], done);
    var text, rest := TableText(rows, sep), TableText(rows[1..], sep);
    var out := Read(text, sep, r);
    var row := rows[0];
    if Survives(row, sep) {
      RowReads(row, "\n", rest, sep, r);
      assert [] + row == row;
      TableIsLost(rows[1..], sep, done + [row]);
      assert done + [row] + rows[1..] == done + rows;
    } else {
      assert (done + rows)[|done|] == row;
      if row == [] {
        EmptyRowReads(rest, sep, r);
        StaysRead(rest, sep, r.PushRow());
        assert out[..|done| + 1][|done|] == [""];
      } else if !NoGaps(row) {
        GapsAreNotRead(text, r);
      } else {
        QuotedFieldIsLost(row, rest, r);
        assert [] + row == row;
      }
    }
  }

  // ---------------------------------------------------------------- other line ends

  /** A table as section 2 of RFC 4180 ends its lines. */
  function CrLfText(rows: Table, sep: char): string {
    if rows == [] then "" else CellsText(rows[0], sep) + ("\r\n" + CrLfText(rows[1..], sep))
  }

  /** It is read like one that the writer wrote. */
  lemma {:induction false} CrLfReads(rows: Table, sep: char, done: Table)
    requires sep != '\n' && sep != '\r' && AllSurvive(rows, sep)
    ensures Read(CrLfText(rows, sep), sep, Reader(false, "", [], done)) == done + rows
    decreases |rows|
  {
    hide CellsText, Survives;
    if rows == [] {
      assert done + rows == done;
    } else {
      var r := Reader(false, "", [], done);
      RowReads(rows[0], "\r\n", CrLfText(rows[1..], sep), sep, r);
      assert [] + rows[0] == rows[0];
      CrLfReads(rows[1..], sep, done + [rows[0]]);
      assert done + [rows[0]] + rows[1..] == done + rows;
    }
  }

  /** A last line without an end is read too, unless it is empty. */
  lemma LastLineReads(f: string, sep: char, done: Table)
    requires f != ""
    ensures Read(Quote(f, sep), sep, Reader(false, "", [], done)) == done + [[f]]
  {
    hide NeedsQuotes;
    var r := Reader(false, "", [], done);
    FieldReads(f, "", sep, r);
    assert Quote(f, sep) + "" == Quote(f, sep) && [] + [f] == [f];
  }

  /** A quote inside a field that has begun without one is itself, and what stands behind a closing quote
      belongs to the field. */
  lemma LaterQuoteReads(before: string, after: string, rest: string, sep: char, r: Reader)
    requires !r.inQuotes && r.cell == "" && sep != '"' && before != ""
    requires !NeedsQuotes(before, sep) && !NeedsQuotes(after, sep)
    ensures Read(before + ("\"" + (after + rest)), sep, r) == Read(rest, sep, r.(cell := before + "\"" + after))
    ensures after != "" ==>
      Read("\"" + (before + ("\"" + (after + rest))), sep, r) == Read(rest, sep, r.(cell := before + after))
  {
    hide Read, NeedsQuotes;
    PlainReads(before, "\"" + (after + rest), sep, r);
    QuoteStays(after + rest, sep, r.(cell := before));
    PlainReads(after, rest, sep, r.(cell := before + "\""));
    if after != "" {
      Opens(before + ("\"" + (after + rest)), sep, r);
      PlainInQuotes(before, sep);
      AfterQuote(after, rest, sep);
      QuotedReads(before, after + rest, sep, r.(inQuotes := true));
      PlainReads(after, rest, sep, r.(cell := before));
      assert "" + before == before;
    }
    assert "" + before == before;
  }

  lemma QuoteStays(rest: string, sep: char, r: Reader)
    requires !r.inQuotes && r.cell != "" && sep != '"'
    ensures Read("\"" + rest, sep, r) == Read(rest, sep, r.(cell := r.cell + "\""))
  {
    assert ("\"" + rest)[1..] == rest;
  }

  lemma {:induction false} PlainInQuotes(s: string, sep: char)
    requires !NeedsQuotes(s, sep)
    ensures Doubled(s) == s
    decreases |s|
  {
    if s != "" {
      assert s[0] in s;
      PlainInQuotes(s[1..], sep);
    }
  }

  lemma AfterQuote(after: string, rest: string, sep: char)
    requires after != "" && !NeedsQuotes(after, sep)
    ensures (after + rest)[0] != '"'
  {
    assert after[0] in after;
  }

  // ---------------------------------------------------------------- the newline as separator

  function AllCells(rows: Table): Row { if rows == [] then [] else Filled(rows[0]) + AllCells(rows[1..]) }

  /** The separator is looked at before the end of a row: with a newline all rows run together. */
  lemma {:induction false} NewlineRunsTogether(rows: Table, row: Row)
    ensures Read(TableText(rows, '\n'), '\n', Reader(false, "", row, []))
         == if rows == [] && row == [] then [] else [row + AllCells(rows) + [""]]
    decreases |rows|
  {
    hide CellsText;
    if rows == [] {
      assert row + [] == row;
    } else {
      CellsRunTogether(rows[0], TableText(rows[1..], '\n'), row);
      NewlineRunsTogether(rows[1..], row + Filled(rows[0]));
      assert row + Filled(rows[0]) + AllCells(rows[1..]) == row + AllCells(rows);
    }
  }

  lemma {:induction false} CellsRunTogether(cells: Row, rest: string, row: Row)
    ensures Read(CellsText(cells, '\n') + ("\n" + rest), '\n', Reader(false, "", row, []))
         == Read(rest, '\n', Reader(false, "", row + Filled(cells), []))
    decreases |cells|
  {
    hide Read, Quote;
    var r := Reader(false, "", row, []);
    if cells == [] {
      SeparatorReads(rest, '\n', r);
      assert "" + ("\n" + rest) == ['\n'] + rest;
    } else {
      var f := cells[0];
      var more := if |cells| == 1 then rest else CellsText(cells[1..], '\n') + ("\n" + rest);
      assert CellsText(cells, '\n') + ("\n" + rest) == Quote(f, '\n') + (['\n'] + more);
      FieldReads(f, ['\n'] + more, '\n', r);
      SeparatorReads(more, '\n', r.(cell := f));
      if |cells| == 1 {
        assert cells == [f];
      } else {
        CellsRunTogether(cells[1..], rest, row + [f]);
        assert row + [f] + cells[1..] == row + cells;
      }
    }
  }

  // ---------------------------------------------------------------- exactly which tables come back

  /** A table comes back if and only if the separator is no newline (or there are no rows), no row is
      empty, and, should the separator be the quote, no field before the last of its row is empty or
      quoted. */
  lemma ComesBack(rows: Table, sep: char)
    ensures Read(TableText(rows, sep), sep, START) == rows <==>
            AllSurvive(rows, sep) && (sep == '\n' ==> rows == [])
  {
    hide Survives;
    assert [] + rows == rows;
    if sep == '\n' {
      NewlineRunsTogether(rows, []);
      if |rows| == 1 { assert AllCells(rows[1..]) == []; }
    } else if AllSurvive(rows, sep) {
      TableReads(rows, sep, []);
    } else {
      TableIsLost(rows, sep, []);
    }
  }

  /** For the usual separators: exactly the tables without empty rows, and an empty row comes back as
      one empty field. */
  lemma UsualSeparator(rows: Table, sep: char)
    requires sep != '"' && sep != '\n'
    ensures Read(TableText(rows, sep), sep, START) == rows <==> [] !in rows
    ensures Read(TableText(rows, sep), sep, START) == seq(|rows|, j requires 0 <= j < |rows| => Filled(rows[j]))
  {
    var full := seq(|rows|, j requires 0 <= j < |rows| => Filled(rows[j]));
    ComesBack(rows, sep);
    ComesBack(full, sep);
    SameText(rows, full, sep);
  }

  lemma {:induction false} SameText(rows: Table, full: Table, sep: char)
    requires |rows| == |full| && forall j :: 0 <= j < |rows| ==> full[j] == Filled(rows[j])
    ensures TableText(rows, sep) == TableText(full, sep)
    decreases |rows|
  {
    hide NeedsQuotes;
    if rows != [] {
      SameText(rows[1..], full[1..], sep);
      assert rows[0] == [] ==> CellsText([""], sep) == Quote("", sep);
      EmptyIsPlain(sep);
    }
  }

  lemma EmptyIsPlain(sep: char)
    ensures !NeedsQuotes("", sep)
  {
  }
}
