/**
 CSV export and record splitting (lib/csv.ts): what the writer quotes the splitter reads
 back, whatever quotes, separators and line breaks the cells contain (section 2 of RFC 4180).
 */
module Csv {
  datatype Scan = Scan(out: seq<seq<string>>, row: seq<string>, cell: string, quoted: bool)

  const QUOTE := '\"'

  function EndRow(st: Scan): Scan {
    Scan(st.out + [st.row + [st.cell]], [], "", st.quoted)
  }

  /** The splitter's state after reading `text` from the state `st`. */
  function Read(text: string, sep: char, st: Scan): Scan
    decreases |text|
  {
    if text == "" then st
    else
      var ch := text[0];
      var doubled := |text| > 1 && text[1] == QUOTE;
      if st.quoted then
        if ch != QUOTE then Read(text[1..], sep, st.(cell := st.cell + [ch]))
        else if doubled then Read(text[2..], sep, st.(cell := st.cell + [QUOTE]))
        else Read(text[1..], sep, st.(quoted := false))
      else if ch == QUOTE then Read(text[1..], sep, st.(quoted := true))
      else if ch == sep then Read(text[1..], sep, st.(row := st.row + [st.cell], cell := ""))
      else if ch == '\r' && |text| > 1 && text[1] == '\n' then Read(text[2..], sep, EndRow(st))
      else if ch == '\n' || ch == '\r' then Read(text[1..], sep, EndRow(st))
      else Read(text[1..], sep, st.(cell := st.cell + [ch]))
  }

  function Finish(st: Scan): seq<seq<string>> {
    if |st.cell| > 0 || |st.row| > 0 then st.out + [st.row + [st.cell]] else st.out
  }

  function Records(text: string, sep: char): seq<seq<string>> {
    Finish(Read(text, sep, Scan([], [], "", false)))
  }

  /** `splitRecords`: one pass over the characters. */
  method SplitRecords(text: string, sep: char) returns (out: seq<seq<string>>)
    ensures out == Records(text, sep)
  {
    out := [];
    var row: seq<string>, cell, quoted := [], "", false;
    var i := 0;
    while i < |text|
      invariant 0 <= i <= |text|
      invariant Read(text, sep, Scan([], [], "", false)) == Read(text[i..], sep, Scan(out, row, cell, quoted))
    {
      var ch := text[i];
      assert text[i..][1..] == text[i + 1..];
      assert i + 1 < |text| ==> text[i..][2..] == text[i + 2..];
      if quoted {
        if ch == QUOTE {
          if i + 1 < |text| && text[i + 1] == QUOTE {
            cell := cell + [QUOTE];
            i := i + 1;
          } else {
            quoted := false;
          }
        } else {
          cell := cell + [ch];
        }
      } else if ch == QUOTE {
        quoted := true;
      } else if ch == sep {
        row := row + [cell];
        cell := "";
      } else if ch == '\n' || ch == '\r' {
        if ch == '\r' && i + 1 < |text| && text[i + 1] == '\n' {
          i := i + 1;
        }
        out := out + [row + [cell]];
        row := [];
        cell := "";
      } else {
        cell := cell + [ch];
      }
      i := i + 1;
    }
    if |cell| > 0 || |row| > 0 {
      out := out + [row + [cell]];
    }
  }

  // ----- writing

  predicate StartsFormula(s: string) {
    |s| > 0 && s[0] in ['=', '+', '-', '@', '\t', '\r']
  }

  /** A leading apostrophe keeps a spreadsheet from evaluating the cell. */
  function Defuse(s: string): string {
    if StartsFormula(s) then "'" + s else s
  }

  predicate Special(ch: char) {
    ch in [QUOTE, ',', '\n', '\r', ';']
  }

  predicate Plain(s: string) {
    forall i :: 0 <= i < |s| ==> !Special(s[i])
  }

  /** Read back as it is when written bare. */
  predicate Clean(s: string, sep: char) {
    forall i :: 0 <= i < |s| ==> s[i] != QUOTE && s[i] != sep && s[i] != '\n' && s[i] != '\r'
  }

  function Escape(s: string): string {
    if s == "" then ""
    else (if s[0] == QUOTE then [QUOTE, QUOTE] else [s[0]]) + Escape(s[1..])
  }

  function CsvCell(s: string): string {
    var safe := Defuse(s);
    if Plain(safe) then safe else [QUOTE] + Escape(safe) + [QUOTE]
  }

  function JoinCells(cells: seq<string>): string {
    if |cells| == 0 then ""
    else if |cells| == 1 then cells[0]
    else cells[0] + ";" + JoinCells(cells[1..])
  }

  function MapCells(cells: seq<string>): seq<string> {
    seq(|cells|, i requires 0 <= i < |cells| => CsvCell(cells[i]))
  }

  function Defused(cells: seq<string>): seq<string> {
    seq(|cells|, i requires 0 <= i < |cells| => Defuse(cells[i]))
  }

  /** The rows as the export writes them, each ended by CRLF. */
  function RowsText(rows: seq<seq<string>>): string {
    if |rows| == 0 then "" else JoinCells(MapCells(rows[0])) + "\r\n" + RowsText(rows[1..])
  }

  /** `toCsv` after its byte order mark; the header is written as it is. */
  function CsvText(header: seq<string>, rows: seq<seq<string>>): string {
    JoinCells(header) + "\r\n" + RowsText(rows)
  }

  // ----- reading back what was written

  lemma {:induction false} ReadPlain(s: string, rest: string, sep: char, st: Scan)
    requires Clean(s, sep) && !st.quoted
    ensures Read(s + rest, sep, st) == Read(rest, sep, st.(cell := st.cell + s))
  {
    if s == "" {
      assert s + rest == rest && st.cell + s == st.cell;
    } else {
      assert (s + rest)[1..] == s[1..] + rest;
      ReadPlain(s[1..], rest, sep, st.(cell := st.cell + [s[0]]));
      assert st.cell + [s[0]] + s[1..] == st.cell + s;
    }
  }

  /** Inside quotes doubled quotes come back single, and everything else as it is. */
  lemma {:induction false} ReadEscaped(s: string, rest: string, sep: char, st: Scan)
    requires st.quoted && (rest == "" || rest[0] != QUOTE)
    ensures Read(Escape(s) + [QUOTE] + rest, sep, st) == Read(rest, sep, st.(cell := st.cell + s, quoted := false))
  {
    var text := Escape(s) + [QUOTE] + rest;
    if s == "" {
      assert text[1..] == rest && st.cell + s == st.cell;
    } else {
      var tail := Escape(s[1..]) + [QUOTE] + rest;
      if s[0] == QUOTE {
        assert text == [QUOTE, QUOTE] + tail;
        assert text[2..] == tail;
      } else {
        assert text == [s[0]] + tail;
        assert text[1..] == tail;
      }
      ReadEscaped(s[1..], rest, sep, st.(cell := st.cell + [s[0]]));
      assert st.cell + [s[0]] + s[1..] == st.cell + s;
    }
  }

  lemma ReadCell(s: string, rest: string, sep: char, st: Scan)
    requires (sep == ';' || sep == ',') && !st.quoted && (rest == "" || rest[0] != QUOTE)
    ensures Read(CsvCell(s) + rest, sep, st) == Read(rest, sep, st.(cell := st.cell + Defuse(s)))
  {
    hide Read, Escape, Defuse;
    var safe := Defuse(s);
    if Plain(safe) {
      ReadPlain(safe, rest, sep, st);
    } else {
      var inside := Escape(safe) + [QUOTE] + rest;
      assert CsvCell(s) + rest == [QUOTE] + inside;
      ReadOpening(inside, sep, st);
      ReadEscaped(safe, rest, sep, st.(quoted := true));
    }
  }

  lemma ReadOpening(rest: string, sep: char, st: Scan)
    requires !st.quoted && sep != QUOTE
    ensures Read([QUOTE] + rest, sep, st) == Read(rest, sep, st.(quoted := true))
  {
    assert ([QUOTE] + rest)[1..] == rest;
  }

  /** One written row reads back as its cells. */
  lemma {:induction false} ReadRow(cells: seq<string>, rest: string, st: Scan)
    requires |cells| > 0 && !st.quoted && st.cell == ""
    ensures Read(JoinCells(MapCells(cells)) + "\r\n" + rest, ';', st)
         == Read(rest, ';', Scan(st.out + [st.row + Defused(cells)], [], "", false))
  {
    hide Read, CsvCell, Defuse;
    var tail := "\r\n" + rest;
    if |cells| == 1 {
      assert JoinCells(MapCells(cells)) + "\r\n" + rest == CsvCell(cells[0]) + tail;
      ReadCell(cells[0], tail, ';', st);
      ReadBreak(rest, st.(cell := Defuse(cells[0])));
      assert "" + Defuse(cells[0]) == Defuse(cells[0]);
      assert Defused(cells) == [Defuse(cells[0])];
    } else {
      var more := cells[1..];
      assert MapCells(cells)[1..] == MapCells(more);
      var after := JoinCells(MapCells(more)) + "\r\n" + rest;
      assert JoinCells(MapCells(cells)) + "\r\n" + rest == CsvCell(cells[0]) + (";" + after);
      ReadCell(cells[0], ";" + after, ';', st);
      assert "" + Defuse(cells[0]) == Defuse(cells[0]);
      var st' := st.(cell := Defuse(cells[0]));
      ReadSep(after, st');
      ReadRow(more, rest, Scan(st.out, st.row + [Defuse(cells[0])], "", false));
      assert st.row + Defused(cells) == st.row + [Defuse(cells[0])] + Defused(more);
    }
  }

  lemma ReadSep(rest: string, st: Scan)
    requires !st.quoted
    ensures Read(";" + rest, ';', st) == Read(rest, ';', st.(row := st.row + [st.cell], cell := ""))
  {
    assert (";" + rest)[1..] == rest;
  }

  lemma ReadBreak(rest: string, st: Scan)
    requires !st.quoted
    ensures Read("\r\n" + rest, ';', st) == Read(rest, ';', EndRow(st))
  {
    assert ("\r\n" + rest)[2..] == rest;
  }

  /** What a written row reads back as: a row without cells looks like one empty cell. */
  function ReadBack(cells: seq<string>): seq<string> {
    if |cells| == 0 then [""] else Defused(cells)
  }

  function ReadBackAll(rows: seq<seq<string>>): seq<seq<string>> {
    seq(|rows|, i requires 0 <= i < |rows| => ReadBack(rows[i]))
  }

  lemma {:induction false} ReadRows(rows: seq<seq<string>>, out: seq<seq<string>>)
    ensures Read(RowsText(rows), ';', Scan(out, [], "", false)) == Scan(out + ReadBackAll(rows), [], "", false)
  {
    hide Read, JoinCells, MapCells, Defused, ReadBack;
    if |rows| == 0 {
      ReadNothing(';', Scan(out, [], "", false));
      assert out + ReadBackAll(rows) == out;
    } else {
      var rest := RowsText(rows[1..]);
      ReadOneRow(rows[0], rest, out);
      ReadRows(rows[1..], out + [ReadBack(rows[0])]);
      assert out + [ReadBack(rows[0])] + ReadBackAll(rows[1..]) == out + ReadBackAll(rows);
    }
  }

  lemma ReadOneRow(cells: seq<string>, rest: string, out: seq<seq<string>>)
    ensures Read(JoinCells(MapCells(cells)) + "\r\n" + rest, ';', Scan(out, [], "", false))
         == Read(rest, ';', Scan(out + [ReadBack(cells)], [], "", false))
  {
    hide Read, CsvCell, Defuse;
    var st := Scan(out, [], "", false);
    if |cells| == 0 {
      assert JoinCells(MapCells(cells)) + "\r\n" + rest == "\r\n" + rest;
      ReadBreak(rest, st);
      assert st.row + [""] == [""];
    } else {
      ReadRow(cells, rest, st);
      assert [] + Defused(cells) == Defused(cells);
    }
  }

  lemma ReadNothing(sep: char, st: Scan)
    ensures Read("", sep, st) == st
  {
  }

  /** The cells of a matrix, defused. */
  function DefusedAll(rows: seq<seq<string>>): seq<seq<string>> {
    seq(|rows|, i requires 0 <= i < |rows| => Defused(rows[i]))
  }

  /**
   The round trip: splitting the written rows gives back exactly the defused cells, whatever
   they contain, if and only if no row is empty.
   */
  lemma CsvRoundTrip(rows: seq<seq<string>>)
    ensures Records(RowsText(rows), ';') == DefusedAll(rows) <==> forall i :: 0 <= i < |rows| ==> |rows[i]| > 0
  {
    ReadRows(rows, []);
    assert [] + ReadBackAll(rows) == ReadBackAll(rows);
    assert Records(RowsText(rows), ';') == ReadBackAll(rows);
    hide Read, Records, Defuse;
    if forall i :: 0 <= i < |rows| ==> |rows[i]| > 0 {
      assert ReadBackAll(rows) == DefusedAll(rows);
    } else {
      var i :| 0 <= i < |rows| && |rows[i]| == 0;
      assert |ReadBackAll(rows)[i]| == 1 && |DefusedAll(rows)[i]| == 0;
    }
  }

  // ----- the header, which is written bare

  lemma {:induction false} ReadCleanRow(cells: seq<string>, rest: string, st: Scan)
    requires |cells| > 0 && !st.quoted && st.cell == "" && forall i :: 0 <= i < |cells| ==> Clean(cells[i], ';')
    ensures Read(JoinCells(cells) + "\r\n" + rest, ';', st)
         == Read(rest, ';', Scan(st.out + [st.row + cells], [], "", false))
  {
    hide Read;
    if |cells| == 1 {
      assert JoinCells(cells) + "\r\n" + rest == cells[0] + ("\r\n" + rest);
      ReadPlain(cells[0], "\r\n" + rest, ';', st);
      assert "" + cells[0] == cells[0];
      ReadBreak(rest, st.(cell := cells[0]));
      assert cells == [cells[0]];
    } else {
      var after := JoinCells(cells[1..]) + "\r\n" + rest;
      assert JoinCells(cells) + "\r\n" + rest == cells[0] + (";" + after);
      ReadPlain(cells[0], ";" + after, ';', st);
      assert "" + cells[0] == cells[0];
      ReadSep(after, st.(cell := cells[0]));
      ReadCleanRow(cells[1..], rest, Scan(st.out, st.row + [cells[0]], "", false));
      assert st.row + cells == st.row + [cells[0]] + cells[1..];
    }
  }

  /** A row that begins with these cells, the last of them perhaps longer. */
  predicate Continues(full: seq<string>, row: seq<string>, cell: string) {
    |full| > |row| && row <= full && cell <= full[|row|]
  }

  /** Reading on never takes back a record, a cell or a character. */
  ghost predicate Later(st: Scan, st': Scan) {
    && st.out <= st'.out
    && if |st'.out| > |st.out| then Continues(st'.out[|st.out|], st.row, st.cell)
       else if |st'.row| > |st.row| then Continues(st'.row, st.row, st.cell)
       else st'.row == st.row && st.cell <= st'.cell
  }

  lemma LaterStill(a: Scan, b: Scan, c: Scan)
    requires Later(a, b) && Later(b, c)
    ensures Later(a, c)
  {
  }

  /** One step of the reading: what is left of the text, and the state then. */
  lemma ReadStep(text: string, sep: char, st: Scan) returns (rest: string, next: Scan)
    requires text != ""
    ensures |rest| < |text| && Read(text, sep, st) == Read(rest, sep, next) && Later(st, next)
  {
    var ch := text[0];
    if st.quoted {
      if ch != QUOTE {
        rest, next := text[1..], st.(cell := st.cell + [ch]);
      } else if |text| > 1 && text[1] == QUOTE {
        rest, next := text[2..], st.(cell := st.cell + [QUOTE]);
      } else {
        rest, next := text[1..], st.(quoted := false);
      }
    } else if ch == QUOTE {
      rest, next := text[1..], st.(quoted := true);
    } else if ch == sep {
      rest, next := text[1..], st.(row := st.row + [st.cell], cell := "");
    } else if ch == '\r' && |text| > 1 && text[1] == '\n' {
      rest, next := text[2..], EndRow(st);
    } else if ch == '\n' || ch == '\r' {
      rest, next := text[1..], EndRow(st);
    } else {
      rest, next := text[1..], st.(cell := st.cell + [ch]);
    }
  }

  lemma {:induction false} ReadIsLater(text: string, sep: char, st: Scan)
    ensures Later(st, Read(text, sep, st))
    decreases |text|
  {
    if text != "" {
      hide Read, Later;
      var rest, next := ReadStep(text, sep, st);
      ReadIsLater(rest, sep, next);
      LaterStill(st, next, Read(rest, sep, next));
    }
  }

  /** The record being read continues what was read of it so far; an ended one stays. */
  lemma RecordContinues(text: string, sep: char, st: Scan)
    ensures var recs := Finish(Read(text, sep, st));
            && st.out <= recs
            && (|recs| > |st.out| ==> Continues(recs[|st.out|], st.row, st.cell))
  {
    hide Read;
    ReadIsLater(text, sep, st);
  }

  /** The first record, if there is one, does not have this cell at the end of these. */
  ghost predicate Misses(recs: seq<seq<string>>, row: seq<string>, cell: string) {
    |recs| > 0 && |recs[0]| > |row| ==> recs[0][|row|] != cell
  }

  /** A bare separator or line break ends the cell too early. */
  lemma EndsEarly(text: string, st: Scan, cell: string)
    requires !st.quoted && st.out == [] && text != "" && (text[0] == ';' || text[0] == '\n' || text[0] == '\r')
    requires |st.cell| < |cell|
    ensures Misses(Finish(Read(text, ';', st)), st.row, cell)
  {
    if text[0] == ';' {
      RecordContinues(text[1..], ';', st.(row := st.row + [st.cell], cell := ""));
    } else if text[0] == '\r' && |text| > 1 && text[1] == '\n' {
      RecordContinues(text[2..], ';', EndRow(st));
    } else {
      RecordContinues(text[1..], ';', EndRow(st));
    }
  }

  /** Another character in the place of the next one of the cell. */
  lemma GoesWrong(text: string, st: Scan, cell: string, ch: char)
    requires st.out == [] && |st.cell| < |cell| && cell[|st.cell|] != ch
    ensures Misses(Finish(Read(text, ';', st.(cell := st.cell + [ch]))), st.row, cell)
  {
    hide Read;
    RecordContinues(text, ';', st.(cell := st.cell + [ch]));
  }

  function Quotes(n: nat): string {
    seq(n, _ => QUOTE)
  }

  /**
   A bare quote cannot read back as itself: of the quotes of a cell that follow one another
   the first opens, two more are needed for each one read, and so the cell falls behind.
   */
  lemma {:induction false} FallsBehind(cell: string, n: nat, left: string, more: string, st: Scan)
    requires st.quoted && st.out == [] && n > 0 && cell == st.cell + Quotes(n) + left
    requires more != "" && more[0] != QUOTE
    ensures Misses(Finish(Read(left + more, ';', st)), st.row, cell)
    decreases |left|
  {
    hide Misses, Finish;
    var text := left + more;
    assert cell[|st.cell|] == QUOTE;
    if text[0] != QUOTE {
      GoesWrong(text[1..], st, cell, text[0]);
    } else if text[1] == QUOTE {
      assert |left| >= 2 && text[2..] == left[2..] + more;
      assert Quotes(n) + left == [QUOTE] + (Quotes(n + 1) + left[2..]);
      FallsBehind(cell, n + 1, left[2..], more, st.(cell := st.cell + [QUOTE]));
    } else {
      AfterClosing(text[1..], st.(quoted := false), cell);
    }
  }

  lemma AfterClosing(text: string, st: Scan, cell: string)
    requires !st.quoted && st.out == [] && text != "" && text[0] != QUOTE
    requires |st.cell| < |cell| && cell[|st.cell|] == QUOTE
    ensures Misses(Finish(Read(text, ';', st)), st.row, cell)
  {
    hide Misses, Finish;
    if text[0] == ';' || text[0] == '\n' || text[0] == '\r' {
      EndsEarly(text, st, cell);
    } else {
      GoesWrong(text[1..], st, cell, text[0]);
    }
  }

  /** A cell that is not clean does not read back. */
  lemma {:induction false} UncleanCell(cell: string, done: nat, more: string, st: Scan)
    requires done <= |cell| && st.cell == cell[..done] && !Clean(cell[done..], ';')
    requires !st.quoted && st.out == [] && more != "" && more[0] != QUOTE
    ensures Misses(Finish(Read(cell[done..] + more, ';', st)), st.row, cell)
    decreases |cell| - done
  {
    hide Misses, Finish;
    var text := cell[done..] + more;
    var ch := text[0];
    assert done < |cell| && ch == cell[done];
    assert text[1..] == cell[done + 1..] + more;
    if ch == QUOTE {
      assert cell == st.cell + Quotes(1) + cell[done + 1..];
      FallsBehind(cell, 1, cell[done + 1..], more, st.(quoted := true));
    } else if ch == ';' || ch == '\n' || ch == '\r' {
      EndsEarly(text, st, cell);
    } else {
      assert cell[..done + 1] == st.cell + [ch];
      UncleanCell(cell, done + 1, more, st.(cell := st.cell + [ch]));
    }
  }

  lemma {:induction false} UncleanRow(cells: seq<string>, rest: string, st: Scan)
    requires !st.quoted && st.out == [] && st.cell == "" && exists i :: 0 <= i < |cells| && !Clean(cells[i], ';')
    ensures var recs := Finish(Read(JoinCells(cells) + "\r\n" + rest, ';', st));
            |recs| > 0 ==> recs[0] != st.row + cells
  {
    hide Read, Finish;
    var more := if |cells| == 1 then "\r\n" + rest else ";" + (JoinCells(cells[1..]) + "\r\n" + rest);
    assert JoinCells(cells) + "\r\n" + rest == cells[0] + more;
    if Clean(cells[0], ';') {
      var after := JoinCells(cells[1..]) + "\r\n" + rest;
      ReadPlain(cells[0], more, ';', st);
      assert "" + cells[0] == cells[0];
      ReadSep(after, st.(cell := cells[0]));
      UncleanRow(cells[1..], rest, Scan([], st.row + [cells[0]], "", false));
      assert st.row + cells == st.row + [cells[0]] + cells[1..];
    } else {
      assert cells[0][0..] == cells[0] && cells[0][..0] == "";
      UncleanCell(cells[0], 0, more, st);
      assert (st.row + cells)[|st.row|] == cells[0];
    }
  }

  predicate HeaderOk(header: seq<string>) {
    |header| > 0 && forall i :: 0 <= i < |header| ==> Clean(header[i], ';')
  }

  /**
   A whole export reads back as its header and the defused rows if and only if no row is
   empty and the header has cells without quotes, semicolons and line breaks: it is written
   bare, and a bare cell with any of these never reads back.
   */
  lemma ExportRoundTrip(header: seq<string>, rows: seq<seq<string>>)
    ensures Records(CsvText(header, rows), ';') == [header] + DefusedAll(rows)
            <==> HeaderOk(header) && forall i :: 0 <= i < |rows| ==> |rows[i]| > 0
  {
    hide Read, Finish, JoinCells;
    var st := Scan([], [], "", false);
    if HeaderOk(header) {
      CleanExport(header, rows);
      CsvRoundTrip(rows);
      assert Records(CsvText(header, rows), ';') == [header] + Records(RowsText(rows), ';');
      assert ([header] + DefusedAll(rows))[1..] == DefusedAll(rows);
      assert ([header] + Records(RowsText(rows), ';'))[1..] == Records(RowsText(rows), ';');
    } else if |header| == 0 {
      NoHeader(rows);
    } else {
      UncleanRow(header, RowsText(rows), st);
      assert st.row + header == header;
    }
  }

  lemma CleanExport(header: seq<string>, rows: seq<seq<string>>)
    requires HeaderOk(header)
    ensures Records(CsvText(header, rows), ';') == [header] + Records(RowsText(rows), ';')
  {
    hide Read, JoinCells, RowsText, Clean;
    var st := Scan([], [], "", false);
    ReadCleanRow(header, RowsText(rows), st);
    assert st.row + header == header && st.out + [header] == [header];
    ReadRows(rows, [header]);
    ReadRows(rows, []);
    assert [] + ReadBackAll(rows) == ReadBackAll(rows);
  }

  lemma NoHeader(rows: seq<seq<string>>)
    ensures Records(CsvText([], rows), ';') != [[]] + DefusedAll(rows)
  {
    var st, rest := Scan([], [], "", false), RowsText(rows);
    assert CsvText([], rows) == "\r\n" + rest;
    ReadBreak(rest, st);
    RecordContinues(rest, ';', EndRow(st));
    assert st.row + [st.cell] == [""];
    assert EndRow(st).out[0] == [""];
  }

  // ----- what a spreadsheet gets to see

  /** A cell a spreadsheet takes for a formula, or that hides one behind a tab or a return. */
  predicate Evaluated(cell: string) {
    cell != "" &&
    (cell[0] == '=' || cell[0] == '+' || cell[0] == '-' || cell[0] == '@' || cell[0] == '\t' || cell[0] == '\r')
  }

  /**
   No cell read back from an export is a formula, and each is the original, or the original
   behind one apostrophe: the latter exactly where the original would have been evaluated.
   */
  lemma NothingEvaluated(header: seq<string>, rows: seq<seq<string>>)
    requires HeaderOk(header) && forall i :: 0 <= i < |rows| ==> |rows[i]| > 0
    ensures var recs := Records(CsvText(header, rows), ';');
            && |recs| == |rows| + 1 && recs[0] == header
            && forall i, j :: 0 <= i < |rows| && 0 <= j < |rows[i]| ==>
                 && |recs[i + 1]| == |rows[i]|
                 && !Evaluated(recs[i + 1][j])
                 && recs[i + 1][j] == if Evaluated(rows[i][j]) then "'" + rows[i][j] else rows[i][j]
  {
    hide Records, CsvText, HeaderOk;
    ExportRoundTrip(header, rows);
  }

  // ----- files of other programs

  /** A cell as a program may write it: bare or in quotes. */
  datatype Spelt = Spelt(cell: string, quoted: bool)

  /** A record with the line break behind it; the last one may lack it. */
  datatype Line = Line(row: seq<Spelt>, end: string)

  function CellText(c: Spelt): string {
    if c.quoted then [QUOTE] + Escape(c.cell) + [QUOTE] else c.cell
  }

  function RowText(row: seq<Spelt>, sep: char): string
    requires |row| > 0
  {
    if |row| == 1 then CellText(row[0]) else CellText(row[0]) + ([sep] + RowText(row[1..], sep))
  }

  function CellsOf(row: seq<Spelt>): seq<string> {
    seq(|row|, i requires 0 <= i < |row| => row[i].cell)
  }

  predicate Break(end: string) {
    end == "\n" || end == "\r" || end == "\r\n"
  }

  predicate RowSpelt(row: seq<Spelt>, sep: char) {
    |row| > 0 && forall i :: 0 <= i < |row| ==> row[i].quoted || Clean(row[i].cell, sep)
  }

  /** An empty line, which would turn a return before it into CRLF. */
  predicate Blank(line: Line) {
    line == Line([Spelt("", false)], "\n")
  }

  predicate FileSpelt(lines: seq<Line>, sep: char) {
    forall k :: 0 <= k < |lines| ==>
      && RowSpelt(lines[k].row, sep)
      && (Break(lines[k].end) || (lines[k].end == "" && k == |lines| - 1))
      && (lines[k].end == "\r" && k + 1 < |lines| ==> !Blank(lines[k + 1]))
  }

  function FileText(lines: seq<Line>, sep: char): string
    requires FileSpelt(lines, sep)
  {
    if |lines| == 0 then ""
    else RowText(lines[0].row, sep) + (lines[0].end + FileText(lines[1..], sep))
  }

  function Rows(lines: seq<Line>): seq<seq<string>> {
    seq(|lines|, k requires 0 <= k < |lines| => CellsOf(lines[k].row))
  }

  /** An empty cell alone on a last line without a break is no record. */
  predicate Trailing(line: Line) {
    line.end == "" && |line.row| == 1 && line.row[0].cell == ""
  }

  predicate Separates(sep: char) {
    sep != QUOTE && sep != '\n' && sep != '\r'
  }

  lemma ReadSpelt(c: Spelt, rest: string, sep: char, st: Scan)
    requires Separates(sep) && (c.quoted || Clean(c.cell, sep)) && !st.quoted && st.cell == ""
    requires rest == "" || rest[0] != QUOTE
    ensures Read(CellText(c) + rest, sep, st) == Read(rest, sep, st.(cell := c.cell))
  {
    hide Read, Escape;
    assert "" + c.cell == c.cell;
    if c.quoted {
      var inside := Escape(c.cell) + [QUOTE] + rest;
      assert CellText(c) + rest == [QUOTE] + inside;
      ReadOpening(inside, sep, st);
      ReadEscaped(c.cell, rest, sep, st.(quoted := true));
    } else {
      ReadPlain(c.cell, rest, sep, st);
    }
  }

  /** A record read up to the break behind it. */
  lemma {:induction false} ReadSpeltRow(row: seq<Spelt>, rest: string, sep: char, st: Scan)
    requires Separates(sep) && RowSpelt(row, sep) && !st.quoted && st.cell == ""
    requires rest == "" || (rest[0] != QUOTE && rest[0] != sep)
    ensures var n := |row| - 1;
            Read(RowText(row, sep) + rest, sep, st) ==
            Read(rest, sep, Scan(st.out, st.row + CellsOf(row[..n]), row[n].cell, false))
  {
    hide Read, CellText, Clean;
    if |row| == 1 {
      ReadSpelt(row[0], rest, sep, st);
      assert st.row + CellsOf(row[..0]) == st.row;
    } else {
      var more := row[1..];
      var after := RowText(more, sep) + rest;
      assert RowText(row, sep) + rest == CellText(row[0]) + ([sep] + after);
      ReadSpelt(row[0], [sep] + after, sep, st);
      var st' := Scan(st.out, st.row + [row[0].cell], "", false);
      ReadAnySep(after, sep, st.(cell := row[0].cell));
      ReadSpeltRow(more, rest, sep, st');
      assert st.row + CellsOf(row[..|row| - 1]) == st'.row + CellsOf(more[..|more| - 1]);
    }
  }

  lemma ReadAnySep(rest: string, sep: char, st: Scan)
    requires !st.quoted && Separates(sep)
    ensures Read([sep] + rest, sep, st) == Read(rest, sep, st.(row := st.row + [st.cell], cell := ""))
  {
    assert ([sep] + rest)[1..] == rest;
  }

  lemma ReadAnyBreak(end: string, rest: string, sep: char, st: Scan)
    requires !st.quoted && Separates(sep) && Break(end)
    requires end == "\r" && rest != "" ==> rest[0] != '\n'
    ensures Read(end + rest, sep, st) == Read(rest, sep, EndRow(st))
  {
    assert (end + rest)[|end|..] == rest;
    assert end == "\r" && rest != "" ==> (end + rest)[1] == rest[0];
    assert end == "\r\n" ==> (end + rest)[1] == '\n';
  }

  /** Only an empty line begins with a line break. */
  lemma RowBegins(row: seq<Spelt>, sep: char)
    requires Separates(sep) && RowSpelt(row, sep)
    ensures row == [Spelt("", false)] || (RowText(row, sep) != "" && RowText(row, sep)[0] != '\n')
  {
    var c := row[0];
    if c.quoted {
      assert CellText(c)[0] == QUOTE;
    } else if c.cell != "" {
      assert CellText(c)[0] == c.cell[0];
    }
  }

  lemma FileBegins(lines: seq<Line>, sep: char)
    requires Separates(sep) && FileSpelt(lines, sep) && |lines| > 0 && !Blank(lines[0])
    ensures FileText(lines, sep) == "" || FileText(lines, sep)[0] != '\n'
  {
    hide RowText, RowSpelt;
    RowBegins(lines[0].row, sep);
    if lines[0].row == [Spelt("", false)] {
      EmptyRow(sep);
      assert lines[0].end == "" ==> |lines| == 1;
    }
  }

  lemma EmptyRow(sep: char)
    ensures RowText([Spelt("", false)], sep) == ""
  {
  }

  lemma {:induction false} ReadFile(lines: seq<Line>, sep: char, out: seq<seq<string>>)
    requires Separates(sep) && FileSpelt(lines, sep)
    ensures var n := |lines|;
            Finish(Read(FileText(lines, sep), sep, Scan(out, [], "", false))) ==
            out + Rows(if n > 0 && Trailing(lines[n - 1]) then lines[..n - 1] else lines)
  {
    hide Read, RowText, RowSpelt, CellsOf, Blank;
    if |lines| == 0 {
      ReadNothing(sep, Scan(out, [], "", false));
    } else {
      var line, more := lines[0], lines[1..];
      SpeltHasCells(line.row, sep);
      assert forall k :: 0 <= k < |more| ==> more[k] == lines[k + 1];
      var rest := line.end + FileText(more, sep);
      assert line.end != "" ==> rest[0] == line.end[0];
      ReadSpeltRow(line.row, rest, sep, Scan(out, [], "", false));
      var st := LastCell(line.row, out);
      if line.end == "" {
        assert more == [] && rest == "";
        ReadNothing(sep, st);
        assert Rows(lines) == [CellsOf(line.row)] && Rows(lines[..0]) == [];
      } else {
        if line.end == "\r" && more != [] {
          FileBegins(more, sep);
        }
        ReadAnyBreak(line.end, FileText(more, sep), sep, st);
        ReadFile(more, sep, out + [CellsOf(line.row)]);
        RowsMore(lines, out);
      }
    }
  }

  lemma SpeltHasCells(row: seq<Spelt>, sep: char)
    requires RowSpelt(row, sep)
    ensures |row| > 0
  {
  }

  /** The state at the end of a record. */
  lemma LastCell(row: seq<Spelt>, out: seq<seq<string>>) returns (st: Scan)
    requires |row| > 0
    ensures st == Scan(out, [] + CellsOf(row[..|row| - 1]), row[|row| - 1].cell, false)
    ensures EndRow(st) == Scan(out + [CellsOf(row)], [], "", false)
    ensures Finish(st) == if |row| == 1 && row[0].cell == "" then out else out + [CellsOf(row)]
  {
    st := Scan(out, [] + CellsOf(row[..|row| - 1]), row[|row| - 1].cell, false);
    assert st.row + [st.cell] == CellsOf(row);
  }

  lemma RowsMore(lines: seq<Line>, out: seq<seq<string>>)
    requires |lines| > 0
    ensures out + [CellsOf(lines[0].row)] + Rows(lines[1..]) == out + Rows(lines)
    ensures |lines| > 1 ==>
              lines[1..][..|lines| - 2] == lines[..|lines| - 1][1..] &&
              out + [CellsOf(lines[0].row)] + Rows(lines[..|lines| - 1][1..]) == out + Rows(lines[..|lines| - 1])
  {
    hide CellsOf;
  }

  /**
   Any file of records reads as its cells: bare or quoted, whatever the separator and the line
   breaks, with or without a break at the end, only that a lone empty cell there is lost.
   */
  lemma FileReads(lines: seq<Line>, sep: char)
    requires Separates(sep) && FileSpelt(lines, sep)
    ensures var n := |lines|;
            Records(FileText(lines, sep), sep) ==
            Rows(if n > 0 && Trailing(lines[n - 1]) then lines[..n - 1] else lines)
  {
    hide Read, Finish, FileText, FileSpelt;
    ReadFile(lines, sep, []);
  }
}
