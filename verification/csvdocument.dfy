/**
  The sectioned document: how the client reads it, and what a printed table looks like to
  that reader.  Text is compared octet by octet; every character the structure depends on is
  ASCII.
  */
module CsvDocuments {
  import opened CsvLines
  import L = Lines

  datatype Section = Section(name: string, header: seq<string>, rows: seq<seq<string>>)

  const HEADING := "[SECTION] "

  // ---------------------------------------------------------------- reading

  predicate StartsWith(s: string, p: string) {
    |p| <= |s| && s[..|p|] == p
  }

  predicate IsWhite(c: char) {
    c == ' ' || '\t' <= c <= '\r'
  }

  function TrimStart(s: string): string {
    if s != "" && IsWhite(s[0]) then TrimStart(s[1..]) else s
  }

  function TrimEnd(s: string): string {
    if s != "" && IsWhite(s[|s|-1]) then TrimEnd(s[..|s|-1]) else s
  }

  const WHITE := " \t\n\U{B}\U{C}\r"

  lemma WhiteIs(c: char)
    ensures IsWhite(c) <==> c in WHITE
  {
    assert WHITE[0] == ' ' && WHITE[1] == '\t' && WHITE[2] == '\n';
    assert WHITE[3] == '\U{B}' && WHITE[4] == '\U{C}' && WHITE[5] == '\r';
    if '\t' <= c <= '\r' { assert WHITE[c as int - 8] == c; }
  }

  /** Blanks, tabs and line ends around a name are not part of it. */
  lemma {:induction false} Trimmed(pre: string, name: string, post: string)
    requires (forall i | 0 <= i < |pre| :: pre[i] in WHITE) && (forall i | 0 <= i < |post| :: post[i] in WHITE)
    requires name != "" && name[0] !in WHITE && name[|name|-1] !in WHITE
    ensures TrimStart(TrimEnd(pre + name + post)) == name
    decreases |pre| + |post|
  {
    hide IsWhite;
    var s := pre + name + post;
    if post != "" {
      WhiteIs(post[|post|-1]);
      Trimmed(pre, name, post[..|post|-1]);
      assert s[..|s|-1] == pre + name + post[..|post|-1];
    } else {
      WhiteIs(name[|name|-1]);
      assert TrimEnd(s) == s == pre + name;
      TrimmedStart(pre, name);
    }
  }

  lemma {:induction false} TrimmedStart(pre: string, name: string)
    requires (forall i | 0 <= i < |pre| :: pre[i] in WHITE) && name != "" && name[0] !in WHITE
    ensures TrimStart(pre + name) == name
  {
    hide IsWhite;
    if pre == "" {
      WhiteIs(name[0]);
      assert pre + name == name;
    } else {
      WhiteIs(pre[0]);
      TrimmedStart(pre[1..], name);
      assert (pre + name)[1..] == pre[1..] + name;
    }
  }

  /** Every CR LF becomes LF. */
  function ReplaceCrLf(s: string): string {
    if s == "" then ""
    else if |s| > 1 && s[0] == '\r' && s[1] == '\n' then "\n" + ReplaceCrLf(s[2..])
    else [s[0]] + ReplaceCrLf(s[1..])
  }

  datatype Reading = Reading(sections: seq<Section>, expectHeader: bool)

  const NothingRead := Reading([], false)

  function ReadLine(r: Reading, line: string): Reading {
    if StartsWith(line, HEADING) then
      Reading(r.sections + [Section(TrimStart(TrimEnd(line[|HEADING|..])), [], [])], true)
    else if line == "" || line[0] == '#' || r.sections == [] then r
    else
      var n := |r.sections| - 1;
      var fields := Fields(line, "", false);
      var s := if r.expectHeader then r.sections[n].(header := fields)
               else r.sections[n].(rows := r.sections[n].rows + [fields]);
      Reading(r.sections[n := s], false)
  }

  function ReadLines(r: Reading, lines: seq<string>): Reading {
    if lines == [] then r else ReadLine(ReadLines(r, lines[..|lines|-1]), lines[|lines|-1])
  }

  function ReadDocument(csv: string): seq<Section> {
    var s := ReplaceCrLf(csv);
    ReadLines(NothingRead, L.Terminated(s) + [L.Tail(s)]).sections
  }

  /** The parser of the client. */
  method Parse(csv: string) returns (sections: seq<Section>)
    ensures sections == ReadDocument(csv)
  {
    sections := [];
    if csv == "" {
      assert [] + [""] == [""];
      ReadOne(NothingRead, "");
      return;
    }
    var s := ReplaceCrLf(csv);
    var lines := L.Terminated(s) + [L.Tail(s)];
    var expectHeader := false;
    var i := 0;
    while i < |lines|
      invariant i <= |lines|
      invariant Reading(sections, expectHeader) == ReadLines(NothingRead, lines[..i])
    {
      assert lines[..i+1][..i] == lines[..i];
      var line := lines[i];
      i := i + 1;
      if StartsWith(line, HEADING) {
        sections := sections + [Section(TrimStart(TrimEnd(line[|HEADING|..])), [], [])];
        expectHeader := true;
        continue;
      }
      if line == "" || line[0] == '#' {
        continue;
      }
      if sections == [] {
        continue;
      }
      var fields := SplitLine(line);
      var n := |sections| - 1;
      if expectHeader {
        sections := sections[n := sections[n].(header := fields)];
        expectHeader := false;
      } else {
        sections := sections[n := sections[n].(rows := sections[n].rows + [fields])];
      }
    }
    assert lines[..i] == lines;
  }

  lemma {:induction false} ReadLinesConcat(r: Reading, a: seq<string>, b: seq<string>)
    ensures ReadLines(r, a + b) == ReadLines(ReadLines(r, a), b)
  {
    if b == [] {
      assert a + b == a;
    } else {
      ReadLinesConcat(r, a, b[..|b|-1]);
      assert (a + b)[..|a + b|-1] == a + b[..|b|-1];
    }
  }

  /** The lines that say something: neither blank nor comments. */
  function Telling(lines: seq<string>): seq<string> {
    if lines == [] then []
    else
      var l := lines[|lines|-1];
      Telling(lines[..|lines|-1]) + if l == "" || l[0] == '#' then [] else [l]
  }

  /** Blank lines and comments are not read. */
  lemma {:induction false} CommentsIgnored(r: Reading, lines: seq<string>)
    ensures ReadLines(r, Telling(lines)) == ReadLines(r, lines)
  {
    if lines != [] {
      var init, l := lines[..|lines|-1], lines[|lines|-1];
      CommentsIgnored(r, init);
      var ts := Telling(init);
      if l == "" || l[0] == '#' {
        assert ts + [] == ts;
        HeadingIsNone(l);
      } else {
        assert (ts + [l])[..|ts|] == ts;
      }
    }
  }

  lemma HeadingIsNone(l: string)
    requires l == "" || l[0] == '#'
    ensures !StartsWith(l, HEADING)
  {
    if l != "" && |HEADING| <= |l| { assert l[..|HEADING|][0] == l[0] && HEADING[0] == '['; }
  }

  // ---------------------------------------------------------------- printing

  /** How a field is written: as it is, quoted when needed, or quoted always. */
  datatype Cell = Raw(text: string) | Auto(text: string) | Forced(text: string) {
    function Written(): string {
      match this
      case Raw(s) => s
      case Auto(s) => Quoted(s)
      case Forced(s) => "\"" + s + "\""
    }

    /** What each way of writing asks of the text. */
    predicate Fits() {
      && Flat(text)
      && (Raw? ==> forall i | 0 <= i < |text| :: text[i] != ',' && text[i] != '"')
      && (Forced? ==> forall i | 0 <= i < |text| :: text[i] != '"')
    }
  }

  /** No line break of any kind. */
  predicate Flat(s: string) {
    forall i | 0 <= i < |s| :: s[i] != '\n' && s[i] != '\r'
  }

  type Row = seq<Cell>

  function WrittenRow(row: Row): string
    requires row != []
  {
    if |row| == 1 then row[0].Written() else row[0].Written() + "," + WrittenRow(row[1..])
  }

  function Texts(row: Row): (ts: seq<string>)
    ensures |ts| == |row|
  {
    if row == [] then [] else [row[0].text] + Texts(row[1..])
  }

  predicate FitsRow(row: Row) {
    && row != [] && (forall i | 0 <= i < |row| :: row[i].Fits())
    && row[0].text != "" && row[0].text[0] != '#' && row[0].text[0] != '['
  }

  datatype Table = Table(name: string, header: Row, rows: seq<Row>) {
    predicate Fits() {
      && Flat(name) && TrimStart(TrimEnd(name)) == name
      && FitsRow(header) && forall i | 0 <= i < |rows| :: FitsRow(rows[i])
    }

    function Content(): Section {
      Section(name, Texts(header), AllTexts(rows))
    }

    function Lines(): seq<string>
      requires Fits()
    {
      [HEADING + name, WrittenRow(header)] + RowLines(rows) + [""]
    }
  }

  function AllTexts(rows: seq<Row>): seq<seq<string>> {
    if rows == [] then [] else AllTexts(rows[..|rows|-1]) + [Texts(rows[|rows|-1])]
  }

  function RowLines(rows: seq<Row>): seq<string>
    requires forall i | 0 <= i < |rows| :: FitsRow(rows[i])
  {
    if rows == [] then []
    else
      assert FitsRow(rows[|rows|-1]);
      RowLines(rows[..|rows|-1]) + [WrittenRow(rows[|rows|-1])]
  }

  predicate FitTables(ts: seq<Table>) {
    forall i | 0 <= i < |ts| :: ts[i].Fits()
  }

  function TableLines(ts: seq<Table>): seq<string>
    requires FitTables(ts)
  {
    if ts == [] then [] else TableLines(ts[..|ts|-1]) + ts[|ts|-1].Lines()
  }

  function Sections(ts: seq<Table>): seq<Section> {
    if ts == [] then [] else Sections(ts[..|ts|-1]) + [ts[|ts|-1].Content()]
  }

  lemma CellRead(c: Cell, rest: string)
    requires c.Fits() && (rest != "" ==> rest[0] == ',')
    ensures Fields(c.Written() + rest, "", false) == Fields(rest, c.text, false)
  {
    hide Doubled;
    assert "" + c.text == c.text;
    match c
    case Raw(s) => PlainText(s, rest, "");
    case Auto(s) => QuotedField(s, rest);
    case Forced(s) =>
      NotDoubled(s);
      var t := c.Written() + rest;
      assert t[1..] == Doubled(s) + "\"" + rest;
      DoubledText(s, rest, "");
  }

  lemma {:induction false} NotDoubled(s: string)
    requires forall i | 0 <= i < |s| :: s[i] != '"'
    ensures Doubled(s) == s
  {
    if s != "" { NotDoubled(s[..|s|-1]); }
  }

  lemma {:induction false} RowRead(row: Row)
    requires row != [] && forall i | 0 <= i < |row| :: row[i].Fits()
    ensures Fields(WrittenRow(row), "", false) == Texts(row)
  {
    hide Fields, Cell.Written, Cell.Fits;
    var s := row[0].Written();
    if |row| == 1 {
      CellRead(row[0], "");
      assert s + "" == s;
      FieldsEnd(row[0].text);
    } else {
      var later := WrittenRow(row[1..]);
      RowRead(row[1..]);
      CellRead(row[0], "," + later);
      assert s + "," + later == s + ("," + later);
      FieldsComma(row[0].text, later);
    }
  }

  lemma FieldsEnd(field: string)
    ensures Fields("", field, false) == [field]
  {
  }

  lemma FieldsComma(field: string, later: string)
    ensures Fields("," + later, field, false) == [field] + Fields(later, "", false)
  {
    assert ("," + later)[1..] == later;
  }

  lemma {:induction false} DoubledFlat(s: string)
    requires Flat(s)
    ensures Flat(Doubled(s))
  {
    if s != "" { DoubledFlat(s[..|s|-1]); }
  }

  lemma WrittenFlat(c: Cell)
    requires c.Fits()
    ensures Flat(c.Written())
    ensures c.text != "" && c.text[0] != '#' && c.text[0] != '[' ==>
              c.Written() != "" && c.Written()[0] != '#' && c.Written()[0] != '['
  {
    hide Doubled;
    DoubledFlat(c.text);
  }

  lemma {:induction false} WrittenRowFlat(row: Row)
    requires row != [] && forall i | 0 <= i < |row| :: row[i].Fits()
    ensures Flat(WrittenRow(row))
    ensures FitsRow(row) ==> WrittenRow(row) != "" && WrittenRow(row)[0] != '#' && WrittenRow(row)[0] != '['
  {
    hide Cell.Written, Cell.Fits;
    WrittenFlat(row[0]);
    if |row| > 1 { WrittenRowFlat(row[1..]); }
  }

  /** A printed row is read as one row of its texts, whatever quotes or commas they hold. */
  lemma ReadRow(r: Reading, row: Row)
    requires FitsRow(row) && r.sections != []
    ensures var n := |r.sections| - 1;
            ReadLine(r, WrittenRow(row)) ==
            Reading(r.sections[n := if r.expectHeader then r.sections[n].(header := Texts(row))
                                    else r.sections[n].(rows := r.sections[n].rows + [Texts(row)])], false)
  {
    hide Fields, WrittenRow, Texts;
    WrittenRowFlat(row);
    RowRead(row);
    assert HEADING[0] == '[';
    var line := WrittenRow(row);
    assert |line| >= |HEADING| ==> line[..|HEADING|][0] == line[0];
  }

  lemma {:induction false} ReadRows(r: Reading, rows: seq<Row>)
    requires r.sections != [] && !r.expectHeader && forall i | 0 <= i < |rows| :: FitsRow(rows[i])
    ensures var n := |r.sections| - 1;
            ReadLines(r, RowLines(rows))
            == Reading(r.sections[n := r.sections[n].(rows := r.sections[n].rows + AllTexts(rows))], false)
  {
    hide ReadLine, WrittenRow, Texts;
    var n := |r.sections| - 1;
    if rows == [] {
      assert r.sections[n].rows + AllTexts(rows) == r.sections[n].rows;
    } else {
      var init := rows[..|rows|-1];
      ReadRows(r, init);
      ReadRow(ReadLines(r, RowLines(init)), rows[|rows|-1]);
      assert RowLines(rows)[..|RowLines(rows)|-1] == RowLines(init);
      assert r.sections[n].rows + AllTexts(init) + [Texts(rows[|rows|-1])] == r.sections[n].rows + AllTexts(rows);
    }
  }

  lemma ReadOne(r: Reading, line: string)
    ensures ReadLines(r, [line]) == ReadLine(r, line)
  {
    assert [line][..0] == [];
  }

  lemma ReadHeading(r: Reading, name: string)
    requires TrimStart(TrimEnd(name)) == name
    ensures ReadLine(r, HEADING + name) == Reading(r.sections + [Section(name, [], [])], true)
  {
    hide TrimStart, TrimEnd;
    assert (HEADING + name)[..|HEADING|] == HEADING && (HEADING + name)[|HEADING|..] == name;
  }

  /** A printed table is read back as one section with its name, header and rows. */
  lemma ReadTable(r: Reading, t: Table)
    requires t.Fits()
    ensures ReadLines(r, t.Lines()) == Reading(r.sections + [t.Content()], false)
  {
    hide ReadLine, WrittenRow, Texts, RowLines, AllTexts, ReadLines, TrimStart, TrimEnd;
    var h := [HEADING + t.name];
    var w := [WrittenRow(t.header)];
    var b := RowLines(t.rows);
    assert t.Lines() == h + (w + (b + [""]));
    ReadLinesConcat(r, h, w + (b + [""]));
    ReadOne(r, h[0]);
    ReadHeading(r, t.name);
    var r1 := ReadLines(r, h);
    ReadLinesConcat(r1, w, b + [""]);
    ReadOne(r1, w[0]);
    ReadRow(r1, t.header);
    var r2 := ReadLines(r1, w);
    assert r2.sections == r.sections + [Section(t.name, Texts(t.header), [])];
    ReadLinesConcat(r2, b, [""]);
    ReadRows(r2, t.rows);
    var r3 := ReadLines(r2, b);
    ReadOne(r3, "");
    ReadBlank(r3);
    assert [] + AllTexts(t.rows) == AllTexts(t.rows);
    assert r3.sections == r.sections + [t.Content()];
  }

  lemma ReadBlank(r: Reading)
    ensures ReadLine(r, "") == r
  {
  }

  lemma {:induction false} ReadTables(r: Reading, ts: seq<Table>)
    requires FitTables(ts) && !r.expectHeader
    ensures ReadLines(r, TableLines(ts)) == Reading(r.sections + Sections(ts), false)
  {
    hide ReadLine, Table.Lines, Table.Content, Table.Fits;
    if ts == [] {
      assert r.sections + Sections(ts) == r.sections;
    } else {
      var init := ts[..|ts|-1];
      ReadTables(r, init);
      ReadLinesConcat(r, TableLines(init), ts[|ts|-1].Lines());
      ReadTable(Reading(r.sections + Sections(init), false), ts[|ts|-1]);
    }
  }

  // ---------------------------------------------------------------- lines of a document

  lemma {:induction false} FlatRows(rows: seq<Row>)
    requires forall i | 0 <= i < |rows| :: FitsRow(rows[i])
    ensures forall i | 0 <= i < |RowLines(rows)| :: Flat(RowLines(rows)[i])
  {
    if rows != [] {
      FlatRows(rows[..|rows|-1]);
      WrittenRowFlat(rows[|rows|-1]);
    }
  }

  lemma FlatTable(t: Table)
    requires t.Fits()
    ensures forall i | 0 <= i < |t.Lines()| :: Flat(t.Lines()[i])
  {
    hide WrittenRow, TrimStart, TrimEnd;
    FlatRows(t.rows);
    WrittenRowFlat(t.header);
    assert Flat(HEADING);
  }

  lemma {:induction false} FlatTables(ts: seq<Table>)
    requires FitTables(ts)
    ensures forall i | 0 <= i < |TableLines(ts)| :: Flat(TableLines(ts)[i])
  {
    hide Table.Lines, Table.Fits;
    if ts != [] {
      FlatTables(ts[..|ts|-1]);
      FlatTable(ts[|ts|-1]);
    }
  }

  lemma {:induction false} FlatLines(ls: seq<string>)
    requires forall i | 0 <= i < |ls| :: Flat(ls[i])
    ensures L.Terminated(L.Unlines(ls)) == ls && L.Tail(L.Unlines(ls)) == ""
    ensures forall i | 0 <= i < |L.Unlines(ls)| :: L.Unlines(ls)[i] != '\r'
  {
    hide L.Terminated, L.Tail;
    if ls == [] {
      L.NoLfSplit("");
    } else {
      var init := ls[..|ls|-1];
      var last := ls[|ls|-1];
      FlatLines(init);
      L.LineOf(last);
      L.SplitConcat(L.Unlines(init), last + "\n");
      assert "" + (last + "\n") == last + "\n";
      assert L.Unlines(ls) == L.Unlines(init) + (last + "\n");
    }
  }

  lemma {:induction false} NoCr(s: string)
    requires forall i | 0 <= i < |s| :: s[i] != '\r'
    ensures ReplaceCrLf(s) == s
  {
    if s != "" { NoCr(s[1..]); }
  }

  lemma {:induction false} ReplaceConcat(a: string, b: string)
    requires a != "" && a[|a|-1] != '\r'
    ensures ReplaceCrLf(a + b) == ReplaceCrLf(a) + ReplaceCrLf(b)
    decreases |a|
  {
    var n := if |a| > 1 && a[0] == '\r' && a[1] == '\n' then 2 else 1;
    assert (a + b)[n..] == a[n..] + b;
    if |a| > n {
      ReplaceConcat(a[n..], b);
    } else {
      assert a[n..] == "" && a[n..] + b == b && ReplaceCrLf("") == "";
    }
    var head := if n == 2 then "\n" else [a[0]];
    ReplaceHead(a, n, head);
    ReplaceHead(a + b, n, head);
    L.Regroup(head, ReplaceCrLf(a[n..]), ReplaceCrLf(b));
  }

  lemma ReplaceHead(s: string, n: nat, head: string)
    requires s != "" && n == if |s| > 1 && s[0] == '\r' && s[1] == '\n' then 2 else 1
    requires head == if n == 2 then "\n" else [s[0]]
    ensures ReplaceCrLf(s) == head + ReplaceCrLf(s[n..])
  {
  }

  // ---------------------------------------------------------------- text in front of the tables

  predicate Contains(s: string, p: string) {
    StartsWith(s, p) || (s != "" && Contains(s[1..], p))
  }

  /** A line break that is followed by a section heading. */
  const BREAK := "\n" + HEADING

  function Headings(ls: seq<string>): nat {
    if ls == [] then 0
    else Headings(ls[..|ls|-1]) + if StartsWith(ls[|ls|-1], HEADING) then 1 else 0
  }

  /** The reader opens one section for every heading line, whatever surrounds it. */
  lemma {:induction false} HeadingsAreSections(r: Reading, ls: seq<string>)
    ensures |ReadLines(r, ls).sections| == |r.sections| + Headings(ls)
    ensures r == NothingRead && Headings(ls) == 0 ==> ReadLines(r, ls) == NothingRead
  {
    if ls != [] {
      hide Fields, TrimStart, TrimEnd;
      HeadingsAreSections(r, ls[..|ls|-1]);
    }
  }

  lemma {:induction false} HeadingsConcat(a: seq<string>, b: seq<string>)
    ensures Headings(a + b) == Headings(a) + Headings(b)
  {
    if b == [] {
      assert a + b == a;
    } else {
      HeadingsConcat(a, b[..|b|-1]);
      assert (a + b)[..|a + b|-1] == a + b[..|b|-1];
    }
  }

  /** No occurrence of BREAK begins in `x`, however it goes on. */
  predicate Guarded(x: string) {
    forall i | 0 <= i < |x| && x[i] == '\n' :: i + 1 < |x| && x[i+1] != '['
  }

  lemma {:induction false} GuardedSkip(x: string, y: string)
    requires Guarded(x)
    ensures Contains(x + y, BREAK) == Contains(y, BREAK)
  {
    if x == "" {
      assert x + y == y;
    } else {
      var t := x + y;
      assert Guarded(x[1..]) by {
        forall i | 0 <= i < |x[1..]| && x[1..][i] == '\n' ensures i + 1 < |x[1..]| && x[1..][i+1] != '[' {
          assert x[i+1] == '\n';
        }
      }
      GuardedSkip(x[1..], y);
      assert t[1..] == x[1..] + y;
      assert BREAK[0] == '\n' && BREAK[1] == '[';
      if |t| >= |BREAK| {
        assert t[0] == t[..|BREAK|][0] && t[1] == t[..|BREAK|][1];
      }
    }
  }

  lemma GuardedConcat(x: string, y: string)
    requires Guarded(x) && Guarded(y)
    ensures Guarded(x + y)
  {
  }

  lemma GuardedFlat(x: string)
    requires Flat(x)
    ensures Guarded(x)
  {
  }

  lemma {:induction false} HeadingsFound(s: string)
    ensures Headings(L.Terminated(s) + [L.Tail(s)]) > 0 <==> StartsWith(s, HEADING) || Contains(s, BREAK)
    decreases |s|
  {
    hide L.Terminated, L.Tail, StartsWith, Contains;
    var k := L.FirstLf(s, 0);
    var line := s[0..k];
    assert "" + s[0..] == s && "" + line == line;
    L.FirstLine("", s, 0);
    GuardedFlatLine(s, k);
    if k < |s| {
      var rest := s[k+1..];
      HeadingsFound(rest);
      var ls := L.Terminated(rest) + [L.Tail(rest)];
      assert L.Terminated(s) + [L.Tail(s)] == [line] + ls;
      HeadingsConcat([line], ls);
      HeadingOne(line);
    } else {
      assert line == s && L.Terminated(s) == [] && L.Tail(s) == s;
      assert L.Terminated(s) + [L.Tail(s)] == [s];
      HeadingOne(s);
    }
  }

  lemma HeadingOne(line: string)
    ensures Headings([line]) == if StartsWith(line, HEADING) then 1 else 0
  {
    assert [line][..0] == [];
  }

  /** Where the first line of `s` ends decides where a break can begin. */
  lemma GuardedFlatLine(s: string, k: nat)
    requires k == L.FirstLf(s, 0)
    ensures StartsWith(s, HEADING) == StartsWith(s[0..k], HEADING)
    ensures Contains(s, BREAK) == (k < |s| && (StartsWith(s[k+1..], HEADING) || Contains(s[k+1..], BREAK)))
  {
    hide Contains, StartsWith;
    HeadingInLine(s, k);
    assert Guarded(s[0..k]) by {
      forall i | 0 <= i < k ensures s[0..k][i] != '\n' { assert s[0..k][i] == s[i]; }
    }
    GuardedSkip(s[0..k], s[k..]);
    assert s == s[0..k] + s[k..];
    BreakAt(s[k..]);
    if k < |s| { assert s[k..][1..] == s[k+1..]; }
  }

  lemma HeadingInLine(s: string, k: nat)
    requires k == L.FirstLf(s, 0)
    ensures StartsWith(s, HEADING) == StartsWith(s[0..k], HEADING)
  {
    assert forall i | 0 <= i < |HEADING| :: HEADING[i] != '\n';
    if |HEADING| <= k {
      assert s[..|HEADING|] == s[0..k][..|HEADING|];
    } else if |HEADING| <= |s| {
      assert s[..|HEADING|][k] == s[k];
    }
  }

  lemma BreakAt(t: string)
    requires t == "" || t[0] == '\n'
    ensures Contains(t, BREAK) == (t != "" && (StartsWith(t[1..], HEADING) || Contains(t[1..], BREAK)))
  {
    if |BREAK| <= |t| {
      assert t[..|BREAK|] == "\n" + t[1..][..|HEADING|];
      assert BREAK[1..] == HEADING;
      assert ("\n" + t[1..][..|HEADING|])[1..] == t[1..][..|HEADING|];
    }
  }

  // ---------------------------------------------------------------- breaks in a quoted text

  /** Unquoted and unreplaced characters only: what neither doubling nor CR removal touches. */
  predicate Inert(q: string) {
    forall i | 0 <= i < |q| :: q[i] != '"' && q[i] != '\n' && q[i] != '\r'
  }

  lemma {:induction false} StartsInDoubled(s: string, q: string)
    requires forall i | 0 <= i < |q| :: q[i] != '"'
    ensures StartsWith(Doubled(s), q) == StartsWith(s, q)
    decreases |s|
  {
    if s != "" && q != "" {
      DoubledFront(s);
      StartsTail([s[0]], s[1..], q);
      assert s == [s[0]] + s[1..];
      if s[0] != '"' {
        StartsInDoubled(s[1..], q[1..]);
        StartsTail([s[0]], Doubled(s[1..]), q);
      } else {
        assert Doubled(s) == "\"" + ("\"" + Doubled(s[1..]));
        StartsTail("\"", "\"" + Doubled(s[1..]), q);
      }
    }
  }

  lemma StartsTail(c: string, t: string, q: string)
    requires |c| == 1 && q != ""
    ensures StartsWith(c + t, q) == (c[0] == q[0] && StartsWith(t, q[1..]))
  {
    var s := c + t;
    if |q| <= |s| {
      assert s[..|q|] == c + t[..|q|-1];
      assert q == [q[0]] + q[1..];
      assert (c + t[..|q|-1])[1..] == t[..|q|-1];
    }
  }

  lemma {:induction false} ContainsInDoubled(s: string, q: string)
    requires q != "" && forall i | 0 <= i < |q| :: q[i] != '"'
    ensures Contains(Doubled(s), q) == Contains(s, q)
    decreases |s|
  {
    StartsInDoubled(s, q);
    if s != "" {
      DoubledFront(s);
      ContainsInDoubled(s[1..], q);
      var d := Doubled(s);
      if s[0] == '"' {
        assert d[1..] == "\"" + Doubled(s[1..]);
        assert d[1..][1..] == Doubled(s[1..]);
        StartsTail("\"", Doubled(s[1..]), q);
      } else {
        assert d[1..] == Doubled(s[1..]);
      }
    }
  }

  lemma {:induction false} StartsInReplaced(s: string, q: string)
    requires Inert(q)
    ensures StartsWith(ReplaceCrLf(s), q) == StartsWith(s, q)
    decreases |s|
  {
    if s != "" && q != "" {
      StartsTail([s[0]], s[1..], q);
      assert s == [s[0]] + s[1..];
      if |s| > 1 && s[0] == '\r' && s[1] == '\n' {
        StartsTail("\n", ReplaceCrLf(s[2..]), q);
      } else {
        StartsInReplaced(s[1..], q[1..]);
        StartsTail([s[0]], ReplaceCrLf(s[1..]), q);
      }
    }
  }

  /** Replacing line ends neither makes nor removes a break. */
  lemma {:induction false} BreakInReplaced(s: string)
    ensures Contains(ReplaceCrLf(s), BREAK) == Contains(s, BREAK)
    ensures StartsWith(ReplaceCrLf(s), HEADING) == StartsWith(s, HEADING)
    decreases |s|
  {
    assert Inert(HEADING) && BREAK[1..] == HEADING && BREAK[0] == '\n';
    StartsInReplaced(s, HEADING);
    if s != "" {
      BreakInReplaced(s[1..]);
      StartsTail([s[0]], s[1..], BREAK);
      assert s == [s[0]] + s[1..];
      if |s| > 1 && s[0] == '\r' && s[1] == '\n' {
        assert s[1..][1..] == s[2..];
        assert ReplaceCrLf(s) == ReplaceCrLf(s[1..]);
      } else {
        var r := ReplaceCrLf(s[1..]);
        StartsInReplaced(s[1..], HEADING);
        StartsTail([s[0]], r, BREAK);
        assert ReplaceCrLf(s)[1..] == r;
      }
    }
  }

  /** A text that ends in a quote cannot begin a break that goes beyond it. */
  lemma {:induction false} QuoteEndsBreak(x: string, y: string)
    requires x != "" && x[|x|-1] == '"'
    ensures Contains(x + y, BREAK) == (Contains(x, BREAK) || Contains(y, BREAK))
  {
    var t := x + y;
    assert t[1..] == x[1..] + y;
    assert forall i | 0 <= i < |BREAK| :: BREAK[i] != '"';
    if |x| < |BREAK| <= |t| {
      assert t[..|BREAK|][|x|-1] == '"';
    } else if |BREAK| <= |x| {
      assert t[..|BREAK|] == x[..|BREAK|];
    }
    if |x| > 1 {
      QuoteEndsBreak(x[1..], y);
    } else {
      assert x[1..] == "" && x[1..] + y == y;
      assert !Contains("", BREAK);
    }
  }

  /** A quoted text holds a break exactly when the text does. */
  lemma BreakInQuoted(s: string, y: string)
    ensures Contains(Quoted(s) + y, BREAK) == (Contains(s, BREAK) || Contains(y, BREAK))
  {
    hide Doubled, Contains;
    if NeedsQuotes(s) {
      var x := Doubled(s) + "\"";
      QuoteEndsBreak(x, y);
      QuoteEndsBreak(x, "");
      assert x + "" == x;
      assert forall i | 0 <= i < |BREAK| :: BREAK[i] != '"';
      ContainsInDoubled(s, BREAK);
      EndQuote(Doubled(s));
      assert Quoted(s) + y == "\"" + (x + y);
      GuardedSkip("\"", x + y);
    } else {
      forall i | 0 <= i < |s| ensures s[i] != '\n' && s[i] != '\r' { assert !Special(s[i]); }
      GuardedFlat(s);
      GuardedSkip(s, y);
      GuardedSkip(s, "");
      assert s + "" == s;
      NoBreak();
    }
  }

  lemma NoBreak()
    ensures !Contains("", BREAK)
  {
  }

  lemma {:induction false} EndQuote(s: string)
    ensures Contains(s + "\"", BREAK) == Contains(s, BREAK)
  {
    var t := s + "\"";
    assert forall i | 0 <= i < |BREAK| :: BREAK[i] != '"';
    if |BREAK| == |t| {
      assert t[..|BREAK|][|s|] == '"';
    } else if |BREAK| <= |s| {
      assert t[..|BREAK|] == s[..|BREAK|];
    }
    if s != "" {
      EndQuote(s[1..]);
      assert t[1..] == s[1..] + "\"";
    } else {
      assert t[1..] == "";
    }
  }
}
