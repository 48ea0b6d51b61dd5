// Pages of project and search (internal/present/project.go, search.go): which rows make a page,
// its text, and how its size answers to its rows and its cursor.
module BroadPage {
  import opened Wrappers
  import opened Utf8
  import opened TextOrder
  import opened Magnitude
  import opened JsonCodec
  import opened OutputBuffer
  import opened PageFields
  import opened Vocabulary
  import opened ResultText
  import opened RowOrder
  import opened BroadWarnings

  const OUTPUT_MAX_BYTES := 32_768

  // What a page belongs to: the directory a project call named, or the mode of a search.
  datatype Subject = Project(path: Text) | Search(mode: Family)

  function FamilyOf(subject: Subject): Family {
    if subject.Project? then ProjectEntries else subject.mode
  }

  predicate ValidSubject(subject: Subject) {
    if subject.Project? then ValidPath(subject.path) else subject.mode != ProjectEntries
  }

  // ---- Rows ----

  // A row that a page of the family may show; fields of other families are unset.
  predicate ValidUnit(family: Family, row: Row) {
    && ValidPath(row.path) && ValidRow(row)
    && match family
       case ProjectEntries => row.kind == RowDirectory || row.kind == RowFile
       case SearchFiles => row.kind == RowFile
       case SearchTexts => (row.kind == RowTextMatch || row.kind == RowTextContext) && row.line != 0
         && OneLine(row.text)
       case SearchSymbols =>
         row.kind == RowSymbol && row.start != 0 && row.end >= row.start &&
         row.symbolKind in SYMBOL_KINDS && Utf8.Valid(row.name)
  }

  // compareProjectEntries puts the root first; compareSearchRows compares what its mode shows.
  function CompareShown(family: Family, l: Row, r: Row): (c: int) {
    match family
    case ProjectEntries =>
      if (l.path == ROOT) != (r.path == ROOT) then (if l.path == ROOT then -1 else 1)
      else First(CompareText(l.path, r.path), Sign(Rank(l.kind) - Rank(r.kind)))
    case SearchFiles => CompareText(l.path, r.path)
    case SearchTexts =>
      First(CompareText(l.path, r.path), First(Sign(l.line - r.line), Sign(Rank(l.kind) - Rank(r.kind))))
    case SearchSymbols =>
      First(CompareText(l.path, r.path),
            First(Sign(l.start - r.start),
                  First(Sign(l.end - r.end),
                        First(CompareText(l.symbolKind, r.symbolKind), CompareText(l.name, r.name)))))
  }

  // Every row valid and after the one before it.
  predicate ValidUnits(family: Family, rows: seq<Row>) {
    && (forall k :: 0 <= k < |rows| ==> ValidUnit(family, rows[k]))
    && (forall k :: 0 < k < |rows| ==> CompareShown(family, rows[k - 1], rows[k]) < 0)
  }

  // Symbols that agree on every shown field are not told apart further, texts of one line neither.
  lemma UnitsChain(family: Family, a: Row, b: Row, c: Row)
    requires CompareShown(family, a, b) < 0 && CompareShown(family, b, c) < 0
    ensures CompareShown(family, a, c) < 0
  {
    if CompareText(a.path, b.path) <= 0 && CompareText(b.path, c.path) <= 0 {
      TextsInOrder(a.path, b.path, c.path);
    }
    if CompareText(a.symbolKind, b.symbolKind) <= 0 && CompareText(b.symbolKind, c.symbolKind) <= 0 {
      TextsInOrder(a.symbolKind, b.symbolKind, c.symbolKind);
    }
    if CompareText(a.name, b.name) <= 0 && CompareText(b.name, c.name) <= 0 {
      TextsInOrder(a.name, b.name, c.name);
    }
  }

  // So all rows of a page are in strictly ascending order, and none is shown twice.
  lemma {:induction false} UnitsAscend(family: Family, rows: seq<Row>, i: nat, j: nat)
    requires ValidUnits(family, rows) && i < j < |rows|
    ensures CompareShown(family, rows[i], rows[j]) < 0 && rows[i] != rows[j]
    decreases j - i
  {
    hide ValidUnit;
    if i + 1 < j {
      UnitsAscend(family, rows, i, j - 1);
      UnitsChain(family, rows[i], rows[j - 1], rows[j]);
    }
    TextZero(rows[j].path, rows[j].path);
    TextZero(rows[j].symbolKind, rows[j].symbolKind);
    TextZero(rows[j].name, rows[j].name);
  }

  // ---- Text ----

  function ModeName(mode: Family): Text {
    match mode
    case SearchFiles => Word("file")
    case SearchTexts => Word("text")
    case SearchSymbols => Word("symbol")
    case ProjectEntries => []
  }

  function Matches(rows: seq<Row>): nat {
    if rows == [] then 0
    else Matches(rows[..|rows| - 1]) + (if rows[|rows| - 1].kind == RowTextMatch then 1 else 0)
  }

  function Subtitle(subject: Subject): Text {
    if subject.Project? then Ascii("@@project\t") + Quoted(subject.path)
    else Ascii("@@search\t") + ModeName(subject.mode)
  }

  function MatchesField(subject: Subject, matches: nat): Text {
    if subject == Search(SearchTexts) then Ascii("\tmatches=") + FormatUint(matches) else []
  }

  // The first line.
  function Heading(subject: Subject, rows: nat, matches: nat, complete: bool, cursor: Text): Text {
    Subtitle(subject) + [TAB] + StatusName(complete) + Ascii("\trows=") + FormatUint(rows) +
    MatchesField(subject, matches) + CursorField(complete, cursor) + [LF]
  }

  function GroupLine(path: Text): Text {
    Ascii("@\t") + Quoted(path) + [LF]
  }

  function RowMark(family: Family, kind: RowKind): Text {
    match family
    case ProjectEntries => if kind == RowDirectory then Ascii("D\t") else Ascii("F\t")
    case SearchFiles => Ascii("F\t")
    case SearchTexts => if kind == RowTextMatch then Ascii("M\t") else Ascii("C\t")
    case SearchSymbols => Ascii("S\t")
  }

  function SymbolFields(row: Row): Text {
    FormatUint(row.start) + [0x3A] + FormatUint(row.end) + [TAB] + row.symbolKind + [TAB] + Quoted(row.name)
  }

  function RowLine(family: Family, row: Row): Text {
    RowMark(family, row.kind) +
    (match family
     case SearchTexts => FormatUint(row.line) + [TAB] + row.text
     case SearchSymbols => SymbolFields(row)
     case _ => Quoted(row.path)) +
    [LF]
  }

  // Texts and symbols are listed under the path they belong to.
  predicate Opens(family: Family, grouped: Text, row: Row) {
    (family == SearchTexts || family == SearchSymbols) && row.path != grouped
  }

  function UnitText(family: Family, grouped: Text, row: Row): Text {
    (if Opens(family, grouped, row) then GroupLine(row.path) else []) + RowLine(family, row)
  }

  function UnitsText(family: Family, grouped: Text, rows: seq<Row>): Text
    decreases |rows|
  {
    if rows == [] then [] else UnitText(family, grouped, rows[0]) + UnitsText(family, rows[0].path, rows[1..])
  }

  // The whole page.
  function PageText(subject: Subject, rows: seq<Row>, complete: bool, cursor: Text, warnings: seq<Warning>): Text
    requires ValidSummary(complete, warnings)
  {
    SummaryFits([], complete, warnings);
    WarningLines(
      Heading(subject, |rows|, Matches(rows), complete, cursor) + UnitsText(FamilyOf(subject), [], rows),
      SortByCode(warnings))
  }

  // What a page is checked for before it is rendered.
  predicate Presentable(subject: Subject, rows: seq<Row>, complete: bool, cursor: Text, warnings: seq<Warning>) {
    && ValidSubject(subject) && ValidStatusCursor(complete, cursor) && ValidUnits(FamilyOf(subject), rows)
    && ValidSummary(complete, warnings)
  }

  // ---- Rendering ----

  method AppendSubtitle(buffer: Buffer, subject: Subject) returns (ok: bool)
    requires buffer.Valid() && ValidSubject(subject)
    modifies buffer
    ensures buffer.Valid() && ok && buffer.written == old(buffer.written) + Subtitle(subject)
  {
    hide Buffer.Valid, Utf8.Valid, Quoted;
    ghost var out := buffer.written;
    ok := true;
    match subject {
      case Project(path) =>
        buffer.AppendString(Ascii("@@project\t"));
        ok := buffer.Quote(path);
        assert out + Ascii("@@project\t") + Quoted(path) == out + (Ascii("@@project\t") + Quoted(path));
      case Search(mode) =>
        buffer.AppendString(Ascii("@@search\t"));
        buffer.AppendString(ModeName(mode));
        assert out + Ascii("@@search\t") + ModeName(mode) == out + (Ascii("@@search\t") + ModeName(mode));
    }
  }

  method AppendMatches(buffer: Buffer, subject: Subject, matches: nat)
    requires buffer.Valid()
    modifies buffer
    ensures buffer.Valid() && buffer.written == old(buffer.written) + MatchesField(subject, matches)
  {
    hide Buffer.Valid, FormatUint;
    ghost var out := buffer.written;
    if subject == Search(SearchTexts) {
      buffer.AppendString(Ascii("\tmatches="));
      buffer.AppendUint(matches);
      assert out + Ascii("\tmatches=") + FormatUint(matches) == out + (Ascii("\tmatches=") + FormatUint(matches));
    } else {
      assert out + [] == out;
    }
  }

  method AppendHeading(buffer: Buffer, subject: Subject, rows: nat, matches: nat, complete: bool, cursor: Text)
    returns (ok: bool)
    requires buffer.Valid() && ValidSubject(subject) && buffer.written == []
    modifies buffer
    ensures buffer.Valid() && ok && buffer.written == Heading(subject, rows, matches, complete, cursor)
  {
    hide Buffer.Valid, FormatUint, Subtitle, MatchesField, StatusName, CursorField, Ascii;
    ok := AppendSubtitle(buffer, subject);
    assert [] + Subtitle(subject) == Subtitle(subject);
    if !ok {
      return;
    }
    buffer.AppendByte(TAB);
    buffer.AppendString(StatusName(complete));
    buffer.AppendString(Ascii("\trows="));
    buffer.AppendUint(rows);
    AppendMatches(buffer, subject, matches);
    buffer.AppendString(CursorField(complete, cursor));
    buffer.AppendByte(LF);
  }

  lemma Joined(out: Text, a: Text, b: Text)
    ensures out + a + b == out + (a + b)
  {
  }

  method AppendQuoted(buffer: Buffer, lead: Text, value: Text) returns (ok: bool)
    requires buffer.Valid() && Utf8.Valid(value)
    modifies buffer
    ensures buffer.Valid() && ok && buffer.written == old(buffer.written) + (lead + Quoted(value) + [LF])
  {
    hide Buffer.Valid, Quoted;
    ghost var out := buffer.written;
    buffer.AppendString(lead);
    ok := buffer.Quote(value);
    if !ok {
      return;
    }
    buffer.AppendByte(LF);
    Joined(out, lead, Quoted(value));
    Joined(out, lead + Quoted(value), [LF]);
  }

  method AppendTextRow(buffer: Buffer, row: Row)
    requires buffer.Valid()
    modifies buffer
    ensures buffer.Valid() && buffer.written == old(buffer.written) + RowLine(SearchTexts, row)
  {
    hide Buffer.Valid, FormatUint, RowMark;
    ghost var out := buffer.written;
    buffer.AppendString(RowMark(SearchTexts, row.kind));
    buffer.AppendUint(row.line);
    buffer.AppendByte(TAB);
    buffer.AppendString(row.text);
    buffer.AppendByte(LF);
    ghost var mark, number := RowMark(SearchTexts, row.kind), FormatUint(row.line);
    Joined(out + mark, number, [TAB]);
    Joined(out + mark, number + [TAB], row.text);
    Joined(out, mark, number + [TAB] + row.text);
    Joined(out, mark + (number + [TAB] + row.text), [LF]);
  }

  method AppendSymbolRow(buffer: Buffer, row: Row) returns (ok: bool)
    requires buffer.Valid() && Utf8.Valid(row.name)
    modifies buffer
    ensures buffer.Valid() && ok && buffer.written == old(buffer.written) + RowLine(SearchSymbols, row)
  {
    hide Buffer.Valid, FormatUint, RowMark, Quoted;
    ghost var out := buffer.written;
    var mark := RowMark(SearchSymbols, row.kind);
    buffer.AppendString(mark);
    buffer.AppendUint(row.start);
    buffer.AppendByte(0x3A);
    buffer.AppendUint(row.end);
    buffer.AppendByte(TAB);
    buffer.AppendString(row.symbolKind);
    buffer.AppendByte(TAB);
    ok := buffer.Quote(row.name);
    if !ok {
      return;
    }
    ghost var range := FormatUint(row.start) + [0x3A] + FormatUint(row.end);
    Joined(out + mark, FormatUint(row.start), [0x3A]);
    Joined(out + mark, FormatUint(row.start) + [0x3A], FormatUint(row.end));
    SymbolJoined(out + mark, range, row.symbolKind, Quoted(row.name));
    buffer.AppendByte(LF);
    Joined(out, mark, SymbolFields(row));
    Joined(out, mark + SymbolFields(row), [LF]);
  }

  lemma SymbolJoined(out: Text, range: Text, kind: Text, name: Text)
    ensures out + range + [TAB] + kind + [TAB] + name == out + (range + [TAB] + kind + [TAB] + name)
  {
    Joined(out, range, [TAB]);
    Joined(out, range + [TAB], kind);
    Joined(out, range + [TAB] + kind, [TAB]);
    Joined(out, range + [TAB] + kind + [TAB], name);
  }

  // One row, under its path if that is due.
  method AppendRow(buffer: Buffer, family: Family, grouped: Text, row: Row) returns (ok: bool)
    requires buffer.Valid() && ValidUnit(family, row)
    modifies buffer
    ensures buffer.Valid() && ok && buffer.written == old(buffer.written) + UnitText(family, grouped, row)
  {
    hide Buffer.Valid, RowMark, Quoted, SymbolFields, Utf8.Valid, Ascii;
    ghost var out := buffer.written;
    ok := true;
    assert out + [] == out;
    if Opens(family, grouped, row) {
      ok := AppendQuoted(buffer, Ascii("@\t"), row.path);
      if !ok {
        return;
      }
    }
    ghost var grouping := if Opens(family, grouped, row) then GroupLine(row.path) else [];
    assert buffer.written == out + grouping;
    match family {
      case SearchTexts =>
        AppendTextRow(buffer, row);
      case SearchSymbols =>
        ok := AppendSymbolRow(buffer, row);
      case _ =>
        ok := AppendQuoted(buffer, RowMark(family, row.kind), row.path);
    }
    Joined(out, grouping, RowLine(family, row));
  }

  method CountMatches(rows: seq<Row>) returns (matches: nat)
    ensures matches == Matches(rows)
  {
    matches := 0;
    var k := 0;
    while k < |rows|
      invariant 0 <= k <= |rows| && matches == Matches(rows[..k])
    {
      assert rows[..k + 1][..k] == rows[..k];
      if rows[k].kind == RowTextMatch {
        matches := matches + 1;
      }
      k := k + 1;
    }
    assert rows[..k] == rows;
  }

  method AppendRows(buffer: Buffer, family: Family, rows: seq<Row>) returns (ok: bool)
    requires buffer.Valid() && forall k :: 0 <= k < |rows| ==> ValidUnit(family, rows[k])
    modifies buffer
    ensures buffer.Valid() && ok && buffer.written == old(buffer.written) + UnitsText(family, [], rows)
  {
    hide Buffer.Valid, UnitText, ValidUnit;
    ghost var out := buffer.written;
    var grouped: Text, k := [], 0;
    ok := true;
    assert rows[0..] == rows;
    while k < |rows|
      invariant 0 <= k <= |rows| && buffer.Valid() && ok
      invariant buffer.written + UnitsText(family, grouped, rows[k..]) == out + UnitsText(family, [], rows)
    {
      ghost var before := buffer.written;
      assert rows[k..][0] == rows[k] && rows[k..][1..] == rows[k + 1..];
      ok := AppendRow(buffer, family, grouped, rows[k]);
      if !ok {
        return;
      }
      Joined(before, UnitText(family, grouped, rows[k]), UnitsText(family, rows[k].path, rows[k + 1..]));
      grouped := rows[k].path;
      k := k + 1;
    }
    assert buffer.written + [] == buffer.written;
  }

  // Renders a page that is presentable and fits.
  method RenderLimit(subject: Subject, rows: seq<Row>, complete: bool, cursor: Text, warnings: seq<Warning>,
                     maxBytes: nat)
    returns (r: Option<Text>)
    ensures r.Some? <==>
      Presentable(subject, rows, complete, cursor, warnings)
        && |PageText(subject, rows, complete, cursor, warnings)| <= maxBytes
    ensures r.Some? ==> r.value == PageText(subject, rows, complete, cursor, warnings)
  {
    hide Buffer.Valid, Heading, UnitsText, ValidUnit, ValidSubject, ValidStatusCursor, ValidSummary;
    if !ValidSubject(subject) || !ValidStatusCursor(complete, cursor) || !ValidUnits(FamilyOf(subject), rows) {
      return None;
    }
    var sorted := NormalizeWarnings(complete, warnings);
    if sorted.None? {
      return None;
    }
    SummaryFits([], complete, warnings);
    var matches := CountMatches(rows);
    var buffer := new Buffer(maxBytes);
    var ok := AppendHeading(buffer, subject, |rows|, matches, complete, cursor);
    if !ok {
      return None;
    }
    ok := AppendRows(buffer, FamilyOf(subject), rows);
    if !ok {
      return None;
    }
    ok := AppendBroadWarnings(buffer, sorted.value);
    if !ok {
      return None;
    }
    var text, fits := buffer.Finish();
    return if fits then Some(text) else None;
  }

  // ---- Sizes ----

  lemma {:induction false} WarningsLength(out: Text, warnings: seq<Warning>)
    requires ValidWarnings(warnings)
    ensures |WarningLines(out, warnings)| == |out| + |WarningLines([], warnings)|
    decreases |warnings|
  {
    hide WarningLine;
    if warnings != [] {
      WarningsLength(out + WarningLine(warnings[0]), warnings[1..]);
      WarningsLength([] + WarningLine(warnings[0]), warnings[1..]);
    }
  }

  lemma PageLength(subject: Subject, rows: seq<Row>, complete: bool, cursor: Text, warnings: seq<Warning>)
    requires ValidSummary(complete, warnings)
    ensures ValidWarnings(SortByCode(warnings))
    ensures |PageText(subject, rows, complete, cursor, warnings)| ==
            |Heading(subject, |rows|, Matches(rows), complete, cursor)| + |UnitsText(FamilyOf(subject), [], rows)| +
            |WarningLines([], SortByCode(warnings))|
    ensures warnings == [] ==> WarningLines([], SortByCode(warnings)) == []
    ensures |WarningLines([], SortByCode(warnings))| <= WARNING_SUMMARY_MAX_BYTES
  {
    hide Heading, UnitsText, WarningLine;
    SummaryFits([], complete, warnings);
    WarningsLength(
      Heading(subject, |rows|, Matches(rows), complete, cursor) + UnitsText(FamilyOf(subject), [], rows),
          SortByCode(warnings));
  }

  // The path under which the last row was listed.
  function GroupAfter(grouped: Text, rows: seq<Row>): Text {
    if rows == [] then grouped else rows[|rows| - 1].path
  }

  lemma {:induction false} UnitsAppend(family: Family, grouped: Text, rows: seq<Row>, row: Row)
    ensures UnitsText(family, grouped, rows + [row]) ==
            UnitsText(family, grouped, rows) + UnitText(family, GroupAfter(grouped, rows), row)
    decreases |rows|
  {
    hide UnitText;
    if rows == [] {
      assert [] + [row] == [row] && [row][1..] == [];
      assert UnitText(family, grouped, row) + [] == [] + UnitText(family, grouped, row);
    } else {
      var path, rest := rows[0].path, rows[1..];
      UnitsAppend(family, path, rest, row);
      assert (rows + [row])[1..] == rest + [row];
      Joined(UnitText(family, grouped, rows[0]), UnitsText(family, path, rest),
             UnitText(family, GroupAfter(path, rest), row));
    }
  }

  // The line that names the path of the last row is on the page.
  lemma {:induction false} PathIsNamed(family: Family, rows: seq<Row>, row: Row)
    requires row.path != [] && Opens(family, [], row)
    ensures |UnitsText(family, [], rows + [row])| >= |GroupLine(row.path)| + |RowLine(family, row)|
    decreases |rows|
  {
    hide UnitsText, GroupLine, RowLine;
    UnitsAppend(family, [], rows, row);
    if rows != [] && rows[|rows| - 1].path == row.path {
      PathIsNamed(family, rows[..|rows| - 1], rows[|rows| - 1]);
      assert rows == rows[..|rows| - 1] + [rows[|rows| - 1]];
    }
  }

  // A row alone on a page takes no more than at the end of a longer one.
  lemma AloneIsSmaller(family: Family, rows: seq<Row>, row: Row)
    requires row.path != []
    ensures |UnitsText(family, [], [row])| <= |UnitsText(family, [], rows + [row])|
    ensures |UnitsText(family, [], rows)| <= |UnitsText(family, [], rows + [row])|
  {
    hide UnitsText, GroupLine, RowLine;
    UnitsAppend(family, [], rows, row);
    UnitsAppend(family, [], [], row);
    assert [] + [row] == [row];
    assert UnitsText(family, [], []) == [] by { NoRows(family); }
    if Opens(family, [], row) {
      PathIsNamed(family, rows, row);
    }
  }

  lemma NoRows(family: Family)
    ensures UnitsText(family, [], []) == [] && Matches([]) == 0
  {
  }

  lemma HeadingGrows(subject: Subject, rows: seq<Row>, row: Row, complete: bool, cursor: Text)
    ensures |Heading(subject, |rows|, Matches(rows), complete, cursor)| <=
            |Heading(subject, |rows + [row]|, Matches(rows + [row]), complete, cursor)|
    ensures |Heading(subject, 1, Matches([row]), complete, cursor)| <=
            |Heading(subject, |rows + [row]|, Matches(rows + [row]), complete, cursor)|
  {
    assert (rows + [row])[..|rows|] == rows && [row][..0] == [];
    assert Matches(rows + [row]) == Matches(rows) + Matches([row]);
    hide FormatUint, Subtitle, Matches;
    DigitsGrow(|rows|, |rows| + 1);
    DigitsGrow(1, |rows| + 1);
    DigitsGrow(Matches(rows), Matches(rows + [row]));
    DigitsGrow(Matches([row]), Matches(rows + [row]));
  }

  // The length of a partial page; the cursor it will get is as long as the placeholder.
  function PartialSize(subject: Subject, rows: seq<Row>): nat {
    |PageText(subject, rows, false, PLACEHOLDER, [])|
  }

  // One more row makes a page no smaller, and a row alone takes no more.
  lemma PartialGrows(subject: Subject, rows: seq<Row>, row: Row)
    requires row.path != []
    ensures PartialSize(subject, rows) <= PartialSize(subject, rows + [row])
    ensures PartialSize(subject, [row]) <= PartialSize(subject, rows + [row])
  {
    hide Heading, UnitsText, PageText, WarningLine, UnitText;
    PageLength(subject, rows, false, PLACEHOLDER, []);
    PageLength(subject, [row], false, PLACEHOLDER, []);
    PageLength(subject, rows + [row], false, PLACEHOLDER, []);
    HeadingGrows(subject, rows, row, false, PLACEHOLDER);
    AloneIsSmaller(FamilyOf(subject), rows, row);
  }

  // The size of a partial page does not depend on its cursor.
  lemma CursorIsFree(subject: Subject, rows: seq<Row>, cursor: Text)
    requires ValidCursor(cursor)
    ensures |PageText(subject, rows, false, cursor, [])| == PartialSize(subject, rows)
  {
    hide UnitsText, PageText, WarningLine, Subtitle, MatchesField, FormatUint;
    PageLength(subject, rows, false, cursor, []);
    PageLength(subject, rows, false, PLACEHOLDER, []);
  }

  // A summary alone takes no more than below rows.
  lemma SummaryAlone(subject: Subject, rows: seq<Row>, warnings: seq<Warning>)
    requires ValidSummary(true, warnings)
    ensures |PageText(subject, [], true, [], warnings)| <= |PageText(subject, rows, true, [], warnings)|
  {
    hide UnitsText, PageText, WarningLine, Subtitle, FormatUint, Matches;
    PageLength(subject, [], true, [], warnings);
    PageLength(subject, rows, true, [], warnings);
    NoRows(FamilyOf(subject));
    DigitsGrow(0, |rows|);
    DigitsGrow(0, Matches(rows));
  }

  // A complete page without warnings is smaller than the partial page of the same rows.
  lemma CompleteIsSmaller(subject: Subject, rows: seq<Row>)
    ensures |PageText(subject, rows, true, [], [])| <= PartialSize(subject, rows)
  {
    hide UnitsText, PageText, WarningLine, Subtitle, MatchesField, FormatUint;
    PageLength(subject, rows, true, [], []);
    PageLength(subject, rows, false, PLACEHOLDER, []);
  }

  lemma {:induction false} BodyBound(v: Text)
    ensures |Body(v)| <= 6 * |v|
  {
    hide Spelling;
    if v != [] { BodyBound(v[1..]); }
  }

  // A page without rows fits the output limit, whatever warnings it sums up.
  lemma EmptyPageFits(subject: Subject, complete: bool, cursor: Text, warnings: seq<Warning>)
    requires ValidSubject(subject) && ValidStatusCursor(complete, cursor) && ValidSummary(complete, warnings)
    ensures |PageText(subject, [], complete, cursor, warnings)| <= OUTPUT_MAX_BYTES
  {
    hide UnitsText, PageText, WarningLine, Body, ValidSummary, FormatUint;
    PageLength(subject, [], complete, cursor, warnings);
    NoRows(FamilyOf(subject));
    if subject.Project? { BodyBound(subject.path); }
    assert |FormatUint(0)| == 1 by { DigitsGrow(0, 1); ZeroDigits(); }
  }

  lemma ZeroDigits()
    ensures |FormatUint(0)| == 1
  {
  }

  // ---- The contract of results ----

  lemma MarkValid(family: Family, kind: RowKind)
    ensures Utf8.Valid(RowMark(family, kind))
  {
    AsciiIsValid(RowMark(family, kind));
  }

  lemma TextRowValid(row: Row)
    requires OneLine(row.text)
    ensures ValidLine(RowLine(SearchTexts, row))
  {
    hide FormatUint, RowMark, Utf8.Valid;
    var mark, number := RowMark(SearchTexts, row.kind), FormatUint(row.line);
    MarkValid(SearchTexts, row.kind);
    DigitsValid(row.line);
    ByteValid(TAB);
    ValidJoin(mark, number);
    ValidJoin([TAB], row.text);
    LineOf(mark + number, [TAB] + row.text);
    assert mark + number + ([TAB] + row.text) + [LF] == RowLine(SearchTexts, row);
  }

  lemma SymbolRowValid(row: Row)
    requires row.symbolKind in SYMBOL_KINDS && Utf8.Valid(row.name)
    ensures ValidLine(RowLine(SearchSymbols, row))
  {
    hide FormatUint, RowMark, Utf8.Valid, Quoted;
    var mark, start, end := RowMark(SearchSymbols, row.kind), FormatUint(row.start), FormatUint(row.end);
    MarkValid(SearchSymbols, row.kind);
    DigitsValid(row.start);
    DigitsValid(row.end);
    KindValid(row.symbolKind);
    ByteValid(TAB);
    ByteValid(0x3A);
    QuotedText(row.name);
    ValidJoin(start, [0x3A]);
    ValidJoin(start + [0x3A], end);
    ValidJoin(start + [0x3A] + end, [TAB]);
    ValidJoin(start + [0x3A] + end + [TAB], row.symbolKind);
    ValidJoin(start + [0x3A] + end + [TAB] + row.symbolKind, [TAB]);
    var front := start + [0x3A] + end + [TAB] + row.symbolKind + [TAB];
    ValidJoin(mark, front);
    LineOf(mark + front, Quoted(row.name));
    assert mark + front + Quoted(row.name) == mark + (front + Quoted(row.name));
  }

  lemma UnitValid(family: Family, grouped: Text, row: Row)
    requires ValidUnit(family, row)
    ensures ValidLine(UnitText(family, grouped, row))
  {
    hide RowMark, Utf8.Valid, Quoted, Ascii, FormatUint;
    MarkValid(family, row.kind);
    AsciiText("@\t");
    QuotedText(row.path);
    LineOf(Ascii("@\t"), Quoted(row.path));
    match family {
      case SearchTexts => TextRowValid(row);
      case SearchSymbols => SymbolRowValid(row);
      case _ => LineOf(RowMark(family, row.kind), Quoted(row.path));
    }
    if Opens(family, grouped, row) {
      LineEnds(GroupLine(row.path), RowLine(family, row));
    } else {
      assert [] + RowLine(family, row) == RowLine(family, row);
    }
  }

  lemma {:induction false} UnitsValid(out: Text, family: Family, grouped: Text, rows: seq<Row>)
    requires ValidLine(out) && forall k :: 0 <= k < |rows| ==> ValidUnit(family, rows[k])
    ensures ValidLine(out + UnitsText(family, grouped, rows))
    decreases |rows|
  {
    hide ValidLine, ValidUnit, UnitText;
    if rows == [] {
      assert out + [] == out;
    } else {
      var unit := UnitText(family, grouped, rows[0]);
      UnitValid(family, grouped, rows[0]);
      ContinuesLine(out, unit);
      UnitsValid(out + unit, family, rows[0].path, rows[1..]);
      Joined(out, unit, UnitsText(family, rows[0].path, rows[1..]));
    }
  }

  lemma PrefixValid(warning: Warning, omitted: nat)
    requires ValidWarning(warning)
    ensures ValidLine(WarningPrefix([], warning, omitted) + [LF]) && Utf8.Valid(WarningPrefix([], warning, omitted))
  {
    hide FormatUint, Utf8.Valid, Ascii;
    var lead, code, count := Ascii("!\t"), warning.code, FormatUint(warning.count);
    AsciiText("!\t");
    AsciiText("\tcount=");
    AsciiText("\tomitted=");
    CodeFacts(code);
    AsciiIsValid(code);
    DigitsValid(warning.count);
    DigitsValid(omitted);
    assert [] + lead == lead;
    ValidJoin(lead, code);
    ValidJoin(lead + code, Ascii("\tcount="));
    ValidJoin(lead + code + Ascii("\tcount="), count);
    ValidJoin(lead + code + Ascii("\tcount=") + count, Ascii("\tomitted="));
    ValidJoin(lead + code + Ascii("\tcount=") + count + Ascii("\tomitted="), FormatUint(omitted));
    LineOf(lead + code + Ascii("\tcount=") + count + Ascii("\tomitted="), FormatUint(omitted));
  }

  lemma WarningLineValid(warning: Warning)
    requires ValidWarning(warning)
    ensures ValidLine(WarningLine(warning))
  {
    hide WarningPrefix, Utf8.Valid, Quoted, Ascii, ValidLine;
    PrefixValid(warning, warning.count);
    if ValidPath(warning.path) {
      PrefixValid(warning, warning.count - 1);
      AsciiText("\tpath=");
      QuotedText(warning.path);
      ValidJoin(WarningPrefix([], warning, warning.count - 1), Ascii("\tpath="));
      LineOf(WarningPrefix([], warning, warning.count - 1) + Ascii("\tpath="), Quoted(warning.path));
    }
  }

  lemma {:induction false} LinesValid(out: Text, warnings: seq<Warning>)
    requires ValidLine(out) && ValidWarnings(warnings)
    ensures ValidLine(WarningLines(out, warnings))
    decreases |warnings|
  {
    hide ValidLine, WarningLine;
    if warnings != [] {
      WarningLineValid(warnings[0]);
      ContinuesLine(out, WarningLine(warnings[0]));
      LinesValid(out + WarningLine(warnings[0]), warnings[1..]);
    }
  }

  lemma SubtitleValid(subject: Subject)
    requires ValidSubject(subject)
    ensures Utf8.Valid(Subtitle(subject))
  {
    hide Utf8.Valid, Quoted, Ascii;
    if subject.Project? {
      AsciiText("@@project\t");
      QuotedText(subject.path);
      ValidJoin(Ascii("@@project\t"), Quoted(subject.path));
    } else {
      AsciiText("@@search\t");
      AsciiIsValid(ModeName(subject.mode));
      ValidJoin(Ascii("@@search\t"), ModeName(subject.mode));
    }
  }

  // The last field of the first line.
  lemma FieldsValid(subject: Subject, rows: nat, matches: nat, complete: bool, cursor: Text)
    requires ValidStatusCursor(complete, cursor)
    ensures
      var fields := FormatUint(rows) + MatchesField(subject, matches) + CursorField(complete, cursor);
      Utf8.Valid(fields) && fields != [] && fields[|fields| - 1] != LF
  {
    hide FormatUint, Utf8.Valid;
    var fields := FormatUint(rows) + MatchesField(subject, matches) + CursorField(complete, cursor);
    assert forall k :: 0 <= k < |MatchesField(subject, matches)| ==> MatchesField(subject, matches)[k] < 0x80;
    assert forall k :: 0 <= k < |CursorField(complete, cursor)| ==> CursorField(complete, cursor)[k] < 0x80;
    AsciiIsValid(fields);
    DigitsValid(rows);
    DigitsValid(matches);
  }

  lemma HeadingValid(subject: Subject, rows: nat, matches: nat, complete: bool, cursor: Text)
    requires ValidSubject(subject) && ValidStatusCursor(complete, cursor)
    ensures ValidLine(Heading(subject, rows, matches, complete, cursor))
  {
    hide FormatUint, Utf8.Valid, Subtitle, MatchesField, CursorField, Ascii, StatusName, ValidLine;
    var title, status, count := Subtitle(subject), StatusName(complete), Ascii("\trows=");
    var fields := FormatUint(rows) + MatchesField(subject, matches) + CursorField(complete, cursor);
    SubtitleValid(subject);
    ByteValid(TAB);
    StatusValid(complete);
    AsciiText("\trows=");
    FieldsValid(subject, rows, matches, complete, cursor);
    ValidJoin(title, [TAB]);
    ValidJoin(title + [TAB], status);
    ValidJoin(title + [TAB] + status, count);
    LineOf(title + [TAB] + status + count, fields);
    assert title + [TAB] + status + count + fields + [LF] == Heading(subject, rows, matches, complete, cursor);
  }

  lemma StatusValid(complete: bool)
    ensures Utf8.Valid(StatusName(complete))
  {
    AsciiIsValid(StatusName(complete));
  }

  // Every page that is presentable meets the contract, so checking it never fails a page.
  lemma PageIsValidResult(subject: Subject, rows: seq<Row>, complete: bool, cursor: Text, warnings: seq<Warning>)
    requires Presentable(subject, rows, complete, cursor, warnings)
    ensures ValidResult(PageText(subject, rows, complete, cursor, warnings))
  {
    hide Utf8.Valid, Heading, UnitsText, ValidUnit, WarningLine, ValidSubject, ValidStatusCursor;
    SummaryFits([], complete, warnings);
    var heading := Heading(subject, |rows|, Matches(rows), complete, cursor);
    HeadingValid(subject, |rows|, Matches(rows), complete, cursor);
    UnitsValid(heading, FamilyOf(subject), [], rows);
    LinesValid(heading + UnitsText(FamilyOf(subject), [], rows), SortByCode(warnings));
  }

  // ---- The order of a traversal ----

  // The order in which a traversal yields rows is the order a page wants them in: only the root
  // comes first regardless, and two texts of one line and kind could not both be shown.
  lemma OrdersAgree(family: Family, l: Row, r: Row)
    requires ValidUnit(family, l) && ValidUnit(family, r) && CompareRows(l, r) < 0
    ensures CompareShown(family, l, r) < 0
         || (family == ProjectEntries && l.path != ROOT && r.path == ROOT)
         || (family == SearchTexts && l.path == r.path && l.line == r.line && l.kind == r.kind)
  {
    TextZero(l.path, r.path);
    TextZero(l.symbolKind, r.symbolKind);
  }

  // No line is found twice in the same way.
  predicate TextsDiffer(rows: seq<Row>) {
    forall i, j :: 0 <= i < j < |rows| ==>
      rows[i].path != rows[j].path || rows[i].line != rows[j].line || rows[i].kind != rows[j].kind
  }

  lemma TraversalOrder(family: Family, rows: seq<Row>)
    requires Ascending(rows) && forall k :: 0 <= k < |rows| ==> ValidUnit(family, rows[k])
    requires family == ProjectEntries ==> forall k :: 0 < k < |rows| ==>
      rows[k].path != ROOT || rows[k - 1].path == ROOT
    requires family == SearchTexts ==> TextsDiffer(rows)
    ensures ValidUnits(family, rows)
  {
    hide ValidUnit, CompareRows, CompareShown;
    forall k | 0 < k < |rows| ensures CompareShown(family, rows[k - 1], rows[k]) < 0 {
      OrdersAgree(family, rows[k - 1], rows[k]);
    }
  }
}
