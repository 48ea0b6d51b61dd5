// Reading back a project or search page: from its bytes alone a client gets the subject, the
// status, the counts, the cursor, exactly the rows that the page shows and its warnings.
module BroadReading {
  import opened Utf8
  import opened TextOrder
  import opened Magnitude
  import opened JsonCodec
  import opened PageFields
  import opened Vocabulary
  import opened ResultText
  import opened RowOrder
  import opened BroadWarnings
  import opened BroadPage
  import opened LineReading

  // What one line of a page says.
  datatype Entry =
    | PageEntry(subject: Subject, complete: bool, rows: nat, matches: nat, cursor: Text)
    | GroupEntry(path: Text)
    | RowEntry(row: Row)
    | WarningEntry(code: Text, count: nat, omitted: nat, path: Text)
    | Unreadable

  // ---- What a page is to say ----

  // A row stands in its group; rows of entries name their path themselves.
  function UnitEntries(family: Family, grouped: Text, row: Row): seq<Entry> {
    (if Opens(family, grouped, row) then [GroupEntry(row.path)] else [])
    + [RowEntry(if family == SearchTexts || family == SearchSymbols then row.(path := []) else row)]
  }

  function UnitsEntries(family: Family, grouped: Text, rows: seq<Row>): seq<Entry>
    decreases |rows|
  {
    if rows == [] then []
    else UnitEntries(family, grouped, rows[0]) + UnitsEntries(family, rows[0].path, rows[1..])
  }

  // The rows that entries tell of: each belongs to the group that was opened last.
  function RowsTold(family: Family, grouped: Text, entries: seq<Entry>): seq<Row>
    decreases |entries|
  {
    if entries == [] then []
    else if entries[0].GroupEntry? then RowsTold(family, entries[0].path, entries[1..])
    else if entries[0].RowEntry? then
      var row := entries[0].row;
      [if family == SearchTexts || family == SearchSymbols then row.(path := grouped) else row]
      + RowsTold(family, grouped, entries[1..])
    else RowsTold(family, grouped, entries[1..])
  }

  // A warning tells its code, how often it occurred, and either a path or that all occurrences
  // were left out.
  function ShownWarning(warning: Warning): Entry
    requires warning.count != 0
  {
    if ValidPath(warning.path) && |WithPath(warning)| <= WARNING_LINE_MAX_BYTES then
      WarningEntry(warning.code, warning.count, warning.count - 1, warning.path)
    else WarningEntry(warning.code, warning.count, warning.count, [])
  }

  function WarningEntries(warnings: seq<Warning>): (entries: seq<Entry>)
    requires ValidWarnings(warnings)
  {
    seq(|warnings|, k requires 0 <= k < |warnings| => ShownWarning(warnings[k]))
  }

  // ---- The reader ----

  ghost function ReadPageEntry(f: seq<Text>): Entry {
    if |f| < 4 then Unreadable
    else
      var project := f[0] == Word("@@project");
      var mode := if f[1] == Word("file") then SearchFiles else if f[1] == Word("text") then SearchTexts
          else SearchSymbols;
      var subject := if project then Project(Unquoted(f[1])) else Search(mode);
      var texts := subject == Search(SearchTexts);
      var left := if texts then 5 else 4;
      PageEntry(subject, f[2] == Word("complete"), Number(Value(f[3], Word("rows="))),
                if texts && |f| > 4 then Number(Value(f[4], Word("matches="))) else 0,
                if |f| > left then Value(f[left], Word("cursor=")) else [])
  }

  ghost function ReadWarning(f: seq<Text>): Entry {
    if |f| < 4 then Unreadable
    else
      WarningEntry(f[1], Number(Value(f[2], Word("count="))), Number(Value(f[3], Word("omitted="))),
                   if |f| == 5 then Unquoted(Value(f[4], Word("path="))) else [])
  }

  const EMPTY_ROW := Row(RowFile, [], 0, [], 0, 0, [], [])

  // A line of text is cut at its first two tabs; every other line is made of fields.
  ghost function ReadEntry(family: Family, line: Text): Entry {
    var f, mark := Fields(line), Until(line, TAB);
    if mark == Word("@@project") || mark == Word("@@search") then ReadPageEntry(f)
    else if mark == Word("!") then ReadWarning(f)
    else if mark == Word("@") then if |f| == 2 then GroupEntry(Unquoted(f[1])) else Unreadable
    else if family == SearchTexts then
      var rest := Beyond(line, TAB);
      RowEntry(EMPTY_ROW.(kind := if mark == Word("M") then RowTextMatch else RowTextContext,
                          line := Number(Until(rest, TAB)), text := Beyond(rest, TAB)))
    else if family == SearchSymbols then
      if |f| != 4 then Unreadable
      else
        RowEntry(EMPTY_ROW.(kind := RowSymbol, start := Number(Until(f[1], 0x3A)), end := Number(Beyond(f[1], 0x3A)),
                            symbolKind := f[2], name := Unquoted(f[3])))
    else if |f| != 2 then Unreadable
    else RowEntry(EMPTY_ROW.(kind := if mark == Word("D") then RowDirectory else RowFile, path := Unquoted(f[1])))
  }

  // What the lines of a text say, in order.
  ghost function Entries(family: Family, text: Text): (entries: seq<Entry>)
    ensures |entries| == |Lines(text)|
    ensures forall k :: 0 <= k < |entries| ==> entries[k] == ReadEntry(family, Lines(text)[k])
  {
    var lines := Lines(text);
    seq(|lines|, k requires 0 <= k < |lines| => ReadEntry(family, lines[k]))
  }

  lemma EntriesMore(family: Family, out: Text, line: Text)
    requires Whole(out) && LF !in line
    ensures Whole(out + line + [LF])
    ensures Entries(family, out + line + [LF]) == Entries(family, out) + [ReadEntry(family, line)]
  {
    hide Lines, ReadEntry;
    LinesMore(out, line);
  }

  // ---- Words ----

  // The marks that lines start with are different.
  lemma MarksDiffer()
    ensures |Word("@@project")| == 9 && |Word("@@search")| == 8
    ensures |Word("@")| == |Word("!")| == |Word("M")| == |Word("C")| == |Word("D")| == |Word("F")| == |Word("S")| == 1
    ensures Word("@")[0] == 0x40 && Word("!")[0] == 0x21 && Word("M")[0] == 0x4D && Word("C")[0] == 0x43
    ensures Word("D")[0] == 0x44 && Word("F")[0] == 0x46 && Word("S")[0] == 0x53
  {
  }

  lemma RowMarkIs(family: Family, kind: RowKind)
    ensures RowMark(family, kind) == RowWord(family, kind) + [TAB] && Inline(RowWord(family, kind))
  {
  }

  // The mark of a row, without its tab.
  function RowWord(family: Family, kind: RowKind): Text {
    match family
    case ProjectEntries => if kind == RowDirectory then Word("D") else Word("F")
    case SearchFiles => Word("F")
    case SearchTexts => if kind == RowTextMatch then Word("M") else Word("C")
    case SearchSymbols => Word("S")
  }

  lemma RowWordDiffers(family: Family, kind: RowKind)
    ensures var w := RowWord(family, kind);
            && w != Word("@@project") && w != Word("@@search") && w != Word("!") && w != Word("@")
            && (family == SearchTexts ==> (w == Word("M") <==> kind == RowTextMatch))
            && (family == ProjectEntries ==> (w == Word("D") <==> kind == RowDirectory))
            && (family == SearchFiles ==> w != Word("D"))
  {
    hide Word;
    MarksDiffer();
  }

  // The first field of a line is what comes before its first tab.
  lemma FirstField(line: Text)
    ensures Fields(line)[0] == Until(line, TAB)
  {
    if TAB !in line { NoCut(line, TAB); }
  }

  // ---- Rows ----

  lemma TextReads(out: Text, row: Row)
    requires Whole(out) && ValidUnit(SearchTexts, row)
    ensures Whole(out + RowLine(SearchTexts, row))
    ensures Entries(SearchTexts, out + RowLine(SearchTexts, row))
              == Entries(SearchTexts, out) + [RowEntry(row.(path := []))]
  {
    hide Entries, FormatUint, Until, Beyond, Word, RowMark, Inline, ReadEntry, ValidPath, Number;
    var mark, number := RowWord(SearchTexts, row.kind), FormatUint(row.line);
    RowMarkIs(SearchTexts, row.kind);
    RowWordDiffers(SearchTexts, row.kind);
    DigitsInline(row.line);
    InlineHas(mark);
    InlineHas(number);
    var rest := number + [TAB] + row.text;
    var line := mark + [TAB] + rest;
    CutAt(mark, TAB, rest);
    CutAt(number, TAB, row.text);
    NumberOf(row.line);
    TextLineJoined(out, mark, number, row.text);
    EntriesMore(SearchTexts, out, line);
    TextEntry(line, row);
  }

  lemma TextEntry(line: Text, row: Row)
    requires ValidUnit(SearchTexts, row) && Until(line, TAB) == RowWord(SearchTexts, row.kind)
    requires Number(Until(Beyond(line, TAB), TAB)) == row.line && Beyond(Beyond(line, TAB), TAB) == row.text
    ensures ReadEntry(SearchTexts, line) == RowEntry(row.(path := []))
  {
    hide Until, Beyond, Number, Fields, Word, RowWord, ValidPath, OneLine;
    RowWordDiffers(SearchTexts, row.kind);
  }

  lemma TextLineJoined(out: Text, mark: Text, number: Text, text: Text)
    ensures out + (mark + [TAB] + (number + [TAB] + text) + [LF])
            == out + (mark + [TAB] + (number + [TAB] + text)) + [LF]
  {
  }

  // A line of fields.
  lemma FieldsRead(family: Family, out: Text, fields: seq<Text>)
    requires Whole(out) && fields != [] && forall k :: 0 <= k < |fields| ==> Inline(fields[k])
    ensures Whole(out + Tabbed(fields) + [LF]) && Fields(Tabbed(fields)) == fields
    ensures Until(Tabbed(fields), TAB) == fields[0]
    ensures Entries(family, out + Tabbed(fields) + [LF]) == Entries(family, out) + [ReadEntry(family, Tabbed(fields))]
  {
    hide Entries, ReadEntry, Inline, Until, Fields;
    TabbedFields(fields);
    FirstField(Tabbed(fields));
    EntriesMore(family, out, Tabbed(fields));
  }

  lemma TwoFields(f: seq<Text>)
    requires |f| == 2
    ensures Tabbed(f) == f[0] + [TAB] + f[1]
  {
    assert Tabbed(f[..1]) == f[0];
  }

  // A range of lines is read back from its two numbers.
  lemma RangeReads(start: nat, end: nat)
    ensures var range := FormatUint(start) + [0x3A] + FormatUint(end);
            && Inline(range) && Number(Until(range, 0x3A)) == start && Number(Beyond(range, 0x3A)) == end
  {
    hide FormatUint, Until, Beyond, Number, Inline;
    DigitsInline(start);
    DigitsInline(end);
    NoColon(start);
    CutAt(FormatUint(start), 0x3A, FormatUint(end));
    NumberOf(start);
    NumberOf(end);
    InlineJoin(FormatUint(start), [0x3A]) by { InlineColon(); }
    InlineJoin(FormatUint(start) + [0x3A], FormatUint(end));
  }

  lemma InlineColon()
    ensures Inline([0x3A])
  {
  }

  lemma NoColon(n: nat)
    ensures 0x3A !in FormatUint(n)
  {
    hide FormatUint, Val;
    var digits := FormatUint(n);
    assert forall k :: 0 <= k < |digits| ==> IsDigitByte(digits[k]);
  }

  predicate IsDigitByte(b: Byte) { 0x30 <= b <= 0x39 }

  function SymbolRow(row: Row): seq<Text> {
    [Word("S"), FormatUint(row.start) + [0x3A] + FormatUint(row.end), row.symbolKind, Quoted(row.name)]
  }

  lemma SymbolReads(out: Text, row: Row)
    requires Whole(out) && ValidUnit(SearchSymbols, row)
    ensures Whole(out + RowLine(SearchSymbols, row))
    ensures Entries(SearchSymbols, out + RowLine(SearchSymbols, row))
              == Entries(SearchSymbols, out) + [RowEntry(row.(path := []))]
  {
    hide Entries, FormatUint, Until, Beyond, Word, RowMark, Inline, ReadEntry, ValidPath, Number, Quoted, Tabbed;
    hide SYMBOL_KINDS, Utf8.Valid, Unquoted, Fields;
    var f := SymbolRow(row);
    RowMarkIs(SearchSymbols, row.kind);
    RangeReads(row.start, row.end);
    KindInline(row.symbolKind);
    QuotedInline(row.name);
    UnquotedOf(row.name);
    FourFields(f);
    SymbolLineJoined(out, Word("S"), FormatUint(row.start), FormatUint(row.end), row.symbolKind, Quoted(row.name));
    FieldsRead(SearchSymbols, out, f);
    SymbolEntry(Tabbed(f), f, row);
  }

  lemma SymbolEntry(line: Text, f: seq<Text>, row: Row)
    requires ValidUnit(SearchSymbols, row) && Fields(line) == f && |f| == 4 && Until(line, TAB) == Word("S")
    requires Number(Until(f[1], 0x3A)) == row.start && Number(Beyond(f[1], 0x3A)) == row.end
    requires f[2] == row.symbolKind && Unquoted(f[3]) == row.name
    ensures ReadEntry(SearchSymbols, line) == RowEntry(row.(path := []))
  {
    hide Until, Beyond, Number, Fields, Word, ValidPath, SYMBOL_KINDS, Utf8.Valid, Unquoted;
    RowWordDiffers(SearchSymbols, row.kind);
  }

  lemma SymbolLineJoined(out: Text, mark: Text, start: Text, end: Text, kind: Text, name: Text)
    ensures out + (mark + [TAB] + (start + [0x3A] + end + [TAB] + kind + [TAB] + name) + [LF])
            == out + (mark + [TAB] + (start + [0x3A] + end) + [TAB] + kind + [TAB] + name) + [LF]
  {
  }

  lemma PathReads(family: Family, out: Text, row: Row)
    requires Whole(out) && ValidUnit(family, row) && (family == ProjectEntries || family == SearchFiles)
    ensures Whole(out + RowLine(family, row))
    ensures Entries(family, out + RowLine(family, row)) == Entries(family, out) + [RowEntry(row)]
  {
    hide Entries, Until, Beyond, Word, RowMark, Inline, ReadEntry, Number, Quoted, Tabbed, RowWord;
    hide Utf8.Valid, Unquoted, Fields;
    var f := [RowWord(family, row.kind), Quoted(row.path)];
    RowMarkIs(family, row.kind);
    QuotedInline(row.path);
    UnquotedOf(row.path);
    TwoFields(f);
    PathLineJoined(out, RowWord(family, row.kind), Quoted(row.path));
    FieldsRead(family, out, f);
    PathEntry(family, Tabbed(f), f, row);
  }

  lemma PathEntry(family: Family, line: Text, f: seq<Text>, row: Row)
    requires ValidUnit(family, row) && (family == ProjectEntries || family == SearchFiles)
    requires Fields(line) == f && |f| == 2 && Until(line, TAB) == RowWord(family, row.kind)
             && Unquoted(f[1]) == row.path
    ensures ReadEntry(family, line) == RowEntry(row)
  {
    hide Until, Beyond, Number, Fields, Word, ValidPath, RowWord, Unquoted;
    RowWordDiffers(family, row.kind);
  }

  lemma PathLineJoined(out: Text, mark: Text, path: Text)
    ensures out + (mark + [TAB] + path + [LF]) == out + (mark + [TAB] + path) + [LF]
  {
  }

  lemma GroupReads(family: Family, out: Text, path: Text)
    requires Whole(out) && Utf8.Valid(path)
    ensures Whole(out + GroupLine(path))
    ensures Entries(family, out + GroupLine(path)) == Entries(family, out) + [GroupEntry(path)]
  {
    hide Entries, Until, Beyond, Word, Inline, ReadEntry, Quoted, Tabbed, Utf8.Valid, Unquoted, Fields, Ascii;
    var f := [Word("@"), Quoted(path)];
    WordInline("@");
    GroupMark();
    QuotedInline(path);
    UnquotedOf(path);
    TwoFields(f);
    PathLineJoined(out, Word("@"), Quoted(path));
    FieldsRead(family, out, f);
    GroupIsRead(family, Tabbed(f), f);
  }

  lemma GroupMark()
    ensures Ascii("@\t") == Word("@") + [TAB]
  {
  }

  lemma GroupIsRead(family: Family, line: Text, f: seq<Text>)
    requires Fields(line) == f && |f| == 2 && Until(line, TAB) == Word("@")
    ensures ReadEntry(family, line) == GroupEntry(Unquoted(f[1]))
  {
    hide Until, Beyond, Number, Fields, Word, Unquoted;
    MarksDiffer();
  }

  lemma RowReads(family: Family, out: Text, row: Row)
    requires Whole(out) && ValidUnit(family, row)
    ensures Whole(out + RowLine(family, row))
    ensures Entries(family, out + RowLine(family, row))
              == Entries(family, out)
                 + [RowEntry(if family == SearchTexts || family == SearchSymbols then row.(path := []) else row)]
  {
    hide Entries, RowLine, ValidUnit, Whole;
    match family {
      case SearchTexts => TextReads(out, row);
      case SearchSymbols => SymbolReads(out, row);
      case _ => PathReads(family, out, row);
    }
  }

  lemma UnitReads(family: Family, out: Text, grouped: Text, row: Row)
    requires Whole(out) && ValidUnit(family, row)
    ensures Whole(out + UnitText(family, grouped, row))
    ensures Entries(family, out + UnitText(family, grouped, row))
              == Entries(family, out) + UnitEntries(family, grouped, row)
  {
    hide Entries, RowLine, ValidUnit, Whole, GroupLine;
    if Opens(family, grouped, row) {
      PathIsValid(family, row);
      GroupReads(family, out, row.path);
      RowReads(family, out + GroupLine(row.path), row);
      assert out + GroupLine(row.path) + RowLine(family, row) == out + (GroupLine(row.path) + RowLine(family, row));
    } else {
      RowReads(family, out, row);
      assert [] + RowLine(family, row) == RowLine(family, row);
    }
  }

  lemma PathIsValid(family: Family, row: Row)
    requires ValidUnit(family, row)
    ensures Utf8.Valid(row.path)
  {
  }

  lemma {:induction false} UnitsRead(family: Family, out: Text, grouped: Text, rows: seq<Row>)
    requires Whole(out) && forall k :: 0 <= k < |rows| ==> ValidUnit(family, rows[k])
    ensures Whole(out + UnitsText(family, grouped, rows))
    ensures Entries(family, out + UnitsText(family, grouped, rows))
              == Entries(family, out) + UnitsEntries(family, grouped, rows)
    decreases |rows|
  {
    hide Entries, UnitText, ValidUnit, Whole, UnitEntries;
    if rows == [] {
      assert out + [] == out && Entries(family, out) + [] == Entries(family, out);
    } else {
      var unit, rest := UnitText(family, grouped, rows[0]), UnitsText(family, rows[0].path, rows[1..]);
      UnitReads(family, out, grouped, rows[0]);
      UnitsRead(family, out + unit, rows[0].path, rows[1..]);
      assert out + unit + rest == out + (unit + rest);
      Regrouped(Entries(family, out), UnitEntries(family, grouped, rows[0]),
                UnitsEntries(family, rows[0].path, rows[1..]));
    }
  }

  lemma Regrouped(a: seq<Entry>, b: seq<Entry>, c: seq<Entry>)
    ensures a + b + c == a + (b + c)
  {
  }

  lemma TellGroup(family: Family, grouped: Text, path: Text, tail: seq<Entry>)
    ensures RowsTold(family, grouped, [GroupEntry(path)] + tail) == RowsTold(family, path, tail)
  {
    assert ([GroupEntry(path)] + tail)[1..] == tail;
  }

  lemma TellRow(family: Family, grouped: Text, row: Row, tail: seq<Entry>)
    ensures RowsTold(family, grouped, [RowEntry(row)] + tail)
              == [if family == SearchTexts || family == SearchSymbols then row.(path := grouped) else row]
                 + RowsTold(family, grouped, tail)
  {
    assert ([RowEntry(row)] + tail)[1..] == tail;
  }

  lemma UnitTold(family: Family, grouped: Text, row: Row, tail: seq<Entry>)
    ensures RowsTold(family, grouped, UnitEntries(family, grouped, row) + tail)
              == [row] + RowsTold(family, row.path, tail)
  {
    hide RowsTold;
    var told := if family == SearchTexts || family == SearchSymbols then row.(path := []) else row;
    if Opens(family, grouped, row) {
      assert UnitEntries(family, grouped, row) + tail == [GroupEntry(row.path)] + ([RowEntry(told)] + tail);
      TellGroup(family, grouped, row.path, [RowEntry(told)] + tail);
      TellRow(family, row.path, told, tail);
    } else {
      assert UnitEntries(family, grouped, row) + tail == [RowEntry(told)] + tail;
      TellRow(family, grouped, told, tail);
      if family != SearchTexts && family != SearchSymbols { GroupsMatterNot(family, grouped, row.path, tail); }
    }
  }

  // From its entries the rows of a page are told again, each under its own path.
  lemma {:induction false} RowsToldAgain(family: Family, grouped: Text, rows: seq<Row>, more: seq<Entry>)
    requires forall k :: 0 <= k < |more| ==> more[k].WarningEntry?
    ensures RowsTold(family, grouped, UnitsEntries(family, grouped, rows) + more) == rows
    decreases |rows|
  {
    hide UnitEntries, RowsTold;
    if rows == [] {
      assert UnitsEntries(family, grouped, rows) + more == more;
      NoRowsTold(family, grouped, more);
    } else {
      var unit, rest := UnitEntries(family, grouped, rows[0]), UnitsEntries(family, rows[0].path, rows[1..]);
      RowsToldAgain(family, rows[0].path, rows[1..], more);
      Regrouped(unit, rest, more);
      UnitTold(family, grouped, rows[0], rest + more);
      assert [rows[0]] + rows[1..] == rows;
    }
  }

  lemma {:induction false} GroupsMatterNot(family: Family, a: Text, b: Text, entries: seq<Entry>)
    requires family != SearchTexts && family != SearchSymbols
    ensures RowsTold(family, a, entries) == RowsTold(family, b, entries)
    decreases |entries|
  {
    if entries != [] && !entries[0].GroupEntry? {
      GroupsMatterNot(family, a, b, entries[1..]);
    }
  }

  lemma {:induction false} NoRowsTold(family: Family, grouped: Text, more: seq<Entry>)
    requires forall k :: 0 <= k < |more| ==> more[k].WarningEntry?
    ensures RowsTold(family, grouped, more) == []
    decreases |more|
  {
    if more != [] {
      NoRowsTold(family, grouped, more[1..]);
    }
  }

  // ---- Warnings ----

  lemma WarningWords()
    ensures Ascii("!\t") == Word("!") + [TAB] && Ascii("\tcount=") == [TAB] + Word("count=")
    ensures Ascii("\tomitted=") == [TAB] + Word("omitted=") && Ascii("\tpath=") == [TAB] + Word("path=")
  {
  }

  function WarningFields(warning: Warning, omitted: nat): seq<Text> {
    [Word("!"), warning.code, Word("count=") + FormatUint(warning.count), Word("omitted=") + FormatUint(omitted)]
  }

  lemma WarningFieldsInline(warning: Warning, omitted: nat)
    requires ValidWarning(warning)
    ensures forall k :: 0 <= k < 4 ==> Inline(WarningFields(warning, omitted)[k])
    ensures Inline(Word("path=") + Quoted(warning.path))
  {
    hide Inline, Word, FormatUint, WARNING_CODES, Quoted;
    WordInline("!");
    WarningInline(warning.code);
    NamedInline("count=", warning.count);
    NamedInline("omitted=", omitted);
    WordInline("path=");
    QuotedInline(warning.path);
    InlineJoin(Word("path="), Quoted(warning.path));
  }

  lemma WarningIsRead(family: Family, line: Text, f: seq<Text>)
    requires Fields(line) == f && |f| >= 4 && Until(line, TAB) == Word("!")
    ensures ReadEntry(family, line) == ReadWarning(f)
  {
    hide Until, Beyond, Number, Fields, Word, Unquoted, Value, ReadWarning;
    MarksDiffer();
  }

  lemma PathlessReads(family: Family, out: Text, warning: Warning)
    requires Whole(out) && ValidWarning(warning)
    ensures Whole(out + Pathless(warning))
    ensures Entries(family, out + Pathless(warning))
              == Entries(family, out) + [WarningEntry(warning.code, warning.count, warning.count, [])]
  {
    hide Entries, Until, Beyond, Word, Inline, ReadEntry, Quoted, Tabbed, Utf8.Valid, Unquoted, Fields, Ascii, Value;
    hide WARNING_CODES, FormatUint, Number;
    var f := WarningFields(warning, warning.count);
    WarningWords();
    WarningFieldsInline(warning, warning.count);
    FourFields(f);
    PathlessJoined(out, Word("!"), warning.code, Word("count="), FormatUint(warning.count), Word("omitted="));
    FieldsRead(family, out, f);
    WarningIsRead(family, Tabbed(f), f);
    ValueOf(Word("count="), FormatUint(warning.count));
    ValueOf(Word("omitted="), FormatUint(warning.count));
    NumberOf(warning.count);
  }

  lemma PathlessJoined(out: Text, mark: Text, code: Text, counted: Text, n: Text, omitted: Text)
    ensures out + ([] + (mark + [TAB]) + code + ([TAB] + counted) + n + ([TAB] + omitted) + n + [LF])
            == out + (mark + [TAB] + code + [TAB] + (counted + n) + [TAB] + (omitted + n)) + [LF]
  {
  }

  function PathFields(warning: Warning): seq<Text>
    requires warning.count != 0
  {
    [Word("!"), warning.code, Word("count=") + FormatUint(warning.count),
     Word("omitted=") + FormatUint(warning.count - 1),
     Word("path=") + Quoted(warning.path)]
  }

  lemma WithPathText(out: Text, warning: Warning)
    requires warning.count != 0
    ensures out + WithPath(warning) == out + Tabbed(PathFields(warning)) + [LF]
  {
    hide Tabbed, Word, Ascii, FormatUint, Quoted;
    WarningWords();
    FiveFields(PathFields(warning));
    WithPathJoined(out, Word("!"), warning.code, Word("count="), FormatUint(warning.count), Word("omitted="),
                   FormatUint(warning.count - 1), Word("path="), Quoted(warning.path));
  }

  lemma PathFieldsSay(warning: Warning)
    requires warning.count != 0 && Utf8.Valid(warning.path)
    ensures ReadWarning(PathFields(warning))
              == WarningEntry(warning.code, warning.count, warning.count - 1, warning.path)
  {
    hide Word, FormatUint, Quoted, Number, Value, Unquoted, Utf8.Valid;
    ValueOf(Word("count="), FormatUint(warning.count));
    ValueOf(Word("omitted="), FormatUint(warning.count - 1));
    ValueOf(Word("path="), Quoted(warning.path));
    UnquotedOf(warning.path);
    NumberOf(warning.count);
    NumberOf(warning.count - 1);
  }

  lemma WithPathReads(family: Family, out: Text, warning: Warning)
    requires Whole(out) && ValidWarning(warning) && Utf8.Valid(warning.path)
    ensures Whole(out + WithPath(warning))
    ensures Entries(family, out + WithPath(warning))
              == Entries(family, out) + [WarningEntry(warning.code, warning.count, warning.count - 1, warning.path)]
  {
    hide Entries, Until, Beyond, Word, Inline, ReadEntry, Quoted, Tabbed, Utf8.Valid, Fields, WithPath, ReadWarning;
    hide WARNING_CODES, FormatUint, Whole;
    var f := PathFields(warning);
    WithPathText(out, warning);
    WarningFieldsInline(warning, warning.count - 1);
    PathFieldsInline(warning);
    FieldsRead(family, out, f);
    WarningIsRead(family, Tabbed(f), f);
    PathFieldsSay(warning);
  }

  lemma PathFieldsInline(warning: Warning)
    requires ValidWarning(warning)
    ensures forall k :: 0 <= k < 5 ==> Inline(PathFields(warning)[k])
  {
    hide Inline, Word, FormatUint, WARNING_CODES, Quoted;
    WarningFieldsInline(warning, warning.count - 1);
    var w := WarningFields(warning, warning.count - 1);
    assert PathFields(warning)[0] == w[0] && PathFields(warning)[1] == w[1];
    assert PathFields(warning)[2] == w[2] && PathFields(warning)[3] == w[3];
  }

  lemma WithPathJoined(out: Text, mark: Text, code: Text, counted: Text, n: Text, omitted: Text, m: Text, about: Text,
                       path: Text)
    ensures out + ([] + (mark + [TAB]) + code + ([TAB] + counted) + n + ([TAB] + omitted) + m + ([TAB] + about) + path
            + [LF])
            == out + (mark + [TAB] + code + [TAB] + (counted + n) + [TAB] + (omitted + m) + [TAB] + (about + path))
              + [LF]
  {
  }

  lemma WarningReads(family: Family, out: Text, warning: Warning)
    requires Whole(out) && ValidWarning(warning)
    ensures Whole(out + WarningLine(warning))
    ensures Entries(family, out + WarningLine(warning)) == Entries(family, out) + [ShownWarning(warning)]
  {
    hide Entries, Whole, WithPath, Pathless, Utf8.Valid, WARNING_CODES;
    PathlessReads(family, out, warning);
    if ValidPath(warning.path) { WithPathReads(family, out, warning); }
  }

  lemma {:induction false} WarningsRead(family: Family, out: Text, warnings: seq<Warning>)
    requires Whole(out) && ValidWarnings(warnings)
    ensures Whole(WarningLines(out, warnings))
    ensures Entries(family, WarningLines(out, warnings)) == Entries(family, out) + WarningEntries(warnings)
    decreases |warnings|
  {
    hide Entries, Whole, WarningLine, ValidWarning, ShownWarning;
    if warnings == [] {
      assert Entries(family, out) + WarningEntries([]) == Entries(family, out);
    } else {
      ValidHere(warnings, 0);
      WarningReads(family, out, warnings[0]);
      WarningsRead(family, out + WarningLine(warnings[0]), warnings[1..]);
      assert WarningEntries(warnings) == [ShownWarning(warnings[0])] + WarningEntries(warnings[1..]);
      Regrouped(Entries(family, out), [ShownWarning(warnings[0])], WarningEntries(warnings[1..]));
    }
  }

  lemma ValidHere(warnings: seq<Warning>, k: nat)
    requires ValidWarnings(warnings) && k < |warnings|
    ensures ValidWarning(warnings[k]) && warnings[k].count != 0
  {
  }

  // ---- Pages ----

  // The matches of a page are its rows of that kind.
  lemma {:induction false} MatchesCount(rows: seq<Row>)
    ensures Matches(rows) == |MatchesAt(rows)|
  {
    if rows != [] {
      var front := rows[..|rows| - 1];
      MatchesCount(front);
      LastMatch(rows);
    }
  }

  function MatchesAt(rows: seq<Row>): set<nat> {
    set k: nat | k < |rows| && rows[k].kind == RowTextMatch
  }

  lemma LastMatch(rows: seq<Row>)
    requires rows != []
    ensures var front, last := rows[..|rows| - 1], |rows| - 1;
            && last !in MatchesAt(front)
            && MatchesAt(rows) == MatchesAt(front) + (if rows[last].kind == RowTextMatch then {last} else {})
  {
  }

  lemma SubjectWords()
    ensures Ascii("@@project\t") == Word("@@project") + [TAB] && Ascii("@@search\t") == Word("@@search") + [TAB]
  {
  }

  lemma PageWords()
    ensures Ascii("\trows=") == [TAB] + Word("rows=") && Ascii("\tmatches=") == [TAB] + Word("matches=")
    ensures Ascii("\tcursor=") == [TAB] + Word("cursor=")
  {
  }

  lemma ModeWords(mode: Family)
    requires mode != ProjectEntries
    ensures Inline(ModeName(mode))
    ensures ModeName(mode) == Word("file") <==> mode == SearchFiles
    ensures ModeName(mode) == Word("text") <==> mode == SearchTexts
  {
    assert Word("file")[0] == 0x66 && Word("text")[0] == 0x74 && Word("symbol")[0] == 0x73;
  }

  lemma StatusWords(complete: bool)
    ensures (StatusName(complete) == Word("complete") <==> complete) && Inline(StatusName(complete))
  {
    assert |Word("complete")| == 8 && |Word("partial")| == 7;
  }

  function SubjectFields(subject: Subject): (f: seq<Text>)
    ensures |f| == 2
  {
    if subject.Project? then [Word("@@project"), Quoted(subject.path)] else [Word("@@search"), ModeName(subject.mode)]
  }

  function PageFieldsOf(subject: Subject, rows: nat, matches: nat, complete: bool, cursor: Text): seq<Text> {
    SubjectFields(subject) + [StatusName(complete), Word("rows=") + FormatUint(rows)]
    + (if subject == Search(SearchTexts) then [Word("matches=") + FormatUint(matches)] else [])
    + (if complete then [] else [Word("cursor=") + cursor])
  }

  lemma TabbedMore(fields: seq<Text>, field: Text)
    requires fields != []
    ensures Tabbed(fields + [field]) == Tabbed(fields) + [TAB] + field
  {
    assert (fields + [field])[..|fields|] == fields;
  }

  // The first line, field by field.
  lemma HeadingText(subject: Subject, rows: nat, matches: nat, complete: bool, cursor: Text)
    ensures Heading(subject, rows, matches, complete, cursor)
              == [] + Tabbed(PageFieldsOf(subject, rows, matches, complete, cursor)) + [LF]
  {
    hide FormatUint, Tabbed, Ascii, Word, StatusName, ModeName, Quoted;
    SubjectWords();
    PageWords();
    var four := SubjectFields(subject) + [StatusName(complete), Word("rows=") + FormatUint(rows)];
    FourFields(four);
    var five := four + (if subject == Search(SearchTexts) then [Word("matches=") + FormatUint(matches)] else []);
    TabbedMore(four, Word("matches=") + FormatUint(matches));
    TabbedMore(five, Word("cursor=") + cursor);
    assert five + [] == five && four + [] == four;
    HeadingJoined(SubjectFields(subject)[0], SubjectFields(subject)[1], StatusName(complete), Word("rows="),
                  FormatUint(rows), MatchesField(subject, matches), CursorField(complete, cursor));
    MatchesJoined(Tabbed(four), Word("matches="), FormatUint(matches));
    MatchesJoined(Tabbed(five), Word("cursor="), cursor);
  }

  lemma HeadingJoined(mark: Text, title: Text, status: Text, about: Text, n: Text, matches: Text, cursor: Text)
    ensures (mark + [TAB]) + title + [TAB] + status + ([TAB] + about) + n + matches + cursor + [LF]
            == [] + ((mark + [TAB] + title + [TAB] + status + [TAB] + (about + n)) + matches + cursor) + [LF]
  {
  }

  lemma MatchesJoined(line: Text, about: Text, n: Text)
    ensures line + ([TAB] + about + n) == line + [TAB] + (about + n) && line + [] == line
  {
  }

  lemma PageFieldsInline(subject: Subject, rows: nat, matches: nat, complete: bool, cursor: Text)
    requires ValidSubject(subject) && ValidStatusCursor(complete, cursor)
    ensures forall f :: f in PageFieldsOf(subject, rows, matches, complete, cursor) ==> Inline(f)
  {
    hide Inline, Word, FormatUint, StatusName, ModeName, Quoted, ValidCursor;
    WordInline("@@project");
    WordInline("@@search");
    StatusWords(complete);
    NamedInline("rows=", rows);
    NamedInline("matches=", matches);
    if subject.Project? { QuotedInline(subject.path); } else { ModeWords(subject.mode); }
    if !complete {
      CursorInline(cursor);
      WordInline("cursor=");
      InlineJoin(Word("cursor="), cursor);
    }
  }

  lemma PageIsRead(family: Family, line: Text, f: seq<Text>)
    requires Fields(line) == f && |f| >= 4
             && (Until(line, TAB) == Word("@@project") || Until(line, TAB) == Word("@@search"))
    ensures ReadEntry(family, line) == ReadPageEntry(f)
  {
    hide Until, Beyond, Number, Fields, Word, Unquoted, Value, ReadPageEntry;
  }

  // What the fields of the first line say.
  lemma PageFieldsSay(subject: Subject, rows: nat, matches: nat, complete: bool, cursor: Text)
    requires ValidSubject(subject) && ValidStatusCursor(complete, cursor)
    ensures ReadPageEntry(PageFieldsOf(subject, rows, matches, complete, cursor))
              == PageEntry(subject, complete, rows, if subject == Search(SearchTexts) then matches else 0, cursor)
  {
    hide Word, FormatUint, StatusName, ModeName, Quoted, ValidCursor, Value, Number, Unquoted, Utf8.Valid;
    var f := PageFieldsOf(subject, rows, matches, complete, cursor);
    var texts := subject == Search(SearchTexts);
    SubjectSays(subject);
    StatusWords(complete);
    ValueOf(Word("rows="), FormatUint(rows));
    ValueOf(Word("matches="), FormatUint(matches));
    ValueOf(Word("cursor="), cursor);
    NumberOf(rows);
    NumberOf(matches);
    assert f[0] == SubjectFields(subject)[0] && f[1] == SubjectFields(subject)[1];
    assert f[2] == StatusName(complete) && f[3] == Word("rows=") + FormatUint(rows);
    assert texts ==> f[4] == Word("matches=") + FormatUint(matches);
    assert !complete ==> f[if texts then 5 else 4] == Word("cursor=") + cursor;
  }

  lemma SubjectSays(subject: Subject)
    requires ValidSubject(subject)
    ensures var f := SubjectFields(subject);
            && (f[0] == Word("@@project") <==> subject.Project?) && (f[0] == Word("@@search") <==> subject.Search?)
            && (subject.Project? ==> Unquoted(f[1]) == subject.path)
            && (subject.Search? ==>
                  subject.mode == if f[1] == Word("file") then SearchFiles
                                  else if f[1] == Word("text") then SearchTexts else SearchSymbols)
  {
    hide Word, ModeName, Quoted, Unquoted, Utf8.Valid;
    MarksDiffer();
    if subject.Project? { UnquotedOf(subject.path); } else { ModeWords(subject.mode); }
  }

  lemma FirstLineReads(family: Family, subject: Subject, rows: nat, matches: nat, complete: bool, cursor: Text)
    requires ValidSubject(subject) && ValidStatusCursor(complete, cursor)
    ensures Whole(Heading(subject, rows, matches, complete, cursor))
    ensures Entries(family, Heading(subject, rows, matches, complete, cursor))
              == [PageEntry(subject, complete, rows, if subject == Search(SearchTexts) then matches else 0, cursor)]
  {
    hide Entries, Tabbed, Whole, Word, Fields, ReadEntry, Inline, Heading, ReadPageEntry, Until, ValidSubject;
    hide ValidStatusCursor, StatusName, FormatUint, SubjectFields;
    var f := PageFieldsOf(subject, rows, matches, complete, cursor);
    HeadingText(subject, rows, matches, complete, cursor);
    PageFieldsInline(subject, rows, matches, complete, cursor);
    PageFieldsSay(subject, rows, matches, complete, cursor);
    SubjectSays(subject);
    NoLines(family);
    assert f[0] == SubjectFields(subject)[0] && f[0] in f;
    forall k | 0 <= k < |f| ensures Inline(f[k]) {
      assert f[k] in f;
    }
    FieldsRead(family, [], f);
    PageIsRead(family, Tabbed(f), f);
  }

  lemma NoLines(family: Family)
    ensures Whole([]) && Entries(family, []) == []
  {
  }

  // The first line is read without knowing the family.
  lemma PageEntryAnyFamily(reader: Family, family: Family, line: Text)
    ensures ReadEntry(family, line).PageEntry? ==> ReadEntry(reader, line) == ReadEntry(family, line)
  {
    hide Fields, Word, Value, Number, Until, Beyond, Unquoted;
  }

  // What a page says, from its bytes alone: the first line names the family of the others.
  ghost function ReadPageBack(text: Text): seq<Entry> {
    if Lines(text) == [] then []
    else
      var first := ReadEntry(ProjectEntries, Lines(text)[0]);
      Entries(if first.PageEntry? then FamilyOf(first.subject) else ProjectEntries, text)
  }

  // A page is read back: its subject, status, counts and cursor, then its rows in their groups,
  // then its warnings in the order of their codes.
  lemma PageReadsBack(subject: Subject, rows: seq<Row>, complete: bool, cursor: Text, warnings: seq<Warning>)
    requires Presentable(subject, rows, complete, cursor, warnings)
    ensures ValidWarnings(SortByCode(warnings))
    ensures
      var matches := if subject == Search(SearchTexts) then Matches(rows) else 0;
      ReadPageBack(PageText(subject, rows, complete, cursor, warnings))
        == [PageEntry(subject, complete, |rows|, matches, cursor)] + UnitsEntries(FamilyOf(subject), [], rows)
           + WarningEntries(SortByCode(warnings))
    ensures RowsTold(FamilyOf(subject), [], ReadPageBack(PageText(subject, rows, complete, cursor, warnings))) == rows
  {
    hide Entries, Whole, Heading, UnitsText, WarningLines, UnitsEntries, WarningEntries, Lines, ReadEntry, RowsTold;
    hide ValidSubject, ValidStatusCursor, ValidWarnings, SortByCode, DistinctCodes;
    SummaryFits([], complete, warnings);
    var family, sorted := FamilyOf(subject), SortByCode(warnings);
    var heading := Heading(subject, |rows|, Matches(rows), complete, cursor);
    var text := PageText(subject, rows, complete, cursor, warnings);
    FirstLineReads(family, subject, |rows|, Matches(rows), complete, cursor);
    UnitsRead(family, heading, [], rows);
    WarningsRead(family, heading + UnitsText(family, [], rows), sorted);
    var first := PageEntry(subject, complete, |rows|, if subject == Search(SearchTexts) then Matches(rows)
        else 0, cursor);
    assert Entries(family, text) == [first] + UnitsEntries(family, [], rows) + WarningEntries(sorted);
    assert Entries(family, text)[0] == first;
    PageEntryAnyFamily(ProjectEntries, family, Lines(text)[0]);
    OnlyWarnings(sorted);
    RowsToldAgain(family, [], rows, WarningEntries(sorted));
    TellPage(family, [], first, UnitsEntries(family, [], rows) + WarningEntries(sorted));
    Regrouped([first], UnitsEntries(family, [], rows), WarningEntries(sorted));
  }

  lemma OnlyWarnings(warnings: seq<Warning>)
    requires ValidWarnings(warnings)
    ensures forall k :: 0 <= k < |WarningEntries(warnings)| ==> WarningEntries(warnings)[k].WarningEntry?
  {
  }

  lemma TellPage(family: Family, grouped: Text, first: Entry, tail: seq<Entry>)
    requires first.PageEntry?
    ensures RowsTold(family, grouped, [first] + tail) == RowsTold(family, grouped, tail)
  {
    assert ([first] + tail)[1..] == tail;
  }
}
