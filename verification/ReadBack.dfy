// Reading back a page of a read: from its bytes alone a client gets the view, the status, the
// cursor, and the numbers and texts of exactly the units that the page shows.
module ReadBack {
  import opened Utf8
  import opened TextOrder
  import opened Magnitude
  import opened JsonCodec
  import opened PageFields
  import opened Vocabulary
  import opened ResultText
  import opened ReadPage
  import opened LineReading

  // What one line of a page says.
  datatype Entry =
    | PageEntry(view: View, complete: bool, items: nat, cursor: Text)
    | SourceEntry(path: Text, item: nat, first: nat, last: nat, complete: bool)
    | OutlineEntry(path: Text, item: nat, language: Text, complete: bool)
    | EmptyEntry(path: Text, item: nat)
    | ErrorEntry(item: nat, code: Text, message: Text, hint: Text)
    | LineEntry(number: nat, text: Text)
    | RecordEntry(record: Record)
    | WarningEntry(code: Text, item: nat)
    | Unreadable

  // ---- What a page is to say ----

  // An import shows no depth.
  function ShownRecord(record: Record): Record {
    if record.kind == Import then record.(depth := 0) else record
  }

  function BlockEntry(item: Item, index: nat, start: nat, end: nat): Entry
    requires start < end <= Units(item)
  {
    match item
    case SourceRows(path, lines, _) =>
      SourceEntry(path, index, lines[start].number, lines[end - 1].number, end == |lines|)
    case OutlineRecords(path, language, records, _) => OutlineEntry(path, index, language, end == |records|)
    case EmptyFile(path, language, _) =>
      if language == [] then EmptyEntry(path, index) else OutlineEntry(path, index, language, true)
    case FailedFile(code, _) => ErrorEntry(index, code, ErrorMessage(code), ErrorHint(code))
  }

  function WarningEntries(warnings: seq<Text>, index: nat): (entries: seq<Entry>) {
    seq(|warnings|, k requires 0 <= k < |warnings| => WarningEntry(warnings[k], index))
  }

  function UnitEntries(item: Item, index: nat, k: nat): seq<Entry>
    requires k < Units(item)
  {
    (match item
     case SourceRows(_, lines, _) => [LineEntry(lines[k].number, lines[k].text)]
     case OutlineRecords(_, _, records, _) => [RecordEntry(ShownRecord(records[k]))]
     case _ => []) + (if k == 0 then WarningEntries(item.warnings, index) else [])
  }

  function UnitsEntries(item: Item, index: nat, start: nat, end: nat): seq<Entry>
    requires start <= end <= Units(item)
    decreases end - start
  {
    if start == end then [] else UnitEntries(item, index, start) + UnitsEntries(item, index, start + 1, end)
  }

  // The block of each segment: its head and exactly its units, in order.
  function SegmentEntries(items: seq<Item>, segments: seq<Segment>): seq<Entry>
    requires ValidSegments(items, segments)
    decreases |segments|
  {
    if segments == [] then []
    else
      var s := segments[0];
      [BlockEntry(items[s.item], s.item, s.start, s.end)] + UnitsEntries(items[s.item], s.item, s.start, s.end)
      + SegmentEntries(items, segments[1..])
  }

  // ---- The reader ----

  function ReadPageEntry(f: seq<Text>): Entry {
    if |f| < 4 then Unreadable
    else
      PageEntry(if f[1] == Word("source") then SourceView else OutlineView, f[2] == Word("complete"),
                Number(Value(f[3], Word("items="))), if |f| == 5 then Value(f[4], Word("cursor=")) else [])
  }

  ghost function ReadBlockEntry(view: View, f: seq<Text>): Entry {
    if |f| < 5 then Unreadable
    else
      var item := Number(Value(f[2], Word("item=")));
      if |f| == 7 then ErrorEntry(item, f[4], Value(f[5], Word("message=")), Value(f[6], Word("hint=")))
      else if view == OutlineView then OutlineEntry(Unquoted(f[1]), item, f[3], f[4] == Word("complete"))
      else if StartsWithDigit(f[3]) then
        SourceEntry(Unquoted(f[1]), item, Number(Until(f[3], 0x3A)), Number(Beyond(f[3], 0x3A)),
                    f[4] == Word("complete"))
      else EmptyEntry(Unquoted(f[1]), item)
  }

  predicate StartsWithDigit(text: Text) { text != [] && 0x30 <= text[0] <= 0x39 }

  ghost function ReadRecordEntry(kind: RecordKind, depth: nat, range: Text, symbolKind: Text, name: Text): Entry {
    RecordEntry(Record(kind, Number(Until(range, 0x3A)), Number(Beyond(range, 0x3A)), depth, symbolKind,
                       Unquoted(name)))
  }

  // A line of text starts with its number; every other line is made of fields.
  ghost function ReadEntry(view: View, line: Text): Entry {
    if StartsWithDigit(line) then LineEntry(Number(Until(line, 0x7C)), Beyond(line, 0x7C))
    else
      var f := Fields(line);
      if f[0] == Word("@@read") then ReadPageEntry(f)
      else if f[0] == Word("@") then ReadBlockEntry(view, f)
      else if f[0] == Word("!") && |f| == 3 then WarningEntry(f[1], Number(Value(f[2], Word("item="))))
      else if f[0] == Word("I") && |f| == 3 then ReadRecordEntry(Import, 0, f[1], [], f[2])
      else if f[0] == Word("H") && |f| == 4 then ReadRecordEntry(Heading, Number(f[1]), f[2], Word("section"), f[3])
      else if f[0] == Word("S") && |f| == 5 then ReadRecordEntry(Symbol, Number(f[1]), f[2], f[3], f[4])
      else Unreadable
  }

  // What the lines of a text say, in order.
  ghost function Entries(view: View, text: Text): (entries: seq<Entry>)
    ensures |entries| == |Lines(text)|
    ensures forall k :: 0 <= k < |entries| ==> entries[k] == ReadEntry(view, Lines(text)[k])
  {
    var lines := Lines(text);
    seq(|lines|, k requires 0 <= k < |lines| => ReadEntry(view, lines[k]))
  }

  lemma EntriesMore(view: View, out: Text, line: Text)
    requires Whole(out) && LF !in line
    ensures Whole(out + line + [LF])
    ensures Entries(view, out + line + [LF]) == Entries(view, out) + [ReadEntry(view, line)]
  {
    hide Lines, ReadEntry;
    LinesMore(out, line);
  }

  // ---- Lines of units ----

  lemma DigitsLead(n: nat)
    ensures FormatUint(n) != [] && 0x30 <= FormatUint(n)[0] <= 0x39 && 0x7C !in FormatUint(n) && 0x3A !in FormatUint(n)
  {
    hide FormatUint, Val;
    var digits := FormatUint(n);
    assert forall k :: 0 <= k < |digits| ==> IsDigitByte(digits[k]);
  }

  predicate IsDigitByte(b: Byte) { 0x30 <= b <= 0x39 }

  lemma LineReads(view: View, out: Text, line: Line)
    requires Whole(out) && OneLine(line.text)
    ensures Whole(LineText(out, line))
    ensures Entries(view, LineText(out, line)) == Entries(view, out) + [LineEntry(line.number, line.text)]
  {
    hide Entries, FormatUint, Until, Beyond;
    var digits := FormatUint(line.number);
    var row := digits + [0x7C] + line.text;
    DigitsLead(line.number);
    DigitsInline(line.number);
    InlineHas(digits);
    CutAt(digits, 0x7C, line.text);
    NumberOf(line.number);
    assert LineText(out, line) == out + row + [LF];
    EntriesMore(view, out, row);
  }

  // A line of fields that do not start with a digit.
  lemma FieldsRead(view: View, out: Text, fields: seq<Text>)
    requires Whole(out) && fields != [] && fields[0] != [] && !StartsWithDigit(fields[0])
    requires forall k :: 0 <= k < |fields| ==> Inline(fields[k])
    ensures Whole(out + Tabbed(fields) + [LF]) && Fields(Tabbed(fields)) == fields
    ensures !StartsWithDigit(Tabbed(fields))
    ensures Entries(view, out + Tabbed(fields) + [LF]) == Entries(view, out) + [ReadEntry(view, Tabbed(fields))]
  {
    hide Entries, ReadEntry, Inline;
    TabbedFields(fields);
    EntriesMore(view, out, Tabbed(fields));
  }

  // ---- Which reader a line gets ----

  // The marks that lines start with are different.
  lemma MarksDiffer()
    ensures |Word("@@read")| == 6 && |Word("@")| == |Word("!")| == |Word("I")| == |Word("H")| == |Word("S")| == 1
    ensures Word("@")[0] == 0x40 && Word("!")[0] == 0x21
    ensures Word("I")[0] == 0x49 && Word("H")[0] == 0x48 && Word("S")[0] == 0x53
  {
  }

  lemma MarkWarning(view: View, line: Text, f: seq<Text>)
    requires !StartsWithDigit(line) && Fields(line) == f && |f| == 3 && f[0] == Word("!")
    ensures ReadEntry(view, line) == WarningEntry(f[1], Number(Value(f[2], Word("item="))))
  {
    hide Fields, Value, Number, Word;
    MarksDiffer();
  }

  lemma MarkImport(view: View, line: Text, f: seq<Text>)
    requires !StartsWithDigit(line) && Fields(line) == f && |f| == 3 && f[0] == Word("I")
    ensures ReadEntry(view, line) == ReadRecordEntry(Import, 0, f[1], [], f[2])
  {
    hide Fields, Value, Number, ReadRecordEntry, Word;
    MarksDiffer();
  }

  lemma MarkHeading(view: View, line: Text, f: seq<Text>)
    requires !StartsWithDigit(line) && Fields(line) == f && |f| == 4 && f[0] == Word("H")
    ensures ReadEntry(view, line) == ReadRecordEntry(Heading, Number(f[1]), f[2], Word("section"), f[3])
  {
    hide Fields, Value, Number, ReadRecordEntry, Word;
    MarksDiffer();
  }

  lemma MarkSymbol(view: View, line: Text, f: seq<Text>)
    requires !StartsWithDigit(line) && Fields(line) == f && |f| == 5 && f[0] == Word("S")
    ensures ReadEntry(view, line) == ReadRecordEntry(Symbol, Number(f[1]), f[2], f[3], f[4])
  {
    hide Fields, Value, Number, ReadRecordEntry, Word;
    MarksDiffer();
  }

  lemma MarkBlock(view: View, line: Text, f: seq<Text>)
    requires !StartsWithDigit(line) && Fields(line) == f && |f| > 0 && f[0] == Word("@")
    ensures ReadEntry(view, line) == ReadBlockEntry(view, f)
  {
    hide Fields, Value, Number, ReadBlockEntry, Word;
    MarksDiffer();
  }

  lemma MarkPage(view: View, line: Text, f: seq<Text>)
    requires !StartsWithDigit(line) && Fields(line) == f && |f| > 0 && f[0] == Word("@@read")
    ensures ReadEntry(view, line) == ReadPageEntry(f)
  {
    hide Fields, Value, Number, ReadPageEntry, Word;
    MarksDiffer();
  }

  // ---- Lines of fields ----

  lemma WarningMark()
    ensures Ascii("!\t") == Word("!") + [TAB] && Word("!") != [] && !StartsWithDigit(Word("!"))
  {
  }

  lemma WarningReads(view: View, out: Text, index: nat, warning: Text)
    requires Whole(out) && warning in WARNING_CODES
    ensures Whole(WarningText(out, index, warning))
    ensures Entries(view, WarningText(out, index, warning)) == Entries(view, out) + [WarningEntry(warning, index)]
  {
    hide Entries, FormatUint, Inline, Fields, Value, Number, WARNING_CODES, ReadEntry, Tabbed, Word, Ascii;
    var fields := [Word("!"), warning, Word("item=") + FormatUint(index)];
    WarningInline(warning);
    NamedInline("item=", index);
    WordInline("!");
    FieldNames();
    FieldsRead(view, out, fields);
    ThreeFields(fields);
    WarningMark();
    WarningJoined(out, Word("!"), warning, Word("item="), FormatUint(index));
    MarkWarning(view, Tabbed(fields), fields);
    ValueOf(Word("item="), FormatUint(index));
    NumberOf(index);
  }

  lemma WarningJoined(out: Text, mark: Text, code: Text, name: Text, index: Text)
    ensures out + (mark + [TAB]) + code + ([TAB] + name) + index + [LF]
            == out + (mark + [TAB] + code + [TAB] + (name + index)) + [LF]
  {
  }

  lemma {:induction false} WarningsRead(view: View, out: Text, index: nat, warnings: seq<Text>)
    requires Whole(out) && forall k :: 0 <= k < |warnings| ==> warnings[k] in WARNING_CODES
    ensures Whole(WarningsText(out, index, warnings))
    ensures Entries(view, WarningsText(out, index, warnings)) == Entries(view, out) + WarningEntries(warnings, index)
    decreases |warnings|
  {
    hide Entries, WarningText, WARNING_CODES, Whole;
    if warnings == [] {
      assert Entries(view, out) + WarningEntries([], index) == Entries(view, out);
    } else {
      WarningReads(view, out, index, warnings[0]);
      WarningsRead(view, WarningText(out, index, warnings[0]), index, warnings[1..]);
      assert WarningEntries(warnings, index)
             == [WarningEntry(warnings[0], index)] + WarningEntries(warnings[1..], index);
      assert Entries(view, out) + [WarningEntry(warnings[0], index)] + WarningEntries(warnings[1..], index)
          == Entries(view, out) + ([WarningEntry(warnings[0], index)] + WarningEntries(warnings[1..], index));
    }
  }

  // A range of lines is read back from its two numbers.
  lemma RangeReads(start: nat, end: nat)
    ensures var range := FormatUint(start) + [0x3A] + FormatUint(end);
            && Inline(range) && StartsWithDigit(range)
            && Number(Until(range, 0x3A)) == start && Number(Beyond(range, 0x3A)) == end
  {
    hide FormatUint, Until, Beyond, Number;
    DigitsLead(start);
    DigitsInline(start);
    DigitsInline(end);
    CutAt(FormatUint(start), 0x3A, FormatUint(end));
    NumberOf(start);
    NumberOf(end);
  }

  // The fields of a record.
  function RecordFields(record: Record): (fields: seq<Text>)
    ensures 3 <= |fields| <= 5
  {
    var range := FormatUint(record.start) + [0x3A] + FormatUint(record.end);
    match record.kind
    case Import => [Word("I"), range, Quoted(record.name)]
    case Heading => [Word("H"), FormatUint(record.depth), range, Quoted(record.name)]
    case Symbol => [Word("S"), FormatUint(record.depth), range, record.symbolKind, Quoted(record.name)]
  }

  lemma RecordMarks()
    ensures Ascii("I\t") == Word("I") + [TAB] && Ascii("H\t") == Word("H") + [TAB]
    ensures Ascii("S\t") == Word("S") + [TAB]
  {
  }

  lemma RecordIsFields(out: Text, record: Record)
    ensures RecordText(out, record) == out + Tabbed(RecordFields(record)) + [LF]
  {
    hide FormatUint, Quoted, Tabbed, Word, Ascii;
    RecordMarks();
    var f := RecordFields(record);
    var depth, name := FormatUint(record.depth), Quoted(record.name);
    var start, end := FormatUint(record.start), FormatUint(record.end);
    match record.kind {
      case Import =>
        ThreeFields(f);
        ImportFields(out, Word("I"), start, end, name);
      case Heading =>
        FourFields(f);
        HeadingFields(out, Word("H"), depth, start, end, name);
      case Symbol =>
        FiveFields(f);
        SymbolFields(out, Word("S"), depth, start, end, record.symbolKind, name);
    }
  }

  lemma ImportFields(out: Text, mark: Text, start: Text, end: Text, name: Text)
    ensures out + (mark + [TAB]) + start + [0x3A] + end + [TAB] + name + [LF]
            == out + (mark + [TAB] + (start + [0x3A] + end) + [TAB] + name) + [LF]
  {
  }

  lemma HeadingFields(out: Text, mark: Text, depth: Text, start: Text, end: Text, name: Text)
    ensures out + (mark + [TAB]) + depth + [TAB] + start + [0x3A] + end + [TAB] + name + [LF]
            == out + (mark + [TAB] + depth + [TAB] + (start + [0x3A] + end) + [TAB] + name) + [LF]
  {
  }

  lemma SymbolFields(out: Text, mark: Text, depth: Text, start: Text, end: Text, kind: Text, name: Text)
    ensures out + (mark + [TAB]) + depth + [TAB] + start + [0x3A] + end + [TAB] + kind + [TAB] + name + [LF]
            == out + (mark + [TAB] + depth + [TAB] + (start + [0x3A] + end) + [TAB] + kind + [TAB] + name) + [LF]
  {
  }

  lemma RecordFieldsInline(record: Record)
    requires ValidRecord(record)
    ensures forall k :: 0 <= k < |RecordFields(record)| ==> Inline(RecordFields(record)[k])
    ensures RecordFields(record)[0] != [] && !StartsWithDigit(RecordFields(record)[0])
  {
    hide FormatUint, Quoted, Inline, SYMBOL_KINDS, Number, Until, Beyond;
    RangeReads(record.start, record.end);
    DigitsInline(record.depth);
    QuotedInline(record.name);
    WordInline("I");
    WordInline("H");
    WordInline("S");
    if record.kind == Symbol { KindInline(record.symbolKind); }
  }

  lemma RecordReads(view: View, out: Text, record: Record)
    requires Whole(out) && ValidRecord(record)
    ensures Whole(RecordText(out, record))
    ensures Entries(view, RecordText(out, record)) == Entries(view, out) + [RecordEntry(ShownRecord(record))]
  {
    hide Entries, FormatUint, Inline, Fields, Number, ReadEntry, Tabbed, Quoted, RecordText, Until, Beyond;
    hide SYMBOL_KINDS, Whole, Unquoted;
    var f := RecordFields(record);
    RecordIsFields(out, record);
    RecordFieldsInline(record);
    FieldsRead(view, out, f);
    RangeReads(record.start, record.end);
    NumberOf(record.depth);
    UnquotedOf(record.name);
    match record.kind {
      case Import => MarkImport(view, Tabbed(f), f);
      case Heading => MarkHeading(view, Tabbed(f), f);
      case Symbol => MarkSymbol(view, Tabbed(f), f);
    }
  }

  // ---- Blocks ----

  lemma UnitReads(view: View, out: Text, item: Item, index: nat, k: nat)
    requires Whole(out) && k < Units(item) && ValidItem(item, view)
    ensures Whole(UnitText(out, item, index, k))
    ensures Entries(view, UnitText(out, item, index, k)) == Entries(view, out) + UnitEntries(item, index, k)
  {
    hide Entries, LineText, RecordText, WarningsText, ValidRecord, OneLine, ConsecutiveLines, CompareRecords, Whole;
    hide WARNING_CODES, LANGUAGES, READ_ERROR_CODES, WarningEntries;
    match item {
      case SourceRows(_, lines, warnings) =>
        LineReads(view, out, lines[k]);
        WarningsRead(view, LineText(out, lines[k]), index, warnings);
        Extend(Entries(view, out), LineEntry(lines[k].number, lines[k].text), WarningEntries(warnings, index));
      case OutlineRecords(_, _, records, warnings) =>
        RecordReads(view, out, records[k]);
        WarningsRead(view, RecordText(out, records[k]), index, warnings);
        Extend(Entries(view, out), RecordEntry(ShownRecord(records[k])), WarningEntries(warnings, index));
      case _ =>
        WarningsRead(view, out, index, item.warnings);
        assert [] + WarningEntries(item.warnings, index) == WarningEntries(item.warnings, index);
    }
  }

  lemma Extend(a: seq<Entry>, entry: Entry, b: seq<Entry>)
    ensures a + [entry] + b == a + ([entry] + b) && a + [entry] == a + ([entry] + [])
  {
  }

  lemma {:induction false} UnitsRead(view: View, out: Text, item: Item, index: nat, start: nat, end: nat)
    requires Whole(out) && start <= end <= Units(item) && ValidItem(item, view)
    ensures Whole(UnitsText(out, item, index, start, end))
    ensures Entries(view, UnitsText(out, item, index, start, end))
              == Entries(view, out) + UnitsEntries(item, index, start, end)
    decreases end - start
  {
    hide Entries, UnitText, ValidItem, Whole, UnitEntries;
    if start == end {
      assert Entries(view, out) + [] == Entries(view, out);
    } else {
      UnitReads(view, out, item, index, start);
      UnitsRead(view, UnitText(out, item, index, start), item, index, start + 1, end);
      Regrouped(Entries(view, out), UnitEntries(item, index, start), UnitsEntries(item, index, start + 1, end));
    }
  }

  lemma Regrouped(a: seq<Entry>, b: seq<Entry>, c: seq<Entry>)
    ensures a + b + c == a + (b + c)
  {
  }

  lemma BlockMarks()
    ensures Ascii("@\t") == Word("@") + [TAB]
    ensures Ascii("\"<path-hidden>\"") == Word("\"<path-hidden>\"")
    ensures Ascii("\terror\t") == [TAB] + Word("error") + [TAB]
    ensures Ascii("\tmessage=") == [TAB] + Word("message=") && Ascii("\thint=") == [TAB] + Word("hint=")
  {
  }

  lemma StatusWords(complete: bool)
    ensures BlockStatus(complete) == [TAB] + StatusName(complete)
            && (StatusName(complete) == Word("complete") <==> complete)
    ensures Inline(StatusName(complete))
  {
    assert |Word("complete")| == 8 && |Word("partial")| == 7;
  }

  lemma EmptyWords()
    ensures Ascii("\tempty\tcomplete\n") == [TAB] + Word("empty") + [TAB] + Word("complete") + [LF]
    ensures !StartsWithDigit(Word("empty"))
  {
  }

  lemma BlockWords()
    ensures Ascii("\tcomplete\n") == [TAB] + Word("complete") + [LF]
    ensures !StartsWithDigit(Word("@")) && Word("@") != []
  {
  }

  // The line of a block whose file is named, with two more fields.
  function NamedFields(path: Text, index: nat, third: Text, complete: bool): seq<Text> {
    [Word("@"), Quoted(path), Word("item=") + FormatUint(index), third, StatusName(complete)]
  }

  lemma NamedReads(view: View, out: Text, path: Text, index: nat, third: Text, complete: bool)
    requires Whole(out) && Utf8.Valid(path) && Inline(third)
    ensures
      var f := NamedFields(path, index, third, complete);
      var text := out + Tabbed(f) + [LF];
      && Whole(text) && Entries(view, text) == Entries(view, out) + [ReadBlockEntry(view, f)]
      && Unquoted(f[1]) == path && Number(Value(f[2], Word("item="))) == index
        && (f[4] == Word("complete") <==> complete)
  {
    hide Entries, FormatUint, Inline, Fields, Number, Value, ReadEntry, Tabbed, Quoted, Unquoted, Whole, ReadBlockEntry;
    hide Utf8.Valid, Word, StatusName;
    var f := NamedFields(path, index, third, complete);
    BlockWords();
    WordInline("@");
    QuotedInline(path);
    NamedInline("item=", index);
    StatusWords(complete);
    FieldsRead(view, out, f);
    MarkBlock(view, Tabbed(f), f);
    UnquotedOf(path);
    ValueOf(Word("item="), FormatUint(index));
    NumberOf(index);
  }

  // How the text of such a line is put together.
  lemma NamedText(out: Text, path: Text, index: nat, third: Text, complete: bool)
    ensures
      ItemField(out + Ascii("@\t") + Quoted(path), index) + [TAB] + third + BlockStatus(complete) + [LF]
        == out + Tabbed(NamedFields(path, index, third, complete)) + [LF]
  {
    hide FormatUint, Tabbed, Quoted, Ascii, Word, StatusName, BlockStatus;
    BlockMarks();
    FieldNames();
    StatusWords(complete);
    FiveFields(NamedFields(path, index, third, complete));
    FiveJoined(out, Word("@"), Quoted(path), Word("item="), FormatUint(index), third, StatusName(complete));
  }

  lemma FiveJoined(out: Text, mark: Text, path: Text, name: Text, index: Text, third: Text, status: Text)
    ensures out + (mark + [TAB]) + path + ([TAB] + name) + index + [TAB] + third + ([TAB] + status) + [LF]
            == out + (mark + [TAB] + path + [TAB] + (name + index) + [TAB] + third + [TAB] + status) + [LF]
  {
  }

  lemma SourceReads(view: View, out: Text, item: Item, index: nat, start: nat, end: nat)
    requires Whole(out) && start < end <= Units(item) && ValidItem(item, view) && item.SourceRows?
    ensures Whole(BlockHead(out, item, index, start, end))
    ensures Entries(view, BlockHead(out, item, index, start, end))
              == Entries(view, out) + [BlockEntry(item, index, start, end)]
  {
    hide Entries, FormatUint, Inline, Number, Value, Tabbed, Quoted, Unquoted, Whole, Ascii, Word, StatusName;
    hide BlockStatus, Until, Beyond, ItemField, ConsecutiveLines, ValidCodes, Utf8.Valid;
    var first, last := item.lines[start].number, item.lines[end - 1].number;
    var range := FormatUint(first) + [0x3A] + FormatUint(last);
    var complete := end == |item.lines|;
    RangeReads(first, last);
    NamedReads(view, out, item.path, index, range, complete);
    NamedText(out, item.path, index, range, complete);
    RangeJoined(ItemField(out + Ascii("@\t") + Quoted(item.path), index), FormatUint(first), FormatUint(last),
                BlockStatus(complete));
  }

  lemma RangeJoined(named: Text, first: Text, last: Text, status: Text)
    ensures named + [TAB] + first + [0x3A] + last + status + [LF]
            == named + [TAB] + (first + [0x3A] + last) + status + [LF]
  {
  }

  lemma OutlineReads(view: View, out: Text, item: Item, index: nat, start: nat, end: nat)
    requires Whole(out) && start < end <= Units(item) && ValidItem(item, view) && item.OutlineRecords?
    ensures Whole(BlockHead(out, item, index, start, end))
    ensures Entries(view, BlockHead(out, item, index, start, end))
              == Entries(view, out) + [BlockEntry(item, index, start, end)]
  {
    hide Entries, FormatUint, Inline, Number, Value, Tabbed, Quoted, Unquoted, Whole, Ascii, Word, StatusName;
    hide BlockStatus, Until, Beyond, ItemField, ValidRecords, ValidCodes, Utf8.Valid, LANGUAGES;
    LanguageInline(item.language);
    NamedReads(view, out, item.path, index, item.language, end == |item.records|);
    NamedText(out, item.path, index, item.language, end == |item.records|);
  }

  lemma EmptyReads(view: View, out: Text, item: Item, index: nat, start: nat, end: nat)
    requires Whole(out) && start < end <= Units(item) && ValidItem(item, view) && item.EmptyFile?
    ensures Whole(BlockHead(out, item, index, start, end))
    ensures Entries(view, BlockHead(out, item, index, start, end))
              == Entries(view, out) + [BlockEntry(item, index, start, end)]
  {
    hide Entries, FormatUint, Inline, Number, Value, Tabbed, Quoted, Unquoted, Whole, Ascii, Word, StatusName;
    hide BlockStatus, Until, Beyond, ItemField, ValidCodes, Utf8.Valid, LANGUAGES;
    var third := if item.language == [] then Word("empty") else item.language;
    if view == SourceView { WordInline("empty"); } else { LanguageInline(item.language); }
    EmptyWords();
    BlockWords();
    StatusWords(true);
    NamedReads(view, out, item.path, index, third, true);
    NamedText(out, item.path, index, third, true);
    CompleteJoined(ItemField(out + Ascii("@\t") + Quoted(item.path), index), third, Word("complete"));
  }

  lemma CompleteJoined(named: Text, third: Text, status: Text)
    ensures named + ([TAB] + third + [TAB] + status + [LF]) == named + [TAB] + third + ([TAB] + status) + [LF]
    ensures named + [TAB] + third + ([TAB] + status + [LF]) == named + [TAB] + third + ([TAB] + status) + [LF]
  {
  }

  function ErrorFields(code: Text, index: nat): seq<Text> {
    [Word("@"), Word("\"<path-hidden>\""), Word("item=") + FormatUint(index), Word("error"), code,
     Word("message=") + ErrorMessage(code), Word("hint=") + ErrorHint(code)]
  }

  lemma ErrorFieldsInline(code: Text, index: nat)
    requires code in READ_ERROR_CODES
    ensures forall k :: 0 <= k < |ErrorFields(code, index)| ==> Inline(ErrorFields(code, index)[k])
  {
    hide FormatUint, Inline, READ_ERROR_CODES, Word, ErrorMessage, ErrorHint;
    ErrorInline(code);
    WordInline("@");
    WordInline("\"<path-hidden>\"");
    WordInline("error");
    WordInline("message=");
    WordInline("hint=");
    NamedInline("item=", index);
    InlineJoin(Word("message="), ErrorMessage(code));
    InlineJoin(Word("hint="), ErrorHint(code));
  }

  lemma ErrorText(out: Text, code: Text, index: nat)
    ensures
      ItemField(out + Ascii("@\t") + Ascii("\"<path-hidden>\""), index) + Ascii("\terror\t") + code +
      Ascii("\tmessage=") + ErrorMessage(code) + Ascii("\thint=") + ErrorHint(code) + [LF]
        == out + Tabbed(ErrorFields(code, index)) + [LF]
  {
    hide FormatUint, Tabbed, Ascii, Word, ErrorMessage, ErrorHint;
    BlockMarks();
    FieldNames();
    SevenFields(ErrorFields(code, index));
    SevenJoined(out, Word("@"), Word("\"<path-hidden>\""), Word("item="), FormatUint(index), Word("error"), code,
                Word("message="), ErrorMessage(code), Word("hint="), ErrorHint(code));
  }

  lemma SevenJoined(out: Text, mark: Text, path: Text, name: Text, index: Text, error: Text, code: Text, about: Text,
                    message: Text, advice: Text, hint: Text)
    ensures out + (mark + [TAB]) + path + ([TAB] + name) + index + ([TAB] + error + [TAB]) + code + ([TAB] + about)
            + message + ([TAB] + advice) + hint + [LF]
            == out + (mark + [TAB] + path + [TAB] + (name + index) + [TAB] + error + [TAB] + code + [TAB]
                      + (about + message) + [TAB] + (advice + hint)) + [LF]
  {
  }

  lemma ErrorReads(view: View, out: Text, item: Item, index: nat, start: nat, end: nat)
    requires Whole(out) && start < end <= Units(item) && ValidItem(item, view) && item.FailedFile?
    ensures Whole(BlockHead(out, item, index, start, end))
    ensures Entries(view, BlockHead(out, item, index, start, end))
              == Entries(view, out) + [BlockEntry(item, index, start, end)]
  {
    hide Entries, FormatUint, Inline, Number, Value, Tabbed, Whole, Ascii, Word, Fields, ReadEntry;
    hide Until, Beyond, ItemField, ValidCodes, READ_ERROR_CODES, ErrorMessage, ErrorHint, Unquoted;
    var f := ErrorFields(item.code, index);
    BlockWords();
    ErrorFieldsInline(item.code, index);
    ErrorText(out, item.code, index);
    FieldsRead(view, out, f);
    MarkBlock(view, Tabbed(f), f);
    ValueOf(Word("item="), FormatUint(index));
    ValueOf(Word("message="), ErrorMessage(item.code));
    ValueOf(Word("hint="), ErrorHint(item.code));
    NumberOf(index);
  }

  lemma HeadReads(view: View, out: Text, item: Item, index: nat, start: nat, end: nat)
    requires Whole(out) && start < end <= Units(item) && ValidItem(item, view)
    ensures Whole(BlockHead(out, item, index, start, end))
    ensures Entries(view, BlockHead(out, item, index, start, end))
              == Entries(view, out) + [BlockEntry(item, index, start, end)]
  {
    hide Entries, BlockHead, ValidItem, Whole, BlockEntry;
    match item {
      case SourceRows(_, _, _) => SourceReads(view, out, item, index, start, end);
      case OutlineRecords(_, _, _, _) => OutlineReads(view, out, item, index, start, end);
      case EmptyFile(_, _, _) => EmptyReads(view, out, item, index, start, end);
      case FailedFile(_, _) => ErrorReads(view, out, item, index, start, end);
    }
  }

  lemma {:induction false} BlocksRead(view: View, out: Text, items: seq<Item>, segments: seq<Segment>)
    requires Whole(out) && ValidSegments(items, segments) && ValidItems(items, view)
    ensures Whole(BlocksText(out, items, segments))
    ensures Entries(view, BlocksText(out, items, segments)) == Entries(view, out) + SegmentEntries(items, segments)
    decreases |segments|
  {
    hide Entries, BlockHead, UnitsText, ValidItem, Whole, BlockEntry, UnitsEntries;
    if segments == [] {
      assert Entries(view, out) + [] == Entries(view, out);
    } else {
      var s := segments[0];
      var item := items[s.item];
      HeadReads(view, out, item, s.item, s.start, s.end);
      UnitsRead(view, BlockHead(out, item, s.item, s.start, s.end), item, s.item, s.start, s.end);
      BlocksRead(view, BlockText(out, item, s.item, s.start, s.end), items, segments[1..]);
      BlockJoined(Entries(view, out), [BlockEntry(item, s.item, s.start, s.end)],
                  UnitsEntries(item, s.item, s.start, s.end), SegmentEntries(items, segments[1..]));
    }
  }

  lemma BlockJoined(a: seq<Entry>, b: seq<Entry>, c: seq<Entry>, d: seq<Entry>)
    ensures a + b + c + d == a + (b + c + d)
  {
  }

  // ---- Pages ----

  lemma ViewWords(view: View)
    ensures Ascii("@@read\t") == Word("@@read") + [TAB]
    ensures ViewName(view) == Word("source") <==> view == SourceView
    ensures Inline(ViewName(view)) && !StartsWithDigit(Word("@@read")) && Word("@@read") != []
  {
    assert |Word("source")| == 6 && |Word("outline")| == 7;
  }

  function PageFieldsOf(view: View, complete: bool, segments: nat, cursor: Text): seq<Text> {
    [Word("@@read"), ViewName(view), StatusName(complete), Word("items=") + FormatUint(segments)]
    + (if complete then [] else [Word("cursor=") + cursor])
  }

  lemma PageText4(view: View, complete: bool, segments: nat, cursor: Text)
    ensures PageHead(view, complete, segments, cursor)
              == [] + Tabbed(PageFieldsOf(view, complete, segments, cursor)) + [LF]
  {
    hide FormatUint, Tabbed, Ascii, Word, StatusName, ViewName;
    ViewWords(view);
    FieldNames();
    var f := PageFieldsOf(view, complete, segments, cursor);
    if complete {
      FourFields(f);
      FourJoined(Word("@@read"), ViewName(view), StatusName(complete), Word("items="), FormatUint(segments));
    } else {
      FiveFields(f);
      CursorJoined(Word("@@read"), ViewName(view), StatusName(complete), Word("items="), FormatUint(segments),
                   Word("cursor="), cursor);
    }
  }

  lemma FourJoined(mark: Text, view: Text, status: Text, name: Text, n: Text)
    ensures (mark + [TAB]) + view + [TAB] + status + ([TAB] + name) + n + [] + [LF]
            == [] + (mark + [TAB] + view + [TAB] + status + [TAB] + (name + n)) + [LF]
  {
  }

  lemma CursorJoined(mark: Text, view: Text, status: Text, name: Text, n: Text, about: Text, cursor: Text)
    ensures (mark + [TAB]) + view + [TAB] + status + ([TAB] + name) + n + ([TAB] + about + cursor) + [LF]
            == [] + (mark + [TAB] + view + [TAB] + status + [TAB] + (name + n) + [TAB] + (about + cursor)) + [LF]
  {
  }

  // The first line says what the page is, and is so read by either reader.
  lemma FirstLineReads(reader: View, view: View, complete: bool, segments: nat, cursor: Text)
    requires ValidStatusCursor(complete, cursor)
    ensures Whole(PageHead(view, complete, segments, cursor))
    ensures Entries(reader, PageHead(view, complete, segments, cursor)) == [PageEntry(view, complete, segments, cursor)]
  {
    hide Entries, FormatUint, Inline, Number, Value, Tabbed, Whole, Ascii, Word, Fields, ReadEntry;
    hide StatusName, ViewName;
    hide ValidCursor, PageHead;
    var f := PageFieldsOf(view, complete, segments, cursor);
    PageText4(view, complete, segments, cursor);
    ViewWords(view);
    StatusWords(complete);
    WordInline("@@read");
    NamedInline("items=", segments);
    if !complete {
      CursorInline(cursor);
      WordInline("cursor=");
      InlineJoin(Word("cursor="), cursor);
    }
    NoLines(reader);
    FieldsRead(reader, [], f);
    MarkPage(reader, Tabbed(f), f);
    ValueOf(Word("items="), FormatUint(segments));
    ValueOf(Word("cursor="), cursor);
    NumberOf(segments);
  }

  lemma NoLines(view: View)
    ensures Whole([]) && Entries(view, []) == []
  {
  }

  // The first line is read without knowing the view.
  lemma PageEntryAnyView(reader: View, view: View, line: Text)
    ensures ReadEntry(view, line).PageEntry? ==> ReadEntry(reader, line) == ReadEntry(view, line)
  {
    hide Fields, Word, Value, Number, Until, Beyond;
  }

  // What a page says, from its bytes alone: the first line names the view for the others.
  ghost function ReadPageBack(text: Text): seq<Entry> {
    if Lines(text) == [] then []
    else
      var first := ReadEntry(SourceView, Lines(text)[0]);
      Entries(if first.PageEntry? then first.view else SourceView, text)
  }

  // A page is read back: its view, its status and its cursor, and then for each segment the head
  // of its block and exactly its units, in order.
  lemma PageReadsBack(view: View, items: seq<Item>, segments: seq<Segment>, complete: bool, cursor: Text)
    requires ValidItems(items, view) && ValidSegments(items, segments) && ValidStatusCursor(complete, cursor)
    ensures ReadPageBack(PageText(view, items, segments, complete, cursor))
              == [PageEntry(view, complete, |segments|, cursor)] + SegmentEntries(items, segments)
  {
    hide Entries, Whole, PageHead, BlocksText, SegmentEntries, ValidItems, Lines, ReadEntry;
    var text := PageText(view, items, segments, complete, cursor);
    FirstLineReads(view, view, complete, |segments|, cursor);
    BlocksRead(view, PageHead(view, complete, |segments|, cursor), items, segments);
    assert Entries(view, text)[0] == PageEntry(view, complete, |segments|, cursor);
    PageEntryAnyView(SourceView, view, Lines(text)[0]);
  }

  // So two pages with the same bytes show the same.
  lemma PagesDiffer(view: View, items: seq<Item>, segments: seq<Segment>, complete: bool, cursor: Text,
                    view': View, items': seq<Item>, segments': seq<Segment>, complete': bool, cursor': Text)
    requires ValidItems(items, view) && ValidSegments(items, segments) && ValidStatusCursor(complete, cursor)
    requires ValidItems(items', view') && ValidSegments(items', segments') && ValidStatusCursor(complete', cursor')
    requires PageText(view, items, segments, complete, cursor) == PageText(view', items', segments', complete', cursor')
    ensures view == view' && complete == complete' && cursor == cursor'
    ensures SegmentEntries(items, segments) == SegmentEntries(items', segments')
  {
    hide PageText, SegmentEntries, ValidItems, ReadPageBack;
    PageReadsBack(view, items, segments, complete, cursor);
    PageReadsBack(view', items', segments', complete', cursor');
    var a := [PageEntry(view, complete, |segments|, cursor)] + SegmentEntries(items, segments);
    var b := [PageEntry(view', complete', |segments'|, cursor')] + SegmentEntries(items', segments');
    assert a[0] == b[0] && a[1..] == SegmentEntries(items, segments) && b[1..] == SegmentEntries(items', segments');
  }
}
