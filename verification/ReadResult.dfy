// Every page of a read is a valid text result: valid UTF-8 that ends with one line feed.
module ReadResult {
  import opened Utf8
  import opened TextOrder
  import opened Magnitude
  import opened JsonCodec
  import opened OutputBuffer
  import opened PageFields
  import opened Vocabulary
  import opened ResultText
  import opened ReadPage

  lemma ErrorValid(code: Text)
    requires code in READ_ERROR_CODES
    ensures Utf8.Valid(code) && Utf8.Valid(ErrorMessage(code)) && Utf8.Valid(ErrorHint(code))
  {
    hide Utf8.Valid, ErrorMessage, ErrorHint;
    CodeIsAscii(READ_ERROR_CODES, code);
    AsciiIsValid(ErrorMessage(code));
    AsciiIsValid(ErrorHint(code));
  }

  // ---- Units ----

  lemma LineValid(out: Text, line: Line)
    requires Utf8.Valid(out) && OneLine(line.text)
    ensures ValidLine(LineText(out, line))
  {
    hide Utf8.Valid, FormatUint, ValidLine;
    DigitsValid(line.number);
    ByteValid(0x7C);
    ValidJoin(out, FormatUint(line.number));
    var front := out + FormatUint(line.number);
    if line.text == [] {
      LineOf(front, [0x7C]);
      assert front + [0x7C] + line.text == front + [0x7C];
    } else {
      ValidJoin(front, [0x7C]);
      LineOf(front + [0x7C], line.text);
    }
  }

  lemma LeadValid(out: Text, record: Record)
    requires Utf8.Valid(out)
    ensures Utf8.Valid(RecordLead(out, record))
  {
    hide Utf8.Valid, FormatUint, Ascii;
    var mark := match record.kind
      case Import => "I\t"
      case Heading => "H\t"
      case Symbol => "S\t";
    AsciiText(mark);
    DigitsValid(record.depth);
    ByteValid(TAB);
    ValidJoin(out, Ascii(mark));
    ValidJoin(out + Ascii(mark), FormatUint(record.depth));
    ValidJoin(out + Ascii(mark) + FormatUint(record.depth), [TAB]);
  }

  lemma RecordValid(out: Text, record: Record)
    requires Utf8.Valid(out) && ValidRecord(record)
    ensures ValidLine(RecordText(out, record))
  {
    hide Utf8.Valid, FormatUint, RecordLead, Quoted, ValidLine;
    LeadValid(out, record);
    DigitsValid(record.start);
    DigitsValid(record.end);
    ByteValid(0x3A);
    ByteValid(TAB);
    QuotedText(record.name);
    var lead, start, end := RecordLead(out, record), FormatUint(record.start), FormatUint(record.end);
    ValidJoin(lead, start);
    ValidJoin(lead + start, [0x3A]);
    ValidJoin(lead + start + [0x3A], end);
    var range := lead + start + [0x3A] + end;
    ValidJoin(range, [TAB]);
    if record.kind == Symbol {
      KindValid(record.symbolKind);
      ValidJoin(range + [TAB], record.symbolKind);
      ValidJoin(range + [TAB] + record.symbolKind, [TAB]);
      LineOf(range + [TAB] + record.symbolKind + [TAB], Quoted(record.name));
    } else {
      LineOf(range + [TAB], Quoted(record.name));
    }
  }

  lemma WarningsValid(out: Text, index: nat, warnings: seq<Text>)
    requires ValidLine(out) && forall k :: 0 <= k < |warnings| ==> warnings[k] in WARNING_CODES
    ensures ValidLine(WarningsText(out, index, warnings))
    decreases |warnings|
  {
    hide Utf8.Valid, FormatUint, Ascii, WARNING_CODES;
    if warnings != [] {
      AsciiText("!\t");
      AsciiText("\titem=");
      WarningValid(warnings[0]);
      DigitsValid(index);
      var lead := out + Ascii("!\t");
      ValidJoin(out, Ascii("!\t"));
      ValidJoin(lead, warnings[0]);
      ValidJoin(lead + warnings[0], Ascii("\titem="));
      LineOf(lead + warnings[0] + Ascii("\titem="), FormatUint(index));
      WarningsValid(WarningText(out, index, warnings[0]), index, warnings[1..]);
    }
  }

  lemma UnitValid(out: Text, item: Item, index: nat, k: nat, view: View)
    requires ValidLine(out) && k < Units(item) && ValidItem(item, view)
    ensures ValidLine(UnitText(out, item, index, k))
  {
    hide Utf8.Valid, LineText, RecordText, WarningsText, WARNING_CODES, LANGUAGES, READ_ERROR_CODES, ValidRecord;
    hide CompareRecords, CompareText, ValidPath, OneLine, ConsecutiveLines;
    match item {
      case SourceRows(_, lines, _) =>
        LineValid(out, lines[k]);
        WarningsValid(LineText(out, lines[k]), index, item.warnings);
      case OutlineRecords(_, _, records, _) =>
        RecordValid(out, records[k]);
        WarningsValid(RecordText(out, records[k]), index, item.warnings);
      case _ =>
        WarningsValid(out, index, item.warnings);
    }
  }

  lemma {:induction false} UnitsValid(out: Text, item: Item, index: nat, start: nat, end: nat, view: View)
    requires ValidLine(out) && start <= end <= Units(item) && ValidItem(item, view)
    ensures ValidLine(UnitsText(out, item, index, start, end))
    decreases end - start
  {
    hide ValidLine, UnitText, ValidItem;
    if start < end {
      UnitValid(out, item, index, start, view);
      UnitsValid(UnitText(out, item, index, start), item, index, start + 1, end, view);
    }
  }

  // ---- Blocks ----

  lemma ItemFieldValid(out: Text, index: nat)
    requires Utf8.Valid(out)
    ensures Utf8.Valid(ItemField(out, index))
  {
    hide Utf8.Valid, FormatUint, Ascii;
    AsciiText("\titem=");
    DigitsValid(index);
    ValidJoin(out, Ascii("\titem="));
    ValidJoin(out + Ascii("\titem="), FormatUint(index));
  }

  lemma StatusValid(complete: bool)
    ensures var status := BlockStatus(complete); Utf8.Valid(status) && status != [] && status[|status| - 1] != LF
  {
    hide Utf8.Valid;
    AsciiIsValid(BlockStatus(complete));
  }

  lemma HeadTailValid(named: Text, item: Item, start: nat, end: nat, view: View)
    requires Utf8.Valid(named) && start < end <= Units(item) && !item.FailedFile? && ValidItem(item, view)
    ensures ValidLine(HeadTail(named, item, start, end))
  {
    hide Utf8.Valid, FormatUint, BlockStatus, LANGUAGES, ValidRecords, ValidCodes, ValidLine, ValidPath;
    ByteValid(TAB);
    ValidJoin(named, [TAB]);
    match item {
      case SourceRows(_, lines, _) =>
        var first, last := FormatUint(lines[start].number), FormatUint(lines[end - 1].number);
        DigitsValid(lines[start].number);
        DigitsValid(lines[end - 1].number);
        ByteValid(0x3A);
        StatusValid(end == |lines|);
        ValidJoin(named + [TAB], first);
        ValidJoin(named + [TAB] + first, [0x3A]);
        ValidJoin(named + [TAB] + first + [0x3A], last);
        LineOf(named + [TAB] + first + [0x3A] + last, BlockStatus(end == |lines|));
      case OutlineRecords(_, language, records, _) =>
        LanguageValid(language);
        StatusValid(end == |records|);
        ValidJoin(named + [TAB], language);
        LineOf(named + [TAB] + language, BlockStatus(end == |records|));
      case EmptyFile(_, language, _) =>
        EmptyTailValid(named, language);
    }
  }

  lemma EmptyTailValid(named: Text, language: Text)
    requires Utf8.Valid(named) && (language == [] || language in LANGUAGES)
    ensures ValidLine(if language == [] then named + Ascii("\tempty\tcomplete\n")
                      else named + [TAB] + language + Ascii("\tcomplete\n"))
  {
    hide Utf8.Valid, LANGUAGES;
    AsciiText("\tempty\tcomplete\n");
    AsciiText("\tcomplete\n");
    ByteValid(TAB);
    ValidJoin(named, Ascii("\tempty\tcomplete\n"));
    ValidJoin(named, [TAB]);
    if language != [] {
      LanguageValid(language);
      ValidJoin(named + [TAB], language);
      ValidJoin(named + [TAB] + language, Ascii("\tcomplete\n"));
    }
  }

  lemma FailureValid(out: Text, code: Text, index: nat)
    requires Utf8.Valid(out) && code in READ_ERROR_CODES
    ensures ValidLine(
      ItemField(out + Ascii("@\t") + Ascii("\"<path-hidden>\""), index) + Ascii("\terror\t") + code +
      Ascii("\tmessage=") + ErrorMessage(code) + Ascii("\thint=") + ErrorHint(code) + [LF])
  {
    hide Utf8.Valid, Ascii, ErrorMessage, ErrorHint, ItemField, READ_ERROR_CODES, ValidLine;
    ErrorValid(code);
    AsciiText("@\t");
    AsciiText("\"<path-hidden>\"");
    AsciiText("\terror\t");
    AsciiText("\tmessage=");
    AsciiText("\thint=");
    ValidJoin(out, Ascii("@\t"));
    ValidJoin(out + Ascii("@\t"), Ascii("\"<path-hidden>\""));
    ItemFieldValid(out + Ascii("@\t") + Ascii("\"<path-hidden>\""), index);
    var named := ItemField(out + Ascii("@\t") + Ascii("\"<path-hidden>\""), index);
    ValidJoin(named, Ascii("\terror\t"));
    ValidJoin(named + Ascii("\terror\t"), code);
    var failed := named + Ascii("\terror\t") + code;
    ValidJoin(failed, Ascii("\tmessage="));
    ValidJoin(failed + Ascii("\tmessage="), ErrorMessage(code));
    var told := failed + Ascii("\tmessage=") + ErrorMessage(code);
    ValidJoin(told, Ascii("\thint="));
    LineOf(told + Ascii("\thint="), ErrorHint(code));
  }

  lemma BlockHeadValid(out: Text, item: Item, index: nat, start: nat, end: nat, view: View)
    requires Utf8.Valid(out) && start < end <= Units(item) && ValidItem(item, view)
    ensures ValidLine(BlockHead(out, item, index, start, end))
  {
    hide Utf8.Valid, Ascii, ItemField, HeadTail, ValidLine, Quoted, ErrorMessage, ErrorHint, READ_ERROR_CODES;
    hide ValidLines, ValidRecords, ValidCodes;
    if item.FailedFile? {
      FailureValid(out, item.code, index);
    } else {
      AsciiText("@\t");
      QuotedText(item.path);
      ValidJoin(out, Ascii("@\t"));
      ValidJoin(out + Ascii("@\t"), Quoted(item.path));
      ItemFieldValid(out + Ascii("@\t") + Quoted(item.path), index);
      HeadTailValid(ItemField(out + Ascii("@\t") + Quoted(item.path), index), item, start, end, view);
    }
  }

  lemma {:induction false} BlocksValid(out: Text, items: seq<Item>, segments: seq<Segment>, view: View)
    requires ValidLine(out) && ValidSegments(items, segments) && ValidItems(items, view)
    ensures ValidLine(BlocksText(out, items, segments))
    decreases |segments|
  {
    hide ValidItem, Utf8.Valid, BlockHead, UnitsText;
    if segments != [] {
      var s := segments[0];
      BlockHeadValid(out, items[s.item], s.item, s.start, s.end, view);
      UnitsValid(BlockHead(out, items[s.item], s.item, s.start, s.end), items[s.item], s.item, s.start, s.end, view);
      BlocksValid(BlockText(out, items[s.item], s.item, s.start, s.end), items, segments[1..], view);
    }
  }

  // ---- Pages ----

  lemma HeadValid(view: View, complete: bool, segments: nat, cursor: Text)
    requires ValidStatusCursor(complete, cursor)
    ensures ValidLine(PageHead(view, complete, segments, cursor))
  {
    hide Utf8.Valid, FormatUint, Ascii, ValidLine;
    AsciiText("@@read\t");
    AsciiIsValid(ViewName(view));
    ByteValid(TAB);
    AsciiIsValid(StatusName(complete));
    AsciiText("\titems=");
    DigitsValid(segments);
    ValidJoin(Ascii("@@read\t"), ViewName(view));
    ValidJoin(Ascii("@@read\t") + ViewName(view), [TAB]);
    var lead := Ascii("@@read\t") + ViewName(view) + [TAB];
    ValidJoin(lead, StatusName(complete));
    ValidJoin(lead + StatusName(complete), Ascii("\titems="));
    var counted := lead + StatusName(complete) + Ascii("\titems=");
    if complete {
      LineOf(counted, FormatUint(segments));
      assert counted + FormatUint(segments) + [] == counted + FormatUint(segments);
    } else {
      AsciiText("\tcursor=");
      AsciiIsValid(cursor);
      ValidJoin(Ascii("\tcursor="), cursor);
      ValidJoin(counted, FormatUint(segments));
      LineOf(counted + FormatUint(segments), Ascii("\tcursor=") + cursor);
    }
  }

  // Every page of valid items is a valid result, so checking it never fails a page.
  lemma PageIsValidResult(view: View, items: seq<Item>, segments: seq<Segment>, complete: bool, cursor: Text)
    requires ValidItems(items, view) && ValidSegments(items, segments) && ValidStatusCursor(complete, cursor)
    ensures ValidResult(PageText(view, items, segments, complete, cursor))
  {
    hide ValidItems, PageHead, BlocksText;
    HeadValid(view, complete, |segments|, cursor);
    BlocksValid(PageHead(view, complete, |segments|, cursor), items, segments, view);
  }
}
