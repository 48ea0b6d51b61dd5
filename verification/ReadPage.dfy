// Pages of a read result: how a run of units is cut into per-file segments and rendered, and how
// the size of a page answers to moving either end of the run.
module ReadPage {
  import opened Magnitude
  import opened JsonCodec
  import opened OutputBuffer
  import opened PageFields
  import opened TextOrder
  import opened Vocabulary
  import opened ResultText

  datatype View = SourceView | OutlineView

  datatype Line = Line(number: nat, text: Text)

  datatype RecordKind = Import | Heading | Symbol

  datatype Record = Record(kind: RecordKind, start: nat, end: nat, depth: nat, symbolKind: Text, name: Text)

  datatype Item =
    | SourceRows(path: Text, lines: seq<Line>, warnings: seq<Text>)
    | OutlineRecords(path: Text, language: Text, records: seq<Record>, warnings: seq<Text>)
    | EmptyFile(path: Text, language: Text, warnings: seq<Text>)
    | FailedFile(code: Text, warnings: seq<Text>)

  // Units `start` to `end` of one item.
  datatype Segment = Segment(item: nat, start: nat, end: nat)

  datatype Position = Position(item: nat, offset: nat)

  const MAX_ITEMS := 24
  const MAX_LINE_NUMBER := 0x7FFF_FFFF

  function Units(item: Item): nat {
    match item
    case SourceRows(_, lines, _) => |lines|
    case OutlineRecords(_, _, records, _) => |records|
    case EmptyFile(_, _, _) => 1
    case FailedFile(_, _) => 1
  }

  predicate ConsecutiveLines(lines: seq<Line>) {
    |lines| > 0 &&
    (forall k :: 0 <= k < |lines| ==> 1 <= lines[k].number <= MAX_LINE_NUMBER) &&
    (forall k :: 0 <= k < |lines| - 1 ==> lines[k + 1].number == lines[k].number + 1)
  }

  predicate ValidLines(lines: seq<Line>) {
    ConsecutiveLines(lines) && forall k :: 0 <= k < |lines| ==> OneLine(lines[k].text)
  }

  const MAX_DEPTH := 0xFFFF
  const MAX_UINT32 := 0xFFFF_FFFF

  // An import has no kind, a heading is a section.
  predicate ValidRecord(record: Record) {
    && 1 <= record.start <= record.end <= MAX_UINT32 && record.depth <= MAX_DEPTH && Utf8.Valid(record.name)
    && match record.kind
       case Import => record.symbolKind == []
       case Heading => record.symbolKind == Word("section")
       case Symbol => record.symbolKind in SYMBOL_KINDS
  }

  function KindOrder(kind: RecordKind): nat {
    match kind
    case Import => 1
    case Heading => 2
    case Symbol => 3
  }

  function CompareRecords(l: Record, r: Record): int {
    First(Sign(l.start - r.start),
          First(Sign(l.end - r.end),
                First(KindOrder(l.kind) - KindOrder(r.kind),
                      First(Sign(l.depth - r.depth), CompareText(l.name, r.name)))))
  }

  predicate ValidRecords(records: seq<Record>) {
    && |records| > 0 && (forall k :: 0 <= k < |records| ==> ValidRecord(records[k]))
    && forall k :: 0 < k < |records| ==> CompareRecords(records[k - 1], records[k]) < 0
  }

  predicate ValidCodes(warnings: seq<Text>) {
    && (forall k :: 0 <= k < |warnings| ==> warnings[k] in WARNING_CODES)
    && forall k :: 0 < k < |warnings| ==> CompareText(warnings[k - 1], warnings[k]) < 0
  }

  predicate ValidItem(item: Item, view: View) {
    && ValidCodes(item.warnings)
    && match item
       case SourceRows(path, lines, _) => view == SourceView && ValidPath(path) && ValidLines(lines)
       case OutlineRecords(path, language, records, _) =>
         view == OutlineView && ValidPath(path) && language in LANGUAGES && ValidRecords(records)
       case EmptyFile(path, language, _) =>
         ValidPath(path) && if view == SourceView then language == [] else language in LANGUAGES
       case FailedFile(code, _) => code in READ_ERROR_CODES
  }

  predicate ValidItems(items: seq<Item>, view: View) {
    1 <= |items| <= MAX_ITEMS && forall k :: 0 <= k < |items| ==> ValidItem(items[k], view)
  }

  // ---- Rendering ----

  // Every text below is written after `out`, piece by piece.
  function ItemField(out: Text, index: nat): Text {
    out + Ascii("\titem=") + FormatUint(index)
  }

  function BlockStatus(complete: bool): Text {
    if complete then Ascii("\tcomplete") else Ascii("\tpartial")
  }

  function WarningText(out: Text, index: nat, warning: Text): Text {
    out + Ascii("!\t") + warning + Ascii("\titem=") + FormatUint(index) + [0x0A]
  }

  function WarningsText(out: Text, index: nat, warnings: seq<Text>): Text
    decreases |warnings|
  {
    if warnings == [] then out else WarningsText(WarningText(out, index, warnings[0]), index, warnings[1..])
  }

  function LineText(out: Text, line: Line): Text {
    out + FormatUint(line.number) + [0x7C] + line.text + [0x0A]
  }

  function RecordLead(out: Text, record: Record): Text {
    match record.kind
    case Import => out + Ascii("I\t")
    case Heading => out + Ascii("H\t") + FormatUint(record.depth) + [0x09]
    case Symbol => out + Ascii("S\t") + FormatUint(record.depth) + [0x09]
  }

  function RecordText(out: Text, record: Record): Text {
    var range := RecordLead(out, record) + FormatUint(record.start) + [0x3A] + FormatUint(record.end);
    (if record.kind == Symbol then range + [0x09] + record.symbolKind else range) + [0x09] + Quoted(record.name)
      + [0x0A]
  }

  // One unit of an item; the warnings follow the first.
  function UnitText(out: Text, item: Item, index: nat, k: nat): Text
    requires k < Units(item)
  {
    var unit := match item
      case SourceRows(_, lines, _) => LineText(out, lines[k])
      case OutlineRecords(_, _, records, _) => RecordText(out, records[k])
      case _ => out;
    if k == 0 then WarningsText(unit, index, item.warnings) else unit
  }

  function UnitsText(out: Text, item: Item, index: nat, start: nat, end: nat): Text
    requires start <= end <= Units(item)
    decreases end - start
  {
    if start == end then out else UnitsText(UnitText(out, item, index, start), item, index, start + 1, end)
  }

  // The rest of a block's first line, after the item it belongs to.
  function HeadTail(named: Text, item: Item, start: nat, end: nat): Text
    requires start < end <= Units(item) && !item.FailedFile?
  {
    match item
    case SourceRows(_, lines, _) =>
      named + [0x09] + FormatUint(lines[start].number) + [0x3A] + FormatUint(lines[end - 1].number) +
      BlockStatus(end == |lines|) + [0x0A]
    case OutlineRecords(_, language, records, _) =>
      named + [0x09] + language + BlockStatus(end == |records|) + [0x0A]
    case EmptyFile(_, language, _) =>
      if language == [] then named + Ascii("\tempty\tcomplete\n") else named + [0x09] + language + Ascii("\tcomplete\n")
  }

  // The line that opens a block.
  function BlockHead(out: Text, item: Item, index: nat, start: nat, end: nat): Text
    requires start < end <= Units(item)
  {
    if item.FailedFile? then
      ItemField(out + Ascii("@\t") + Ascii("\"<path-hidden>\""), index) + Ascii("\terror\t") + item.code +
      Ascii("\tmessage=") + ErrorMessage(item.code) + Ascii("\thint=") + ErrorHint(item.code) + [0x0A]
    else
      HeadTail(ItemField(out + Ascii("@\t") + Quoted(item.path), index), item, start, end)
  }

  function BlockText(out: Text, item: Item, index: nat, start: nat, end: nat): Text
    requires start < end <= Units(item)
  {
    UnitsText(BlockHead(out, item, index, start, end), item, index, start, end)
  }

  function ViewName(view: View): Text {
    if view == SourceView then Word("source") else Word("outline")
  }

  function PageHead(view: View, complete: bool, segments: nat, cursor: Text): Text {
    Ascii("@@read\t") + ViewName(view) + [0x09] + StatusName(complete) + Ascii("\titems=") + FormatUint(segments) +
    CursorField(complete, cursor) + [0x0A]
  }

  predicate ValidSegments(items: seq<Item>, segments: seq<Segment>) {
    forall k :: 0 <= k < |segments| ==>
      segments[k].item < |items| && segments[k].start < segments[k].end <= Units(items[segments[k].item])
  }

  function BlocksText(out: Text, items: seq<Item>, segments: seq<Segment>): Text
    requires ValidSegments(items, segments)
    decreases |segments|
  {
    if segments == [] then out
    else
      var s := segments[0];
      BlocksText(BlockText(out, items[s.item], s.item, s.start, s.end), items, segments[1..])
  }

  function PageText(view: View, items: seq<Item>, segments: seq<Segment>, complete: bool, cursor: Text): Text
    requires ValidSegments(items, segments)
  {
    BlocksText(PageHead(view, complete, |segments|, cursor), items, segments)
  }

  // ---- Rendering into the buffer ----

  method AppendItemWarnings(buffer: Buffer, index: nat, warnings: seq<Text>)
    requires buffer.Valid()
    modifies buffer
    ensures buffer.Valid() && buffer.written == WarningsText(old(buffer.written), index, warnings)
  {
    var k := 0;
    assert warnings[0..] == warnings;
    while k < |warnings|
      invariant 0 <= k <= |warnings| && buffer.Valid()
      invariant WarningsText(buffer.written, index, warnings[k..]) == WarningsText(old(buffer.written), index, warnings)
    {
      assert warnings[k..][0] == warnings[k] && warnings[k..][1..] == warnings[k + 1..];
      buffer.AppendString(Ascii("!\t"));
      buffer.AppendString(warnings[k]);
      buffer.AppendString(Ascii("\titem="));
      buffer.AppendUint(index);
      buffer.AppendByte(0x0A);
      k := k + 1;
    }
  }

  method AppendOutlineRecord(buffer: Buffer, record: Record) returns (ok: bool)
    requires buffer.Valid()
    modifies buffer
    ensures buffer.Valid() && (ok <==> Utf8.Valid(record.name))
    ensures ok ==> buffer.written == RecordText(old(buffer.written), record)
  {
    match record.kind {
      case Import =>
        buffer.AppendString(Ascii("I\t"));
      case Heading =>
        buffer.AppendString(Ascii("H\t"));
        buffer.AppendUint(record.depth);
        buffer.AppendByte(0x09);
      case Symbol =>
        buffer.AppendString(Ascii("S\t"));
        buffer.AppendUint(record.depth);
        buffer.AppendByte(0x09);
    }
    buffer.AppendUint(record.start);
    buffer.AppendByte(0x3A);
    buffer.AppendUint(record.end);
    if record.kind == Symbol {
      buffer.AppendByte(0x09);
      buffer.AppendString(record.symbolKind);
    }
    buffer.AppendByte(0x09);
    ok := buffer.Quote(record.name);
    if ok {
      buffer.AppendByte(0x0A);
    }
  }

  method AppendItemField(buffer: Buffer, index: nat)
    requires buffer.Valid()
    modifies buffer
    ensures buffer.Valid() && buffer.written == ItemField(old(buffer.written), index)
  {
    buffer.AppendString(Ascii("\titem="));
    buffer.AppendUint(index);
  }

  method AppendHeadTail(buffer: Buffer, item: Item, start: nat, end: nat)
    requires buffer.Valid() && start < end <= Units(item) && !item.FailedFile?
    modifies buffer
    ensures buffer.Valid() && buffer.written == HeadTail(old(buffer.written), item, start, end)
  {
    hide Buffer.Valid, Ascii, FormatUint, BlockStatus;
    match item {
      case SourceRows(_, lines, _) =>
        buffer.AppendByte(0x09);
        buffer.AppendUint(lines[start].number);
        buffer.AppendByte(0x3A);
        buffer.AppendUint(lines[end - 1].number);
        buffer.AppendString(BlockStatus(end == |lines|));
        buffer.AppendByte(0x0A);
      case OutlineRecords(_, language, records, _) =>
        buffer.AppendByte(0x09);
        buffer.AppendString(language);
        buffer.AppendString(BlockStatus(end == |records|));
        buffer.AppendByte(0x0A);
      case EmptyFile(_, language, _) =>
        if language == [] {
          buffer.AppendString(Ascii("\tempty\tcomplete\n"));
        } else {
          buffer.AppendByte(0x09);
          buffer.AppendString(language);
          buffer.AppendString(Ascii("\tcomplete\n"));
        }
    }
  }

  method AppendBlockHead(buffer: Buffer, item: Item, index: nat, start: nat, end: nat) returns (ok: bool)
    requires buffer.Valid() && start < end <= Units(item)
    modifies buffer
    ensures buffer.Valid() && (ok <==> item.FailedFile? || Utf8.Valid(item.path))
    ensures ok ==> buffer.written == BlockHead(old(buffer.written), item, index, start, end)
  {
    hide Buffer.Valid, Utf8.Valid, Ascii, Quoted, FormatUint, ItemField, HeadTail;
    buffer.AppendString(Ascii("@\t"));
    if item.FailedFile? {
      buffer.AppendString(Ascii("\"<path-hidden>\""));
      AppendItemField(buffer, index);
      buffer.AppendString(Ascii("\terror\t"));
      buffer.AppendString(item.code);
      buffer.AppendString(Ascii("\tmessage="));
      buffer.AppendString(ErrorMessage(item.code));
      buffer.AppendString(Ascii("\thint="));
      buffer.AppendString(ErrorHint(item.code));
      buffer.AppendByte(0x0A);
      return true;
    }
    ok := buffer.Quote(item.path);
    if !ok {
      return;
    }
    AppendItemField(buffer, index);
    AppendHeadTail(buffer, item, start, end);
  }

  method AppendUnit(buffer: Buffer, item: Item, index: nat, k: nat) returns (ok: bool)
    requires buffer.Valid() && k < Units(item)
    modifies buffer
    ensures buffer.Valid() && (ok <==> (item.OutlineRecords? ==> Utf8.Valid(item.records[k].name)))
    ensures ok ==> buffer.written == UnitText(old(buffer.written), item, index, k)
  {
    hide RecordText, FormatUint, WarningsText;
    ok := true;
    match item {
      case SourceRows(_, lines, _) =>
        buffer.AppendUint(lines[k].number);
        buffer.AppendByte(0x7C);
        buffer.AppendString(lines[k].text);
        buffer.AppendByte(0x0A);
      case OutlineRecords(_, _, records, _) =>
        ok := AppendOutlineRecord(buffer, records[k]);
      case _ =>
    }
    if ok && k == 0 {
      AppendItemWarnings(buffer, index, item.warnings);
    }
  }

  method AppendReadSegment(buffer: Buffer, item: Item, index: nat, start: nat, end: nat, ghost view: View)
    returns (ok: bool)
    requires buffer.Valid() && start < end <= Units(item) && ValidItem(item, view)
    modifies buffer
    ensures buffer.Valid() && ok
    ensures buffer.written == BlockText(old(buffer.written), item, index, start, end)
  {
    hide BlockHead, UnitText;
    ok := AppendBlockHead(buffer, item, index, start, end);
    ghost var head := buffer.written;
    var position := start;
    while position < end
      invariant start <= position <= end && buffer.Valid() && ok
      invariant UnitsText(buffer.written, item, index, position, end) == UnitsText(head, item, index, start, end)
    {
      ok := AppendUnit(buffer, item, index, position);
      position := position + 1;
    }
  }

  method AppendPageHead(buffer: Buffer, view: View, complete: bool, segments: nat, cursor: Text)
    requires buffer.Valid() && buffer.written == []
    modifies buffer
    ensures buffer.Valid() && buffer.written == PageHead(view, complete, segments, cursor)
  {
    hide Buffer.Valid, FormatUint, Ascii, ViewName, StatusName, CursorField;
    assert buffer.written + Ascii("@@read\t") == Ascii("@@read\t");
    buffer.AppendString(Ascii("@@read\t"));
    buffer.AppendString(ViewName(view));
    buffer.AppendByte(0x09);
    buffer.AppendString(StatusName(complete));
    buffer.AppendString(Ascii("\titems="));
    buffer.AppendUint(segments);
    buffer.AppendString(CursorField(complete, cursor));
    buffer.AppendByte(0x0A);
  }

  // Renders a page; the text is the page's whole text, and it fits exactly when its cursor is
  // one and it is not too long.
  method RenderReadMaterial(view: View, items: seq<Item>, segments: seq<Segment>, maxBytes: nat, complete: bool,
                            cursor: Text)
    returns (text: Text, fits: bool)
    requires ValidItems(items, view) && ValidSegments(items, segments)
    ensures fits <==>
      ValidStatusCursor(complete, cursor) && |PageText(view, items, segments, complete, cursor)| <= maxBytes
    ensures fits ==> text == PageText(view, items, segments, complete, cursor)
  {
    hide BlockText, PageHead, ValidStatusCursor;
    if !ValidStatusCursor(complete, cursor) {
      return [], false;
    }
    var buffer := new Buffer(maxBytes);
    AppendPageHead(buffer, view, complete, |segments|, cursor);
    var k := 0;
    assert segments[0..] == segments;
    while k < |segments|
      invariant 0 <= k <= |segments| && buffer.Valid() && fresh(buffer) && buffer.limit == maxBytes
      invariant BlocksText(buffer.written, items, segments[k..]) == PageText(view, items, segments, complete, cursor)
    {
      var s := segments[k];
      assert segments[k..][0] == s && segments[k..][1..] == segments[k + 1..];
      var _ := AppendReadSegment(buffer, items[s.item], s.item, s.start, s.end, view);
      k := k + 1;
    }
    text, fits := buffer.Finish();
  }

  // ---- Sizes ----

  function WarningsSize(index: nat, warnings: seq<Text>): nat
    decreases |warnings|
  {
    if warnings == [] then 0 else 2 + |warnings[0]| + 6 + |FormatUint(index)| + 1 + WarningsSize(index, warnings[1..])
  }

  function UnitSize(item: Item, index: nat, k: nat): (n: nat)
    requires k < Units(item)
    ensures item.SourceRows? ==> n >= |FormatUint(item.lines[k].number)| + 2
  {
    var unit := match item
      case SourceRows(_, lines, _) => |FormatUint(lines[k].number)| + 1 + |lines[k].text| + 1
      case OutlineRecords(_, _, records, _) => |RecordText([], records[k])|
      case _ => 0;
    unit + if k == 0 then WarningsSize(index, item.warnings) else 0
  }

  function UnitsSize(item: Item, index: nat, start: nat, end: nat): nat
    requires start <= end <= Units(item)
    decreases end - start
  {
    if start == end then 0 else UnitSize(item, index, start) + UnitsSize(item, index, start + 1, end)
  }

  function HeadSize(item: Item, index: nat, start: nat, end: nat): nat
    requires start < end <= Units(item)
  {
    match item
    case SourceRows(path, lines, _) =>
      2 + |Quoted(path)| + 6 + |FormatUint(index)| + 1 + |FormatUint(lines[start].number)| + 1 +
      |FormatUint(lines[end - 1].number)| + (if end == |lines| then 9 else 8) + 1
    case OutlineRecords(path, language, records, _) =>
      2 + |Quoted(path)| + 6 + |FormatUint(index)| + 1 + |language| + (if end == |records| then 9 else 8) + 1
    case _ => |BlockHead([], item, index, start, end)|
  }

  function BlockSize(item: Item, index: nat, start: nat, end: nat): nat
    requires start < end <= Units(item)
  {
    HeadSize(item, index, start, end) + UnitsSize(item, index, start, end)
  }

  function BlocksSize(items: seq<Item>, segments: seq<Segment>): nat
    requires ValidSegments(items, segments)
    decreases |segments|
  {
    if segments == [] then 0
    else
      var s := segments[0];
      BlockSize(items[s.item], s.item, s.start, s.end) + BlocksSize(items, segments[1..])
  }

  lemma {:induction false} WarningsLength(out: Text, index: nat, warnings: seq<Text>)
    ensures |WarningsText(out, index, warnings)| == |out| + WarningsSize(index, warnings)
    decreases |warnings|
  {
    if warnings != [] {
      WarningsLength(WarningText(out, index, warnings[0]), index, warnings[1..]);
    }
  }

  lemma RecordLength(out: Text, record: Record)
    ensures |RecordText(out, record)| == |out| + |RecordText([], record)|
  {
  }

  lemma UnitLength(out: Text, item: Item, index: nat, k: nat)
    requires k < Units(item)
    ensures |UnitText(out, item, index, k)| == |out| + UnitSize(item, index, k)
  {
    hide RecordText, WarningsText, WarningsSize;
    match item {
      case SourceRows(_, lines, _) =>
        WarningsLength(LineText(out, lines[k]), index, item.warnings);
      case OutlineRecords(_, _, records, _) =>
        RecordLength(out, records[k]);
        WarningsLength(RecordText(out, records[k]), index, item.warnings);
      case _ =>
        WarningsLength(out, index, item.warnings);
    }
  }

  lemma {:induction false} UnitsLength(out: Text, item: Item, index: nat, start: nat, end: nat)
    requires start <= end <= Units(item)
    ensures |UnitsText(out, item, index, start, end)| == |out| + UnitsSize(item, index, start, end)
    decreases end - start
  {
    hide UnitText, UnitSize;
    if start < end {
      UnitLength(out, item, index, start);
      UnitsLength(UnitText(out, item, index, start), item, index, start + 1, end);
    }
  }

  lemma HeadLength(out: Text, item: Item, index: nat, start: nat, end: nat)
    requires start < end <= Units(item)
    ensures |BlockHead(out, item, index, start, end)| == |out| + HeadSize(item, index, start, end)
  {
    hide FormatUint, Quoted;
  }

  lemma {:induction false} BlocksLength(out: Text, items: seq<Item>, segments: seq<Segment>)
    requires ValidSegments(items, segments)
    ensures |BlocksText(out, items, segments)| == |out| + BlocksSize(items, segments)
    decreases |segments|
  {
    hide BlockHead, HeadSize, UnitsText, UnitsSize;
    if segments != [] {
      var s := segments[0];
      var item := items[s.item];
      HeadLength(out, item, s.item, s.start, s.end);
      UnitsLength(BlockHead(out, item, s.item, s.start, s.end), item, s.item, s.start, s.end);
      BlocksLength(BlockText(out, item, s.item, s.start, s.end), items, segments[1..]);
    }
  }

  // ---- One end of a block moves ----

  lemma DigitsNext(n: nat)
    requires n > 0
    ensures |FormatUint(n + 1)| <= |FormatUint(n)| + 1
  {
    DigitsGrow(n + 1, 10 * n);
    assert 10 * n / 10 == n;
  }

  lemma {:induction false} UnitsAppend(item: Item, index: nat, start: nat, end: nat)
    requires start <= end < Units(item)
    ensures UnitsSize(item, index, start, end + 1) == UnitsSize(item, index, start, end) + UnitSize(item, index, end)
    decreases end - start
  {
    hide UnitSize;
    if start < end {
      UnitsAppend(item, index, start + 1, end);
    }
  }

  // One unit more at the end makes a block no smaller.
  lemma BlockGrows(item: Item, index: nat, start: nat, end: nat, view: View)
    requires start < end < Units(item) && ValidItem(item, view)
    ensures BlockSize(item, index, start, end) <= BlockSize(item, index, start, end + 1)
  {
    hide UnitsSize, UnitSize, FormatUint, Quoted;
    UnitsAppend(item, index, start, end);
    if item.SourceRows? {
      DigitsGrow(item.lines[end - 1].number, item.lines[end].number);
    }
  }

  // One unit less at the start makes a block no bigger, although the number of its first line grows.
  lemma BlockShrinks(item: Item, index: nat, start: nat, end: nat, view: View)
    requires start + 1 < end <= Units(item) && ValidItem(item, view)
    ensures BlockSize(item, index, start + 1, end) <= BlockSize(item, index, start, end)
  {
    hide UnitSize, FormatUint, Quoted;
    if item.SourceRows? {
      DigitsNext(item.lines[start].number);
    }
  }

  // ---- Runs of units ----

  predicate ValidPosition(items: seq<Item>, p: Position) {
    (p.item < |items| && p.offset < Units(items[p.item])) || p == Position(|items|, 0)
  }

  // How many units are left from a position on.
  function Remaining(items: seq<Item>, p: Position): (n: nat)
    requires ValidPosition(items, p) && SomeUnits(items)
    ensures n == 0 <==> p.item == |items|
    decreases |items| - p.item
  {
    if p.item == |items| then 0
    else Units(items[p.item]) - p.offset + Remaining(items, Start(items, p.item + 1))
  }

  function Start(items: seq<Item>, item: nat): (p: Position)
    requires item <= |items| && SomeUnits(items)
    ensures ValidPosition(items, p)
  {
    Position(item, 0)
  }

  function Take(items: seq<Item>, p: Position, count: nat): nat
    requires p.item < |items| && p.offset < Units(items[p.item])
  {
    if count < Units(items[p.item]) - p.offset then count else Units(items[p.item]) - p.offset
  }

  // The position `count` units further on.
  function After(items: seq<Item>, p: Position, count: nat): (q: Position)
    requires ValidPosition(items, p) && SomeUnits(items)
    requires count <= Remaining(items, p)
    ensures ValidPosition(items, q) && Remaining(items, q) == Remaining(items, p) - count
    decreases |items| - p.item
  {
    if count == 0 then p
    else if count < Units(items[p.item]) - p.offset then Position(p.item, p.offset + count)
    else After(items, Start(items, p.item + 1), count - (Units(items[p.item]) - p.offset))
  }

  // The run of `count` units from a position, cut where an item ends.
  function Segments(items: seq<Item>, p: Position, count: nat): (segments: seq<Segment>)
    requires ValidPosition(items, p) && SomeUnits(items)
    requires count <= Remaining(items, p)
    ensures ValidSegments(items, segments)
    ensures count > 0 ==> segments != []
    decreases |items| - p.item
  {
    if count == 0 then []
    else
      var taken := Take(items, p, count);
      var rest := if count == taken then [] else Segments(items, Start(items, p.item + 1), count - taken);
      SegmentBefore(items, Segment(p.item, p.offset, p.offset + taken), rest);
      [Segment(p.item, p.offset, p.offset + taken)] + rest
  }

  lemma SegmentBefore(items: seq<Item>, s: Segment, rest: seq<Segment>)
    requires s.item < |items| && s.start < s.end <= Units(items[s.item]) && ValidSegments(items, rest)
    ensures ValidSegments(items, [s] + rest)
  {
  }

  predicate SomeUnits(items: seq<Item>) {
    forall k :: 0 <= k < |items| ==> Units(items[k]) > 0
  }

  // ---- The size of a page ----

  // The length of the page that shows `count` units from a position.
  function PageSize(view: View, items: seq<Item>, p: Position, count: nat, complete: bool, cursor: Text): nat
    requires SomeUnits(items) && ValidPosition(items, p) && count <= Remaining(items, p)
  {
    |PageText(view, items, Segments(items, p, count), complete, cursor)|
  }

  // One unit more at the end of a run makes its blocks no smaller.
  lemma {:induction false} RunGrows(view: View, items: seq<Item>, p: Position, count: nat)
    requires ValidItems(items, view) && SomeUnits(items) && ValidPosition(items, p) && count < Remaining(items, p)
    ensures |Segments(items, p, count)| <= |Segments(items, p, count + 1)|
    ensures BlocksSize(items, Segments(items, p, count)) <= BlocksSize(items, Segments(items, p, count + 1))
    decreases |items| - p.item
  {
    hide BlockSize, BlocksSize, Segments, ValidItem, Units;
    var item := items[p.item];
    var available := Units(item) - p.offset;
    if count == 0 {
      NoSegments(items, p);
    } else if count < available {
      BlockGrows(item, p.item, p.offset, p.offset + count, view);
      OneSegment(items, p, count);
      OneSegment(items, p, count + 1);
    } else {
      RunGrows(view, items, Start(items, p.item + 1), count - available);
      MoreSegments(items, p, count);
      MoreSegments(items, p, count + 1);
    }
  }

  // One round of cutting: the first segment, and the rest from the position after it.
  lemma CutOnce(items: seq<Item>, p: Position, count: nat)
    requires SomeUnits(items) && ValidPosition(items, p) && p.item < |items| && 0 < count
    ensures
      var taken := Take(items, p, count);
      var next := if p.offset + taken == Units(items[p.item]) then Position(p.item + 1, 0)
          else Position(p.item, p.offset + taken);
      && taken > 0 && ValidPosition(items, next)
      && (count - taken <= Remaining(items, next) <==> count <= Remaining(items, p))
      && (count <= Remaining(items, p) ==>
            Segments(items, p, count)
              == [Segment(p.item, p.offset, p.offset + taken)] + Segments(items, next, count - taken) &&
            After(items, p, count) == After(items, next, count - taken))
  {
    hide Units, Segments, After, Remaining;
    RemainingCut(items, p, count);
    if count < Units(items[p.item]) - p.offset {
      CutWithin(items, p, count);
    } else if count <= Remaining(items, p) {
      CutAcross(items, p, count);
    }
  }

  lemma RemainingCut(items: seq<Item>, p: Position, k: nat)
    requires SomeUnits(items) && ValidPosition(items, p) && p.item < |items|
    ensures Remaining(items, p) == Units(items[p.item]) - p.offset + Remaining(items, Start(items, p.item + 1))
    ensures k < Units(items[p.item]) - p.offset ==>
      Remaining(items, Position(p.item, p.offset + k)) == Remaining(items, p) - k
  {
    hide Units;
  }

  lemma CutWithin(items: seq<Item>, p: Position, count: nat)
    requires SomeUnits(items) && ValidPosition(items, p) && p.item < |items|
    requires 0 < count < Units(items[p.item]) - p.offset && count <= Remaining(items, p)
    ensures
      var next := Position(p.item, p.offset + count);
      && ValidPosition(items, next) && After(items, p, count) == After(items, next, 0)
      && Segments(items, p, count) == [Segment(p.item, p.offset, p.offset + count)] + Segments(items, next, 0)
  {
    hide Units, Remaining;
  }

  lemma CutAcross(items: seq<Item>, p: Position, count: nat)
    requires SomeUnits(items) && ValidPosition(items, p) && p.item < |items|
    requires Units(items[p.item]) - p.offset <= count <= Remaining(items, p)
    ensures
      var taken, next := Units(items[p.item]) - p.offset, Start(items, p.item + 1);
      && count - taken <= Remaining(items, next) && After(items, p, count) == After(items, next, count - taken)
      && Segments(items, p, count)
           == [Segment(p.item, p.offset, p.offset + taken)] + Segments(items, next, count - taken)
  {
    hide Units;
  }

  lemma BlocksCons(items: seq<Item>, s: Segment, rest: seq<Segment>)
    requires s.item < |items| && s.start < s.end <= Units(items[s.item]) && ValidSegments(items, rest)
    ensures ValidSegments(items, [s] + rest)
    ensures BlocksSize(items, [s] + rest) == BlockSize(items[s.item], s.item, s.start, s.end) + BlocksSize(items, rest)
  {
    hide BlockSize;
    assert ([s] + rest)[1..] == rest;
  }

  // A run within one item is one segment.
  lemma OneSegment(items: seq<Item>, p: Position, count: nat)
    requires SomeUnits(items) && ValidPosition(items, p) && p.item < |items|
    requires 0 < count <= Units(items[p.item]) - p.offset && count <= Remaining(items, p)
    ensures Segments(items, p, count) == [Segment(p.item, p.offset, p.offset + count)]
    ensures BlocksSize(items, Segments(items, p, count)) == BlockSize(items[p.item], p.item, p.offset, p.offset + count)
  {
    hide BlockSize;
    var s := Segment(p.item, p.offset, p.offset + count);
    BlocksCons(items, s, []);
    assert [s] + [] == [s];
  }

  // A run that reaches the end of its first item goes on with the next one.
  lemma MoreSegments(items: seq<Item>, p: Position, count: nat)
    requires SomeUnits(items) && ValidPosition(items, p) && p.item < |items|
    requires Units(items[p.item]) - p.offset <= count <= Remaining(items, p)
    ensures count - (Units(items[p.item]) - p.offset) <= Remaining(items, Start(items, p.item + 1))
    ensures
      var item := items[p.item];
      var rest := Segments(items, Start(items, p.item + 1), count - (Units(item) - p.offset));
      && |Segments(items, p, count)| == 1 + |rest|
      && BlocksSize(items, Segments(items, p, count)) ==
           BlockSize(item, p.item, p.offset, Units(item)) + BlocksSize(items, rest)
  {
    hide BlockSize, BlocksSize, Segments, After, Remaining;
    var item := items[p.item];
    CutOnce(items, p, count);
    var rest := Segments(items, Start(items, p.item + 1), count - (Units(item) - p.offset));
    BlocksCons(items, Segment(p.item, p.offset, Units(item)), rest);
  }

  lemma AfterOne(items: seq<Item>, p: Position)
    requires SomeUnits(items) && ValidPosition(items, p) && p.item < |items|
    ensures After(items, p, 1) ==
            if Units(items[p.item]) - p.offset == 1 then Start(items, p.item + 1) else Position(p.item, p.offset + 1)
  {
    hide Units;
  }

  lemma NoSegments(items: seq<Item>, p: Position)
    requires SomeUnits(items) && ValidPosition(items, p)
    ensures Segments(items, p, 0) == [] && BlocksSize(items, []) == 0
    ensures After(items, p, 0) == p
  {
  }

  // One unit less at the start of a run makes its blocks no bigger.
  lemma RunShrinks(view: View, items: seq<Item>, p: Position, count: nat)
    requires ValidItems(items, view) && SomeUnits(items) && ValidPosition(items, p) && 0 < count <= Remaining(items, p)
    ensures |Segments(items, After(items, p, 1), count - 1)| <= |Segments(items, p, count)|
    ensures BlocksSize(items, Segments(items, After(items, p, 1), count - 1)) <= BlocksSize(items,
          Segments(items, p, count))
  {
    hide BlockSize, BlocksSize, Segments, After, ValidItem, Units;
    var item := items[p.item];
    var available := Units(item) - p.offset;
    AfterOne(items, p);
    if available == 1 {
      MoreSegments(items, p, count);
    } else {
      var q := Position(p.item, p.offset + 1);
      if count == 1 {
        NoSegments(items, q);
      } else if count <= available {
        BlockShrinks(item, p.item, p.offset, p.offset + count, view);
        OneSegment(items, p, count);
        OneSegment(items, q, count - 1);
      } else {
        BlockShrinks(item, p.item, p.offset, Units(item), view);
        MoreSegments(items, p, count);
        MoreSegments(items, q, count - 1);
      }
    }
  }

  lemma PageHeadGrows(view: View, complete: bool, fewer: nat, more: nat, cursor: Text)
    requires fewer <= more
    ensures |PageHead(view, complete, fewer, cursor)| <= |PageHead(view, complete, more, cursor)|
  {
    hide FormatUint;
    DigitsGrow(fewer, more);
  }

  // A page with one unit more at its end is no smaller.
  lemma PageGrows(view: View, items: seq<Item>, p: Position, count: nat, complete: bool, cursor: Text)
    requires ValidItems(items, view) && SomeUnits(items) && ValidPosition(items, p) && count < Remaining(items, p)
    ensures PageSize(view, items, p, count, complete, cursor) <= PageSize(view, items, p, count + 1, complete, cursor)
  {
    hide BlocksText, PageHead, Segments, BlocksSize;
    RunGrows(view, items, p, count);
    var a, b := Segments(items, p, count), Segments(items, p, count + 1);
    PageHeadGrows(view, complete, |a|, |b|, cursor);
    BlocksLength(PageHead(view, complete, |a|, cursor), items, a);
    BlocksLength(PageHead(view, complete, |b|, cursor), items, b);
  }

  // A page with one unit less at its start is no bigger.
  lemma PageShrinks(view: View, items: seq<Item>, p: Position, count: nat, complete: bool, cursor: Text)
    requires ValidItems(items, view) && SomeUnits(items) && ValidPosition(items, p) && 0 < count <= Remaining(items, p)
    ensures PageSize(view, items, After(items, p, 1), count - 1, complete, cursor) <= PageSize(view, items, p, count,
          complete, cursor)
  {
    hide BlocksText, PageHead, Segments, BlocksSize, After;
    RunShrinks(view, items, p, count);
    var a, b := Segments(items, After(items, p, 1), count - 1), Segments(items, p, count);
    PageHeadGrows(view, complete, |a|, |b|, cursor);
    BlocksLength(PageHead(view, complete, |a|, cursor), items, a);
    BlocksLength(PageHead(view, complete, |b|, cursor), items, b);
  }

  // ---- Cutting runs ----

  method RemainingReadUnits(items: seq<Item>, p: Position) returns (remaining: nat)
    requires SomeUnits(items) && ValidPosition(items, p)
    ensures remaining == Remaining(items, p)
  {
    remaining := 0;
    var index := p.item;
    while index < |items|
      invariant p.item <= index <= |items|
      invariant remaining + Remaining(items, if index == p.item then p else Start(items, index)) == Remaining(items, p)
    {
      var units := Units(items[index]);
      if index == p.item {
        units := units - p.offset;
      }
      remaining := remaining + units;
      index := index + 1;
    }
  }

  lemma OneMoreSegment(done: seq<Segment>, s: Segment, rest: seq<Segment>)
    ensures done + ([s] + rest) == (done + [s]) + rest
  {
  }

  // Cuts `count` units from a position, if there are as many; finds the position after them.
  method ReadSegments(items: seq<Item>, start: Position, count: nat)
    returns (segments: seq<Segment>, end: Position, ok: bool)
    requires SomeUnits(items) && ValidPosition(items, start)
    ensures ok <==> 0 < count <= Remaining(items, start)
    ensures ok ==> segments == Segments(items, start, count) && end == After(items, start, count)
  {
    hide Segments, After, Remaining, ValidSegments;
    if count == 0 || start.item >= |items| || start.offset >= Units(items[start.item]) {
      return [], Position(0, 0), false;
    }
    var position, left: nat := start, count;
    segments := [];
    ghost var enough := count <= Remaining(items, start);
    while left > 0 && position.item < |items|
      invariant ValidPosition(items, position) && left <= count
      invariant left <= Remaining(items, position) <==> enough
      invariant enough ==> left <= Remaining(items, position) &&
                           segments + Segments(items, position, left) == Segments(items, start, count) &&
                           After(items, position, left) == After(items, start, count)
      decreases |items| - position.item, left
    {
      var taken := Take(items, position, left);
      var next := if position.offset + taken == Units(items[position.item])
                  then Position(position.item + 1, 0) else Position(position.item, position.offset + taken);
      CutOnce(items, position, left);
      if enough {
        OneMoreSegment(segments, Segment(position.item, position.offset, position.offset + taken),
                       Segments(items, next, left - taken));
      }
      segments := segments + [Segment(position.item, position.offset, position.offset + taken)];
      position := next;
      left := left - taken;
    }
    if left != 0 {
      return [], Position(0, 0), false;
    }
    NoSegments(items, position);
    return segments, position, true;
  }
}
