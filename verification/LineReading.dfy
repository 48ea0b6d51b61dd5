// Reading a page back as its client does: text into lines, lines into fields, fields into numbers
// and quoted texts.
module LineReading {
  import opened Utf8
  import opened TextOrder
  import opened Magnitude
  import opened JsonGrammar
  import opened JsonCodec
  import opened PageFields
  import opened Vocabulary
  import opened ResultText

  // ---- Cutting ----

  // What comes before the first such byte, and what comes after it.
  function Until(text: Text, b: Byte): (front: Text)
    ensures front <= text && b !in front && (|front| < |text| ==> text[|front|] == b)
  {
    if text == [] || text[0] == b then [] else [text[0]] + Until(text[1..], b)
  }

  function Beyond(text: Text, b: Byte): (rest: Text)
    ensures text != [] ==> |rest| < |text|
  {
    var n := |Until(text, b)|;
    if n < |text| then text[n + 1..] else []
  }

  lemma {:induction false} CutAt(front: Text, b: Byte, rest: Text)
    requires b !in front
    ensures Until(front + [b] + rest, b) == front && Beyond(front + [b] + rest, b) == rest
  {
    var text := front + [b] + rest;
    if front == [] {
      assert text[0] == b;
    } else {
      CutAt(front[1..], b, rest);
      assert text[1..] == front[1..] + [b] + rest;
    }
  }

  lemma {:induction false} NoCut(text: Text, b: Byte)
    requires b !in text
    ensures Until(text, b) == text
  {
    if text != [] {
      NoCut(text[1..], b);
    }
  }

  lemma {:induction false} StopsEarly(text: Text, b: Byte, k: nat)
    requires k < |text| && text[k] == b
    ensures |Until(text, b)| <= k
  {
    if text[0] != b {
      StopsEarly(text[1..], b, k - 1);
    }
  }

  lemma CutsThere(text: Text, b: Byte)
    requires b in text
    ensures text == Until(text, b) + [b] + Beyond(text, b)
  {
    var k :| 0 <= k < |text| && text[k] == b;
    StopsEarly(text, b, k);
  }

  lemma Regroup(a: Text, b: Byte, c: Text, d: Byte, e: Text)
    ensures a + [b] + c + [d] + e == a + [b] + (c + [d] + e)
  {
  }

  // ---- Lines ----

  function Lines(text: Text): (lines: seq<Text>)
    decreases |text|
  {
    if text == [] then [] else [Until(text, LF)] + Lines(Beyond(text, LF))
  }

  // A text of whole lines.
  predicate Whole(text: Text) {
    text == [] || text[|text| - 1] == LF
  }

  lemma {:induction false} LinesMore(out: Text, line: Text)
    requires Whole(out) && LF !in line
    ensures Lines(out + line + [LF]) == Lines(out) + [line] && Whole(out + line + [LF])
    decreases |out|
  {
    var text := out + line + [LF];
    if out == [] {
      CutAt(line, LF, []);
      assert text == line + [LF] + [];
    } else {
      var front, rest := Until(out, LF), Beyond(out, LF);
      StopsEarly(out, LF, |out| - 1);
      assert out == front + [LF] + rest;
      assert text == front + [LF] + (rest + line + [LF]);
      CutAt(front, LF, rest + line + [LF]);
      LinesMore(rest, line);
    }
  }

  // ---- Fields ----

  function Fields(line: Text): (fields: seq<Text>)
    decreases |line|
  {
    if TAB in line then [Until(line, TAB)] + Fields(Beyond(line, TAB)) else [line]
  }

  lemma FieldThen(field: Text, rest: Text)
    requires TAB !in field
    ensures Fields(field + [TAB] + rest) == [field] + Fields(rest)
  {
    CutAt(field, TAB, rest);
    assert (field + [TAB] + rest)[|field|] == TAB;
  }

  lemma OneField(field: Text)
    requires TAB !in field
    ensures Fields(field) == [field]
  {
  }

  lemma {:induction false} FieldsJoin(a: Text, b: Text)
    ensures Fields(a + [TAB] + b) == Fields(a) + Fields(b)
    decreases |a|
  {
    hide Until, Beyond;
    if TAB in a {
      var front, rest := Until(a, TAB), Beyond(a, TAB);
      CutsThere(a, TAB);
      Regroup(front, TAB, rest, TAB, b);
      FieldsJoin(rest, b);
      FieldThen(front, rest);
      FieldThen(front, rest + [TAB] + b);
      FieldsCons(front, Fields(rest), Fields(b));
    } else {
      FieldThen(a, b);
      OneField(a);
    }
  }

  lemma FieldsCons(first: Text, a: seq<Text>, b: seq<Text>)
    ensures [first] + (a + b) == [first] + a + b
  {
  }

  // The fields of a line, separated by tabs.
  function Tabbed(fields: seq<Text>): Text
    requires fields != []
  {
    if |fields| == 1 then fields[0] else Tabbed(fields[..|fields| - 1]) + [TAB] + fields[|fields| - 1]
  }

  lemma {:induction false} TabbedFields(fields: seq<Text>)
    requires fields != [] && forall k :: 0 <= k < |fields| ==> Inline(fields[k])
    ensures Fields(Tabbed(fields)) == fields && LF !in Tabbed(fields)
  {
    hide Inline, Fields;
    var last := fields[|fields| - 1];
    InlineHas(last);
    OneField(last);
    if |fields| > 1 {
      TabbedFields(fields[..|fields| - 1]);
      FieldsJoin(Tabbed(fields[..|fields| - 1]), last);
      assert fields == fields[..|fields| - 1] + [last];
    }
  }

  lemma ThreeFields(f: seq<Text>)
    requires |f| == 3
    ensures Tabbed(f) == f[0] + [TAB] + f[1] + [TAB] + f[2]
  {
    assert f[..2][..1] == f[..1];
    assert Tabbed(f[..2]) == f[0] + [TAB] + f[1];
  }

  lemma FourFields(f: seq<Text>)
    requires |f| == 4
    ensures Tabbed(f) == f[0] + [TAB] + f[1] + [TAB] + f[2] + [TAB] + f[3]
  {
    ThreeFields(f[..3]);
  }

  lemma FiveFields(f: seq<Text>)
    requires |f| == 5
    ensures Tabbed(f) == f[0] + [TAB] + f[1] + [TAB] + f[2] + [TAB] + f[3] + [TAB] + f[4]
  {
    FourFields(f[..4]);
  }

  lemma SevenFields(f: seq<Text>)
    requires |f| == 7
    ensures Tabbed(f) == f[0] + [TAB] + f[1] + [TAB] + f[2] + [TAB] + f[3] + [TAB] + f[4] + [TAB] + f[5] + [TAB] + f[6]
  {
    FiveFields(f[..5]);
    assert f[..6][..5] == f[..5];
    assert Tabbed(f[..6]) == Tabbed(f[..5]) + [TAB] + f[5];
  }

  // What a field says after its name.
  function Value(field: Text, name: Text): Text {
    if name <= field then field[|name|..] else []
  }

  lemma ValueOf(name: Text, v: Text)
    ensures Value(name + v, name) == v
  {
  }

  function Number(text: Text): nat {
    if AllDigits(text) then Val(text) else 0
  }

  lemma NumberOf(n: nat)
    ensures Number(FormatUint(n)) == n
  {
  }

  // The text that is quoted.
  ghost function Unquoted(text: Text): Text {
    if exists v :: Utf8.Valid(v) && Quoted(v) == text
    then (var v :| Utf8.Valid(v) && Quoted(v) == text; v)
    else []
  }

  lemma UnquotedOf(v: Text)
    requires Utf8.Valid(v)
    ensures Unquoted(Quoted(v)) == v
  {
    hide Utf8.Valid, Quoted;
    var w := Unquoted(Quoted(v));
    assert Utf8.Valid(w) && Quoted(w) == Quoted(v);
    QuotedInjective(v, w);
  }

  // ---- Fields without control bytes ----

  // Nothing in it ends a field or a line.
  predicate Inline(text: Text) {
    forall k :: 0 <= k < |text| ==> text[k] >= 0x20
  }

  lemma InlineHas(text: Text)
    requires Inline(text)
    ensures TAB !in text && LF !in text
  {
  }

  lemma InlineJoin(a: Text, b: Text)
    requires Inline(a) && Inline(b)
    ensures Inline(a + b)
  {
  }

  lemma DigitsInline(n: nat)
    ensures Inline(FormatUint(n))
  {
    hide FormatUint, Val;
    assert forall k :: 0 <= k < |FormatUint(n)| ==> IsDigit(FormatUint(n)[k]);
  }

  lemma SpellingInline(b: Byte)
    ensures Inline(Spelling(b))
  {
  }

  lemma {:induction false} BodyInline(v: Text)
    ensures Inline(Body(v))
  {
    hide Spelling;
    if v != [] {
      SpellingInline(v[0]);
      BodyInline(v[1..]);
      InlineJoin(Spelling(v[0]), Body(v[1..]));
    }
  }

  lemma QuotedInline(v: Text)
    ensures Inline(Quoted(v))
  {
    hide Body;
    BodyInline(v);
    InlineJoin([QUOTE], Body(v));
    InlineJoin([QUOTE] + Body(v), [QUOTE]);
  }

  lemma WordInline(s: string)
    ensures Inline(Word(s))
  {
  }

  lemma NamedInline(name: string, n: nat)
    ensures Inline(Word(name) + FormatUint(n))
  {
    hide FormatUint;
    DigitsInline(n);
  }

  lemma CursorInline(cursor: Text)
    requires ValidCursor(cursor)
    ensures Inline(cursor)
  {
    assert forall k :: 0 <= k < |cursor| ==> CursorByte(cursor[k]);
  }

  // ---- The words of the vocabulary ----

  lemma LanguageInline(code: Text)
    requires code in LANGUAGES
    ensures Inline(code) && code != []
  {
  }

  lemma KindInline(code: Text)
    requires code in SYMBOL_KINDS
    ensures Inline(code)
  {
    hide Word;
  }

  lemma WarningInline(code: Text)
    requires code in WARNING_CODES
    ensures Inline(code)
  {
    hide Word;
  }

  lemma ErrorInline(code: Text)
    requires code in READ_ERROR_CODES
    ensures Inline(code) && Inline(ErrorMessage(code)) && Inline(ErrorHint(code))
  {
    hide ErrorMessage, ErrorHint;
  }

  // How the names of fields are written.
  lemma FieldNames()
    ensures Ascii("\titem=") == [TAB] + Word("item=")
    ensures Ascii("\titems=") == [TAB] + Word("items=")
    ensures Ascii("\tcursor=") == [TAB] + Word("cursor=")
  {
  }
}
