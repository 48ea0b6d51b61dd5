// The contract of text results (internal/api/result.go), and lines that keep it.
module ResultText {
  import opened Utf8
  import opened TextOrder
  import opened Magnitude
  import opened JsonCodec
  import opened OutputBuffer
  import opened PageFields
  import opened Vocabulary

  predicate OneLine(text: Text) {
    Utf8.Valid(text) && forall k :: 0 <= k < |text| ==> text[k] != CR && text[k] != LF
  }

  // What a text result promises its client: valid UTF-8 that ends with one line feed.
  predicate ValidResult(text: Text) {
    && Utf8.Valid(text) && text != [] && text[|text| - 1] == LF && (|text| > 1 ==> text[|text| - 2] != LF)
  }

  // A line that can follow any text.
  predicate ValidLine(line: Text) {
    Utf8.Valid(line) && |line| > 1 && line[|line| - 1] == LF && line[|line| - 2] != LF
  }

  lemma LineEnds(out: Text, line: Text)
    requires Utf8.Valid(out) && ValidLine(line)
    ensures ValidLine(out + line) && ValidResult(out + line)
  {
    hide Utf8.Valid;
    ValidJoin(out, line);
  }

  // A line from its parts: the last of them is not empty and has no line feed at its end.
  lemma LineOf(front: Text, last: Text)
    requires Utf8.Valid(front) && Utf8.Valid(last) && last != [] && last[|last| - 1] != LF
    ensures ValidLine(front + last + [LF])
  {
    hide Utf8.Valid;
    ValidJoin(front, last);
    AsciiIsValid([LF]);
    ValidJoin(front + last, [LF]);
  }

  lemma DigitsValid(n: nat)
    ensures Utf8.Valid(FormatUint(n)) && FormatUint(n) != [] && FormatUint(n)[|FormatUint(n)| - 1] != LF
  {
    hide FormatUint;
    AsciiIsValid(FormatUint(n));
  }

  lemma QuotedText(v: Text)
    requires Utf8.Valid(v)
    ensures Utf8.Valid(Quoted(v)) && Quoted(v) != [] && Quoted(v)[|Quoted(v)| - 1] != LF
  {
    hide Utf8.Valid, Body;
    QuotedIsValid(v);
  }

  lemma AsciiText(s: string)
    ensures Utf8.Valid(Ascii(s))
  {
    AsciiIsValid(Ascii(s));
  }

  lemma ByteValid(b: Byte)
    requires b < 0x80
    ensures Utf8.Valid([b])
  {
    AsciiIsValid([b]);
  }

  lemma ContinuesLine(out: Text, line: Text)
    requires ValidLine(out) && ValidLine(line)
    ensures ValidLine(out + line)
  {
    LineEnds(out, line);
  }

  // Words of a vocabulary.
  lemma CodeIsAscii(codes: seq<Text>, code: Text)
    requires code in codes && forall k :: 0 <= k < |codes| ==> forall i :: 0 <= i < |codes[k]| ==> codes[k][i] < 0x80
    ensures Utf8.Valid(code)
  {
    AsciiIsValid(code);
  }

  lemma LanguageValid(code: Text)
    requires code in LANGUAGES
    ensures Utf8.Valid(code)
  {
    CodeIsAscii(LANGUAGES, code);
  }

  lemma KindValid(code: Text)
    requires code in SYMBOL_KINDS
    ensures Utf8.Valid(code)
  {
    CodeIsAscii(SYMBOL_KINDS, code);
  }

  lemma WarningValid(code: Text)
    requires code in WARNING_CODES
    ensures Utf8.Valid(code)
  {
    CodeIsAscii(WARNING_CODES, code);
  }
}
