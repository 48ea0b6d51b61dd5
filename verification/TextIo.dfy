// Streaming a file as canonical lines: newlines are canonicalised on the way, every line goes to
// a sink as it ends, and the same bytes go to the digest. The buffering sink keeps them all.
module TextIo {
  import opened Wrappers
  import opened Utf8
  import opened CanonicalText

  datatype Code = InvalidInput | BudgetExceeded | IoError | Binary | UnsupportedEncoding

  // What the decoder yields: scalars, and then the end of the file or a failure.
  datatype Source = Source(text: seq<int>, failure: Option<Code>)

  datatype LineOffset = LineOffset(number: nat, start: nat, end: nat)

  datatype Summary = Summary(finalLF: bool, digested: seq<Byte>, lineCount: nat)

  datatype CanonicalBuffer = CanonicalBuffer(summary: Summary, bytes: seq<Byte>, lines: seq<LineOffset>)

  const MAX_UINT64: nat := 0xFFFF_FFFF_FFFF_FFFF
  const MAX_UINT32: nat := 0xFFFF_FFFF
  const MAX_CANONICAL_BUFFER_BYTES := 33_554_432

  // ---- Lines in a buffer ----

  predicate AllScalars(lines: seq<seq<int>>) {
    forall k :: 0 <= k < |lines| ==> Scalars(lines[k])
  }

  // Lines laid out one after the other, each followed by a line feed.
  function Laid(lines: seq<seq<int>>): (b: seq<Byte>)
    requires AllScalars(lines)
  {
    if lines == [] then [] else Laid(lines[..|lines| - 1]) + Bytes(lines[|lines| - 1]) + [LF]
  }

  // Each offset spans its own line, and the next one starts right after its line feed.
  predicate Tiles(bytes: seq<Byte>, offsets: seq<LineOffset>, lines: seq<seq<int>>)
    requires AllScalars(lines)
  {
    && |offsets| == |lines|
    && (forall k :: 0 <= k < |lines| ==>
          offsets[k].number == k + 1 && offsets[k].start <= offsets[k].end <= |bytes| &&
          bytes[offsets[k].start..offsets[k].end] == Bytes(lines[k]))
    && (|lines| > 0 ==> offsets[0].start == 0)
    && (forall k :: 0 <= k < |lines| - 1 ==>
      offsets[k].end < |bytes| && bytes[offsets[k].end] == LF && offsets[k + 1].start == offsets[k].end + 1)
    && (|lines| > 0 ==> |bytes| - 1 <= offsets[|lines| - 1].end)
  }

  lemma TilesAppend(bytes: seq<Byte>, offsets: seq<LineOffset>, lines: seq<seq<int>>, line: seq<int>)
    requires AllScalars(lines) && Scalars(line) && Tiles(bytes, offsets, lines)
    requires lines == [] ==> bytes == []
    requires lines != [] ==> bytes != [] && offsets[|lines| - 1].end == |bytes| - 1 && bytes[|bytes| - 1] == LF
    ensures
      var end := |bytes| + |Bytes(line)|;
      && AllScalars(lines + [line])
      && Tiles(bytes + Bytes(line) + [LF], offsets + [LineOffset(|lines| + 1, |bytes|, end)], lines + [line])
  {
    hide Bytes;
    var text := Bytes(line);
    var end := |bytes| + |text|;
    var after := bytes + text + [LF];
    var longer := offsets + [LineOffset(|lines| + 1, |bytes|, end)];
    assert after[|bytes|..end] == text;
    forall k | 0 <= k < |lines| ensures longer[k] == offsets[k]
      && after[longer[k].start..longer[k].end] == Bytes(lines[k]) {
      assert after[offsets[k].start..offsets[k].end] == bytes[offsets[k].start..offsets[k].end];
    }
    forall k | 0 <= k < |lines| ensures longer[k].end < |after| && after[longer[k].end] == LF
      && longer[k + 1].start == longer[k].end + 1 {
      if k < |lines| - 1 {
        assert after[offsets[k].end] == bytes[offsets[k].end];
      } else {
        assert after[offsets[k].end] == bytes[|bytes| - 1];
      }
    }
  }

  // Dropping the last line feed leaves the tiling as it is.
  lemma TilesTrim(bytes: seq<Byte>, offsets: seq<LineOffset>, lines: seq<seq<int>>)
    requires AllScalars(lines) && lines != [] && Tiles(bytes, offsets, lines)
    requires bytes != [] && offsets[|lines| - 1].end == |bytes| - 1
    ensures Tiles(bytes[..|bytes| - 1], offsets, lines)
  {
    var shorter := bytes[..|bytes| - 1];
    EndsGrow(bytes, offsets, lines);
    forall k | 0 <= k < |lines| ensures shorter[offsets[k].start..offsets[k].end] == Bytes(lines[k]) {
      assert shorter[offsets[k].start..offsets[k].end] == bytes[offsets[k].start..offsets[k].end];
    }
  }

  lemma EndsGrow(bytes: seq<Byte>, offsets: seq<LineOffset>, lines: seq<seq<int>>)
    requires AllScalars(lines) && lines != [] && Tiles(bytes, offsets, lines)
    ensures forall k :: 0 <= k < |lines| - 1 ==> offsets[k].end < offsets[|lines| - 1].end
  {
    forall k | 0 <= k < |lines| - 1 ensures offsets[k].end < offsets[|lines| - 1].end {
      EndsGrowFrom(bytes, offsets, lines, k, |lines| - 1);
    }
  }

  lemma {:induction false} EndsGrowFrom(bytes: seq<Byte>, offsets: seq<LineOffset>, lines: seq<seq<int>>, j: nat,
                                        k: nat)
    requires AllScalars(lines) && Tiles(bytes, offsets, lines) && j < k < |lines|
    ensures offsets[j].end < offsets[k].end
    decreases k - j
  {
    if j + 1 < k {
      EndsGrowFrom(bytes, offsets, lines, j + 1, k);
    }
    assert offsets[j + 1].start == offsets[j].end + 1;
  }

  lemma JoinAssociates(a: seq<Byte>, b: seq<Byte>, c: seq<Byte>)
    ensures a + (b + c) == a + b + c
  {
  }

  // The ended lines laid out, and the open one, are the text's own bytes.
  lemma {:induction false} LaidIsText(c: seq<int>)
    requires Scalars(c)
    ensures AllScalars(Ended(c)) && Laid(Ended(c)) + Bytes(Open(c)) == Bytes(c)
  {
    if c != [] {
      var front, r := c[..|c| - 1], c[|c| - 1];
      assert c == front + [r];
      LaidIsText(front);
      BytesOne(r);
      BytesJoin(front, [r]);
      if r == LF {
        AddNewline(front);
        assert (Ended(front) + [Open(front)])[..|Ended(front)|] == Ended(front);
      } else {
        AddText(front, r);
        BytesJoin(Open(front), [r]);
        JoinAssociates(Laid(Ended(front)), Bytes(Open(front)), Bytes([r]));
      }
    }
  }

  // The buffer holds the consumed lines, laid out and tiled by the offsets.
  predicate Buffered(bytes: seq<Byte>, offsets: seq<LineOffset>, consumed: seq<seq<int>>) {
    && AllScalars(consumed)
    && bytes == Laid(consumed)
    && Tiles(bytes, offsets, consumed)
    && (consumed != [] ==> bytes != [] && offsets[|consumed| - 1].end == |bytes| - 1 && bytes[|bytes| - 1] == LF)
  }

  lemma BufferedCount(bytes: seq<Byte>, offsets: seq<LineOffset>, consumed: seq<seq<int>>)
    requires Buffered(bytes, offsets, consumed)
    ensures |offsets| == |consumed| && AllScalars(consumed) && bytes == Laid(consumed)
  {
  }

  lemma BufferedAppend(bytes: seq<Byte>, offsets: seq<LineOffset>, consumed: seq<seq<int>>, line: seq<int>)
    requires Buffered(bytes, offsets, consumed) && Scalars(line)
    ensures Buffered(bytes + Bytes(line) + [LF],
                     offsets + [LineOffset(|consumed| + 1, |bytes|, |bytes + Bytes(line)|)], consumed + [line])
  {
    hide Tiles, Bytes;
    TilesAppend(bytes, offsets, consumed, line);
    assert (consumed + [line])[..|consumed|] == consumed;
    TilesCount(bytes, offsets, consumed);
  }

  lemma TilesCount(bytes: seq<Byte>, offsets: seq<LineOffset>, lines: seq<seq<int>>)
    requires AllScalars(lines) && Tiles(bytes, offsets, lines)
    ensures |offsets| == |lines|
  {
  }

  class BufferSink {
    const maxBytes: nat
    var bytes: seq<Byte>
    var lines: seq<LineOffset>
    // The lines consumed so far.
    ghost var consumed: seq<seq<int>>

    constructor (maxBytes: nat)
      ensures Valid() && this.maxBytes == maxBytes && consumed == []
    {
      this.maxBytes := maxBytes;
      bytes, lines, consumed := [], [], [];
    }

    ghost predicate Valid()
      reads this
    {
      Buffered(bytes, lines, consumed)
    }

    lemma Laying()
      requires Valid()
      ensures AllScalars(consumed) && bytes == Laid(consumed) && |lines| == |consumed|
    {
    }

    // Takes one line; it is refused when it is out of turn or when the buffer would pass its
    // limit even without the last line feed.
    method Consume(number: nat, text: seq<Byte>, byteLen: nat, ghost line: seq<int>) returns (code: Option<Code>)
      requires Valid() && Scalars(line) && text == Bytes(line)
      modifies this
      ensures Valid()
      ensures code == None <==>
        byteLen == |text| && number == |old(consumed)| + 1 <= MAX_UINT32 && |old(bytes)| + |text| <= maxBytes
      ensures code == None ==> consumed == old(consumed) + [line] && bytes == old(bytes) + text + [LF]
      ensures code != None ==> unchanged(this)
      ensures code != None && byteLen == |text| && number == |old(consumed)| + 1 <= MAX_UINT32 ==>
        code == Some(BudgetExceeded)
    {
      hide Buffered, Bytes;
      BufferedCount(bytes, lines, consumed);
      if byteLen != |text| {
        return Some(BudgetExceeded);
      }
      if number != |lines| + 1 || number > MAX_UINT32 {
        return Some(IoError);
      }
      if |bytes| + |text| + 1 > maxBytes + 1 {
        return Some(BudgetExceeded);
      }
      BufferedAppend(bytes, lines, consumed, line);
      var start := |bytes|;
      bytes := bytes + text;
      lines := lines + [LineOffset(number, start, |bytes|)];
      bytes := bytes + [LF];
      consumed := consumed + [line];
      return None;
    }
  }

  // What the emitter knows of the canonical text `c` it has taken.
  predicate Taken(c: seq<int>, digested: seq<Byte>, line: seq<Byte>, counter: nat, hasText: bool, finalLF: bool) {
    && Scalars(c)
    && digested == Bytes(c)
    && line == Bytes(Open(c))
    && counter == |Ended(c)|
    && (hasText <==> Open(c) != [])
    && (finalLF <==> c != [] && c[|c| - 1] == LF)
  }

  class LineEmitter {
    const sink: BufferSink
    const canonicalLimit: nat
    var digested: seq<Byte>
    var line: seq<Byte>
    var byteLen: nat
    var counter: nat
    var hasText: bool
    var finalLF: bool
    var canonicalBytes: nat
    // The canonical text taken so far.
    ghost var done: seq<int>

    constructor (sink: BufferSink)
      requires sink.Valid() && sink.consumed == [] && sink.maxBytes <= MAX_CANONICAL_BUFFER_BYTES
      ensures Valid() && this.sink == sink && done == []
    {
      this.sink, this.canonicalLimit := sink, sink.maxBytes;
      digested, line, byteLen, counter, hasText, finalLF, canonicalBytes := [], [], 0, 0, false, false, 0;
      done := [];
    }

    // The fields as functions of the text taken so far.
    ghost predicate Valid()
      reads this, sink
    {
      && sink.Valid() && canonicalLimit == sink.maxBytes <= MAX_CANONICAL_BUFFER_BYTES
      && sink.consumed == Ended(done) && byteLen == |line| && canonicalBytes == |digested| <= canonicalLimit
      && Taken(done, digested, line, counter, hasText, finalLF)
    }

    method Text(character: int) returns (code: Option<Code>)
      requires Valid() && IsScalar(character) && character != LF
      modifies this
      ensures code == None <==> |old(digested)| + |Encode(character)| <= canonicalLimit
      ensures code == None ==>
        Valid() && done == old(done) + [character] && digested == old(digested) + Encode(character)
      ensures code != None ==> code == Some(BudgetExceeded) && unchanged(this)
    {
      hide Encode, Taken, BufferSink.Valid, Ended, Open, Lines, Bytes, Laid, Buffered, IsScalar;
      TakeText(done, digested, line, counter, hasText, finalLF, character);
      var encoded := Encode(character);
      var length := |encoded|;
      if length > canonicalLimit || canonicalBytes > canonicalLimit - length {
        return Some(BudgetExceeded);
      }
      if byteLen > MAX_UINT64 - length {
        return Some(IoError);
      }
      canonicalBytes := canonicalBytes + length;
      byteLen := byteLen + length;
      line := line + encoded;
      digested := digested + encoded;
      hasText := true;
      finalLF := false;
      done := done + [character];
      return None;
    }

    method Newline() returns (code: Option<Code>)
      requires Valid()
      modifies this, sink
      ensures code == None <==> |old(digested)| + 1 <= canonicalLimit
      ensures code == None ==> Valid() && done == old(done) + [LF] && digested == old(digested) + [LF]
      ensures code != None ==> code == Some(BudgetExceeded)
    {
      hide Taken, BufferSink.Valid, Ended, Open, Lines, Bytes, Laid, Buffered;
      TakeNewline(done, digested, line, counter, hasText, finalLF);
      sink.Laying();
      if canonicalBytes == canonicalLimit {
        return Some(BudgetExceeded);
      }
      canonicalBytes := canonicalBytes + 1;
      if counter == MAX_UINT64 {
        return Some(IoError);
      }
      counter := counter + 1;
      code := sink.Consume(counter, line, byteLen, Open(done));
      if code != None {
        return;
      }
      digested := digested + [LF];
      line := [];
      byteLen := 0;
      hasText := false;
      finalLF := true;
      done := done + [LF];
    }

    lemma Facts()
      requires Valid()
      ensures Scalars(done) && digested == Bytes(done) && counter == Feeds(done) && |digested| <= sink.maxBytes
    {
      EndedCount(done);
    }

    // How long the text would be with one scalar more.
    lemma WouldTake(r: int)
      requires Valid() && IsScalar(r)
      ensures Scalars(done + [r]) && |Bytes(done + [r])| == |digested| + |Encode(r)|
      ensures Feeds(done + [r]) == Feeds(done) + (if r == LF then 1 else 0)
    {
      FeedsJoin(done, [r]);
      FeedsOne(r);
      BytesOne(r);
      BytesJoin(done, [r]);
    }

    // Right after a line feed every line has been consumed.
    lemma LastLineEnded()
      requires Valid() && done != [] && done[|done| - 1] == LF
      ensures sink.Valid() && sink.consumed == Lines(done) && counter == |Lines(done)| && finalLF
    {
    }

    // The text after the last line feed is a line too.
    method Finish() returns (code: Option<Code>)
      requires Valid()
      modifies this, sink
      ensures code == None && sink.Valid() && sink.consumed == Lines(done) && done == old(done)
      ensures digested == old(digested) && counter == |Lines(done)|
              && (finalLF <==> done != [] && done[|done| - 1] == LF)
    {
      hide Taken, BufferSink.Valid, Ended, Open, Lines, Bytes, Laid, Buffered;
      TakeNewline(done, digested, line, counter, hasText, finalLF);
      sink.Laying();
      if !hasText {
        return None;
      }
      if counter == MAX_UINT64 {
        return Some(IoError);
      }
      counter := counter + 1;
      code := sink.Consume(counter, line, byteLen, Open(done));
      if code != None {
        return;
      }
      line := [];
      byteLen := 0;
      hasText := false;
      finalLF := false;
    }
  }

  lemma TakeText(c: seq<int>, digested: seq<Byte>, line: seq<Byte>, counter: nat, hasText: bool, finalLF: bool, r: int)
    requires Taken(c, digested, line, counter, hasText, finalLF) && IsScalar(r) && r != LF
    ensures Taken(c + [r], digested + Encode(r), line + Encode(r), counter, true, false)
    ensures Ended(c + [r]) == Ended(c) && |line| <= |digested|
  {
    hide Encode;
    BytesOne(r);
    BytesJoin(c, [r]);
    BytesJoin(Open(c), [r]);
    AddText(c, r);
    OpenIsShort(c);
  }

  lemma TakeNewline(c: seq<int>, digested: seq<Byte>, line: seq<Byte>, counter: nat, hasText: bool, finalLF: bool)
    requires Taken(c, digested, line, counter, hasText, finalLF)
    ensures Taken(c + [LF], digested + [LF], [], counter + 1, false, true)
    ensures Ended(c + [LF]) == Ended(c) + [Open(c)]
    ensures Scalars(Open(c)) && line == Bytes(Open(c)) && AllScalars(Ended(c)) && counter == |Ended(c)|
    ensures |Laid(Ended(c))| + |line| == |digested|
    ensures counter <= |digested| && (hasText ==> counter + 1 <= |digested|)
    ensures Lines(c) == if hasText then Ended(c) + [Open(c)] else Ended(c)
    ensures finalLF <==> c != [] && c[|c| - 1] == LF
    ensures finalLF ==> !hasText
  {
    hide Laid;
    BytesOne(LF);
    BytesJoin(c, [LF]);
    AddNewline(c);
    OpenIsShort(c);
  }

  // The buffer and the open line together are no longer than the text, and so is their count.
  lemma OpenIsShort(c: seq<int>)
    requires Scalars(c)
    ensures AllScalars(Ended(c)) && |Laid(Ended(c))| + |Bytes(Open(c))| == |Bytes(c)|
    ensures |Ended(c)| <= |Bytes(c)| && (Open(c) != [] ==> |Ended(c)| + 1 <= |Bytes(c)|)
  {
    hide Laid;
    LaidIsText(c);
    EndedFewer(c);
  }

  lemma {:induction false} EndedFewer(c: seq<int>)
    ensures |Ended(c)| + |Open(c)| <= |c|
  {
    if c != [] {
      EndedFewer(c[..|c| - 1]);
    }
  }

  // ---- Streaming ----

  // The canonical text that a read through a line selects; line zero selects all of it.
  function Selected(text: seq<int>, throughLine: nat): seq<int> {
    Through(Canonical(text), throughLine)
  }

  // Reading has come to scalar `i`: what was taken and what is still to come make up the
  // canonical text, and the selected line has not ended yet.
  ghost predicate Reading(text: seq<int>, throughLine: nat, i: nat, skipLF: bool, taken: seq<int>) {
    && i <= |text|
    && Canonical(text) == taken + From(text, i, skipLF)
    && (throughLine == 0 || Feeds(taken) < throughLine)
  }

  lemma StartReading(text: seq<int>, throughLine: nat)
    ensures Reading(text, throughLine, 0, false, [])
  {
    FromIsCanonical(text, 0);
    assert text[0..] == text;
    assert [] + Canonical(text) == Canonical(text);
  }

  lemma FromNext(text: seq<int>, i: nat, skipLF: bool)
    requires i < |text| && !(skipLF && text[i] == LF)
    ensures From(text, i, skipLF) == [if text[i] == CR then LF else text[i]] + From(text, i + 1, text[i] == CR)
  {
  }

  // The next scalar adds one scalar to the canonical text, or nothing after a CR.
  lemma ReadOn(text: seq<int>, throughLine: nat, i: nat, skipLF: bool, taken: seq<int>)
    requires Reading(text, throughLine, i, skipLF, taken) && i < |text| && Scalars(text)
    ensures skipLF && text[i] == LF ==> Reading(text, throughLine, i + 1, false, taken)
    ensures !(skipLF && text[i] == LF) ==>
      var r := if text[i] == CR then LF else text[i];
      && taken + [r] <= Selected(text, throughLine)
      && Scalars(Selected(text, throughLine)) && Scalars(taken + [r])
      && |Bytes(taken + [r])| <= |Bytes(Selected(text, throughLine))|
      && (r == LF && Feeds(taken) + 1 == throughLine ==> Selected(text, throughLine) == taken + [r])
      && (r != LF || Feeds(taken) + 1 != throughLine ==> Reading(text, throughLine, i + 1, text[i] == CR, taken + [r]))
  {
    hide Bytes, Canonical, Through, Feeds, Scalars;
    if skipLF && text[i] == LF {
    } else {
      var r := if text[i] == CR then LF else text[i];
      var rest := From(text, i + 1, text[i] == CR);
      FromNext(text, i, skipLF);
      Regroup(Canonical(text), taken, r, rest);
      hide From;
      Selects(Canonical(text), throughLine, taken, r, rest);
    }
  }

  lemma Regroup(c: seq<int>, taken: seq<int>, r: int, rest: seq<int>)
    requires c == taken + ([r] + rest)
    ensures c == (taken + [r]) + rest
  {
  }

  lemma Selects(c: seq<int>, throughLine: nat, taken: seq<int>, r: int, rest: seq<int>)
    requires Scalars(c) && c == taken + ([r] + rest) && (throughLine == 0 || Feeds(taken) < throughLine)
    ensures taken + [r] <= Through(c, throughLine)
    ensures Scalars(Through(c, throughLine)) && Scalars(taken + [r])
    ensures |Bytes(taken + [r])| <= |Bytes(Through(c, throughLine))|
    ensures r == LF && Feeds(taken) + 1 == throughLine ==> Through(c, throughLine) == taken + [r]
    ensures r != LF || Feeds(taken) + 1 != throughLine ==> throughLine == 0 || Feeds(taken + [r]) < throughLine
  {
    hide Bytes, Through;
    assert c == (taken + [r]) + rest;
    FeedsJoin(taken, [r]);
    FeedsOne(r);
    SelectedGrows(c, taken, [r] + rest, throughLine);
    ThroughScalars(c, throughLine);
    BytesOfPrefix(taken + [r], Through(c, throughLine));
    if r == LF && Feeds(taken) + 1 == throughLine {
      ThroughPrefix(c, taken + [r], rest, throughLine);
    }
  }

  lemma FeedsOne(r: int)
    ensures Feeds([r]) == if r == LF then 1 else 0
  {
  }

  lemma {:induction false} ThroughScalars(c: seq<int>, k: nat)
    requires Scalars(c)
    ensures Scalars(Through(c, k))
  {
    if k > 0 && c != [] {
      if c[0] != LF {
        ThroughScalars(c[1..], k);
      } else if k > 1 {
        ThroughScalars(c[1..], k - 1);
      }
    }
  }

  // At the end of the file everything taken is everything selected.
  lemma ReadAll(text: seq<int>, throughLine: nat, skipLF: bool, taken: seq<int>)
    requires Reading(text, throughLine, |text|, skipLF, taken)
    ensures Selected(text, throughLine) == taken
  {
    assert taken + [] == taken;
    if throughLine > 0 {
      ThroughAll(taken, throughLine);
    }
  }

  // What stops a read that has come to scalar `i`, of text that always fits: the stop that is seen
  // after a scalar, the failure of the rest of a last CR LF, or the decoder's at the end.
  function InterruptedFrom(source: Source, throughLine: nat, halted: nat -> Option<Code>, delimiter: Option<Code>,
                           i: nat, skipLF: bool, feeds: nat): Option<Code>
    requires i <= |source.text|
    decreases |source.text| - i
  {
    if i == |source.text| then source.failure
    else
      var r := source.text[i];
      var ends := (r == CR || r == LF) && !(skipLF && r == LF);
      if ends && throughLine != 0 && feeds + 1 == throughLine then (if r == CR then delimiter else None)
      else if halted(i + 1) != None then halted(i + 1)
      else InterruptedFrom(source, throughLine, halted, delimiter, i + 1, r == CR, if ends then feeds + 1 else feeds)
  }

  function Interruption(source: Source, throughLine: nat, halted: nat -> Option<Code>, delimiter: Option<Code>)
    : Option<Code>
  {
    InterruptedFrom(source, throughLine, halted, delimiter, 0, false, 0)
  }

  lemma InterruptedNext(source: Source, throughLine: nat, halted: nat -> Option<Code>, delimiter: Option<Code>, i: nat,
                        skipLF: bool, feeds: nat)
    requires i < |source.text|
    ensures
      var r := source.text[i];
      var ends := (r == CR || r == LF) && !(skipLF && r == LF);
      InterruptedFrom(source, throughLine, halted, delimiter, i, skipLF, feeds) ==
        if ends && throughLine != 0 && feeds + 1 == throughLine then (if r == CR then delimiter else None)
        else if halted(i + 1) != None then halted(i + 1)
        else InterruptedFrom(source, throughLine, halted, delimiter, i + 1, r == CR, if ends then feeds + 1 else feeds)
  {
  }

  // The selected line ends within the text.
  predicate LineEnds(text: seq<int>, throughLine: nat) {
    throughLine != 0 && Feeds(Canonical(text)) >= throughLine
  }

  // A call that is not stopped fails as the decoder does exactly when it reads to the end, and
  // otherwise only on the rest of the delimiter.
  lemma Unhalted(source: Source, throughLine: nat, halted: nat -> Option<Code>, delimiter: Option<Code>)
    requires forall i: nat :: halted(i) == None
    ensures !LineEnds(source.text, throughLine) ==>
      Interruption(source, throughLine, halted, delimiter) == source.failure
    ensures LineEnds(source.text, throughLine) ==>
      Interruption(source, throughLine, halted, delimiter) in {None, delimiter}
  {
    FromIsCanonical(source.text, 0);
    assert source.text[0..] == source.text;
    UnhaltedFrom(source, throughLine, halted, delimiter, 0, false, 0);
  }

  lemma {:induction false} UnhaltedFrom(source: Source, throughLine: nat, halted: nat -> Option<Code>,
                                        delimiter: Option<Code>, i: nat, skipLF: bool, feeds: nat)
    requires i <= |source.text| && (throughLine == 0 || feeds < throughLine) && forall k: nat :: halted(k) == None
    ensures
      var code := InterruptedFrom(source, throughLine, halted, delimiter, i, skipLF, feeds);
      if throughLine == 0 || feeds + Feeds(From(source.text, i, skipLF)) < throughLine then code == source.failure
      else code in {None, delimiter}
    decreases |source.text| - i
  {
    if i < |source.text| {
      var r := source.text[i];
      var ends := (r == CR || r == LF) && !(skipLF && r == LF);
      FeedsNext(source.text, i, skipLF);
      if !(ends && throughLine != 0 && feeds + 1 == throughLine) {
        UnhaltedFrom(source, throughLine, halted, delimiter, i + 1, r == CR, if ends then feeds + 1 else feeds);
      }
    }
  }

  lemma FeedsNext(text: seq<int>, i: nat, skipLF: bool)
    requires i < |text|
    ensures
      var r := text[i];
      var ends := (r == CR || r == LF) && !(skipLF && r == LF);
      Feeds(From(text, i, skipLF)) == (if ends then 1 else 0) + Feeds(From(text, i + 1, r == CR))
  {
    if !(skipLF && text[i] == LF) {
      FromNext(text, i, skipLF);
      var first := if text[i] == CR then LF else text[i];
      assert ([first] + From(text, i + 1, text[i] == CR))[1..] == From(text, i + 1, text[i] == CR);
    }
  }

  // The first stop that is seen before the read is over is what it fails with.
  lemma FirstHalt(source: Source, throughLine: nat, halted: nat -> Option<Code>, delimiter: Option<Code>, k: nat)
    requires !LineEnds(source.text, throughLine) && 1 <= k <= |source.text| && halted(k) != None
    requires forall j: nat :: j < k ==> halted(j) == None
    ensures Interruption(source, throughLine, halted, delimiter) == halted(k)
  {
    FromIsCanonical(source.text, 0);
    assert source.text[0..] == source.text;
    HaltFrom(source, throughLine, halted, delimiter, k, 0, false, 0);
  }

  lemma {:induction false} HaltFrom(source: Source, throughLine: nat, halted: nat -> Option<Code>,
                                    delimiter: Option<Code>, k: nat, i: nat, skipLF: bool, feeds: nat)
    requires i < k <= |source.text| && halted(k) != None && forall j: nat :: j < k ==> halted(j) == None
    requires throughLine == 0 || feeds + Feeds(From(source.text, i, skipLF)) < throughLine
    ensures InterruptedFrom(source, throughLine, halted, delimiter, i, skipLF, feeds) == halted(k)
    decreases k - i
  {
    var r := source.text[i];
    var ends := (r == CR || r == LF) && !(skipLF && r == LF);
    FeedsNext(source.text, i, skipLF);
    if i + 1 < k {
      HaltFrom(source, throughLine, halted, delimiter, k, i + 1, r == CR, if ends then feeds + 1 else feeds);
    }
  }

  // Nothing outside the text stops the read.
  ghost predicate Undisturbed(source: Source, halted: nat -> Option<Code>, delimiter: Option<Code>) {
    source.failure == None && delimiter == None && forall i: nat :: halted(i) == None
  }

  // Streams the selected domain of a file into the emitter's sink. `halted` answers whether the
  // call was stopped when it is asked after a scalar; `delimiter` is the failure, if any, of
  // reading the second half of a last CR LF.
  method StreamCanonical(source: Source, throughLine: nat, halted: nat -> Option<Code>, delimiter: Option<Code>,
                         emitter: LineEmitter)
    returns (code: Option<Code>)
    requires emitter.Valid() && emitter.done == [] && Scalars(source.text)
    modifies emitter, emitter.sink
    ensures
      var selected := Selected(source.text, throughLine);
      Scalars(selected) &&
      (code == None ==>
         && emitter.sink.Valid() && emitter.sink.consumed == Lines(selected)
         && emitter.digested == Bytes(selected) && |Bytes(selected)| <= emitter.sink.maxBytes
         && emitter.counter == |Lines(selected)|
           && (emitter.finalLF <==> selected != [] && selected[|selected| - 1] == LF)) &&
      (Undisturbed(source, halted, delimiter) && code != None ==> |Bytes(selected)| > emitter.sink.maxBytes) &&
      (code == None ==> Interruption(source, throughLine, halted, delimiter) == None) &&
      (|Bytes(selected)| <= emitter.sink.maxBytes ==>
         code == Interruption(source, throughLine, halted, delimiter))
  {
    hide Canonical, From, Through, Bytes, Lines, Ended, Open, Taken, Selected, Reading, BufferSink.Valid,
      InterruptedFrom, Feeds;
    var text := source.text;
    var i := 0;
    var skipLF := false;
    StartReading(text, throughLine);
    SelectedScalars(text, throughLine);
    emitter.Facts();
    FeedsNone();
    while i < |text|
      invariant 0 <= i <= |text| && emitter.Valid()
      invariant Reading(text, throughLine, i, skipLF, emitter.done)
      invariant InterruptedFrom(source, throughLine, halted, delimiter, i, skipLF, emitter.counter)
        == Interruption(source, throughLine, halted, delimiter)
      decreases |text| - i
    {
      var character := text[i];
      ReadOn(text, throughLine, i, skipLF, emitter.done);
      InterruptedNext(source, throughLine, halted, delimiter, i, skipLF, emitter.counter);
      emitter.Facts();
      if skipLF && character == LF {
        skipLF := false;
      } else {
        ghost var taken := emitter.done + [if character == CR then LF else character];
        emitter.WouldTake(if character == CR then LF else character);
        if character == CR && throughLine != 0 && emitter.counter + 1 == throughLine {
          if delimiter != None {
            return delimiter;
          }
          code := emitter.Newline();
          if code == None {
            emitter.Facts();
            emitter.LastLineEnded();
          }
          return;
        }
        if character == CR || character == LF {
          code := emitter.Newline();
          if code != None {
            return;
          }
          emitter.Facts();
          if character == LF && throughLine != 0 && emitter.counter == throughLine {
            emitter.LastLineEnded();
            return None;
          }
        } else {
          code := emitter.Text(character);
          if code != None {
            return;
          }
        }
        skipLF := character == CR;
        emitter.Facts();
      }
      i := i + 1;
      if halted(i) != None {
        return halted(i);
      }
    }
    InterruptedAtEnd(source, throughLine, halted, delimiter, skipLF, emitter.counter);
    if source.failure != None {
      return source.failure;
    }
    ReadAll(text, throughLine, skipLF, emitter.done);
    emitter.Facts();
    code := emitter.Finish();
  }

  lemma FeedsNone()
    ensures Feeds([]) == 0
  {
  }

  lemma InterruptedAtEnd(source: Source, throughLine: nat, halted: nat -> Option<Code>, delimiter: Option<Code>,
                         skipLF: bool, feeds: nat)
    ensures
      InterruptedFrom(source, throughLine, halted, delimiter, |source.text|, skipLF, feeds) == source.failure
  {
  }

  lemma SelectedScalars(text: seq<int>, throughLine: nat)
    requires Scalars(text)
    ensures Scalars(Selected(text, throughLine))
  {
    ThroughScalars(Canonical(text), throughLine);
  }

  // ---- The whole file in a buffer ----

  // The lines laid out are the text, with a line feed more when it ends inside a line.
  lemma LinesLaid(c: seq<int>)
    requires Scalars(c)
    ensures AllScalars(Lines(c))
    ensures Laid(Lines(c)) == if Open(c) == [] then Bytes(c) else Bytes(c) + [LF]
    ensures Lines(c) == [] <==> c == []
    ensures Open(c) == [] <==> c == [] || c[|c| - 1] == LF
  {
    hide Bytes;
    LaidIsText(c);
    if Open(c) == [] {
      BytesNone();
      EndedSome(c);
    } else {
      assert (Ended(c) + [Open(c)])[..|Ended(c)|] == Ended(c);
    }
  }

  lemma BytesNone()
    ensures Bytes([]) == [] && Laid([]) == []
  {
  }

  lemma EndedSome(c: seq<int>)
    requires c != [] ==> c[|c| - 1] == LF
    ensures Ended(c) == [] <==> c == []
  {
  }

  // Buffers the selected domain: the bytes are the canonical text itself, they are what the
  // digest was fed, and the offsets tile them line by line. When nothing disturbs the read it
  // succeeds exactly when the text fits.
  method BufferCanonical(source: Source, throughLine: nat, halted: nat -> Option<Code>, delimiter: Option<Code>,
                         maxCanonicalBytes: nat)
    returns (buffer: CanonicalBuffer, code: Option<Code>)
    requires Scalars(source.text)
    ensures maxCanonicalBytes > MAX_CANONICAL_BUFFER_BYTES ==> code == Some(InvalidInput)
    ensures
      var selected := Selected(source.text, throughLine);
      Scalars(selected) && AllScalars(Lines(selected)) &&
      (code == None ==>
         && buffer.bytes == Bytes(selected)
         && buffer.summary.digested == buffer.bytes
         && (buffer.summary.finalLF <==> selected != [] && selected[|selected| - 1] == LF)
         && buffer.summary.lineCount == |Lines(selected)|
         && Tiles(buffer.bytes, buffer.lines, Lines(selected))) &&
      (Undisturbed(source, halted, delimiter) && maxCanonicalBytes <= MAX_CANONICAL_BUFFER_BYTES ==>
         (code == None <==> |Bytes(selected)| <= maxCanonicalBytes)) &&
      (code == None ==> Interruption(source, throughLine, halted, delimiter) == None) &&
      (|Bytes(selected)| <= maxCanonicalBytes <= MAX_CANONICAL_BUFFER_BYTES ==>
         code == Interruption(source, throughLine, halted, delimiter))
  {
    hide Selected, Bytes, Lines, Open, Laid, Tiles, LineEmitter.Valid, Interruption;
    SelectedScalars(source.text, throughLine);
    LinesLaid(Selected(source.text, throughLine));
    buffer := CanonicalBuffer(Summary(false, [], 0), [], []);
    if maxCanonicalBytes > MAX_CANONICAL_BUFFER_BYTES || maxCanonicalBytes >= MAX_UINT32 {
      return buffer, Some(InvalidInput);
    }
    var sink := new BufferSink(maxCanonicalBytes);
    var emitter := new LineEmitter(sink);
    code := StreamCanonical(source, throughLine, halted, delimiter, emitter);
    if code != None {
      return;
    }
    sink.Laying();
    ghost var canonical := Bytes(Selected(source.text, throughLine));
    assert (canonical + [LF])[..|canonical|] == canonical;
    var bytes := sink.bytes;
    if !emitter.finalLF && |sink.lines| != 0 {
      if |bytes| == 0 || bytes[|bytes| - 1] != LF {
        return buffer, Some(IoError);
      }
      TilesTrim(sink.bytes, sink.lines, sink.consumed);
      bytes := bytes[..|bytes| - 1];
    }
    if |bytes| > maxCanonicalBytes {
      return buffer, Some(BudgetExceeded);
    }
    buffer := CanonicalBuffer(Summary(emitter.finalLF, emitter.digested, emitter.counter), bytes, sink.lines);
  }

  // One line of a buffer, by its number.
  method LineOf(buffer: CanonicalBuffer, number: nat, ghost lines: seq<seq<int>>) returns (text: seq<Byte>, ok: bool)
    requires AllScalars(lines) && Tiles(buffer.bytes, buffer.lines, lines)
    ensures ok <==> 1 <= number <= |lines|
    ensures ok ==> text == Bytes(lines[number - 1])
  {
    if number == 0 || number > |buffer.lines| {
      return [], false;
    }
    var offset := buffer.lines[number - 1];
    if offset.number != number || offset.start > offset.end || offset.end > |buffer.bytes| {
      return [], false;
    }
    return buffer.bytes[offset.start..offset.end], true;
  }
}
