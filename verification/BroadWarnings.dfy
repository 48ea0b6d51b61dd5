// The warnings that close a project or search page (internal/present/warnings.go): at most one
// line for each code, in the order of the codes, within fixed byte limits.
module BroadWarnings {
  import opened Wrappers
  import opened TextOrder
  import opened Magnitude
  import opened JsonCodec
  import opened OutputBuffer
  import opened PageFields
  import opened Vocabulary

  const WARNING_LINE_MAX_BYTES := 128
  const WARNING_SUMMARY_MAX_BYTES := 1_536
  const MAX_UINT64 := 0xFFFF_FFFF_FFFF_FFFF

  type Uint64 = n: nat | n <= MAX_UINT64

  datatype Warning = Warning(code: Text, count: Uint64, path: Text)

  predicate ValidWarning(warning: Warning) {
    warning.code in WARNING_CODES && warning.count != 0
  }

  predicate ValidWarnings(warnings: seq<Warning>) {
    forall k :: 0 <= k < |warnings| ==> ValidWarning(warnings[k])
  }

  // Only a complete page sums up warnings, one line for each code.
  predicate ValidSummary(complete: bool, warnings: seq<Warning>) {
    && (!complete ==> warnings == [])
    && ValidWarnings(warnings)
    && DistinctCodes(warnings)
  }

  predicate DistinctCodes(warnings: seq<Warning>) {
    forall i, j :: 0 <= i < j < |warnings| ==> warnings[i].code != warnings[j].code
  }

  function WarningPrefix(out: Text, warning: Warning, omitted: nat): Text {
    out + Ascii("!\t") + warning.code + Ascii("\tcount=") + FormatUint(warning.count) + Ascii("\tomitted=")
      + FormatUint(omitted)
  }

  function Pathless(warning: Warning): Text {
    WarningPrefix([], warning, warning.count) + [LF]
  }

  // One occurrence is shown by its path and does not count as omitted.
  function WithPath(warning: Warning): Text
    requires warning.count != 0
  {
    WarningPrefix([], warning, warning.count - 1) + Ascii("\tpath=") + Quoted(warning.path) + [LF]
  }

  function WarningLine(warning: Warning): Text
    requires warning.count != 0
  {
    if ValidPath(warning.path) && |WithPath(warning)| <= WARNING_LINE_MAX_BYTES then WithPath(warning)
      else Pathless(warning)
  }

  function WarningLines(out: Text, warnings: seq<Warning>): Text
    requires ValidWarnings(warnings)
    decreases |warnings|
  {
    if warnings == [] then out else WarningLines(out + WarningLine(warnings[0]), warnings[1..])
  }

  predicate CodesAscend(warnings: seq<Warning>) {
    forall k :: 0 < k < |warnings| ==> CompareText(warnings[k - 1].code, warnings[k].code) < 0
  }

  // Puts a warning in its place by its code.
  function InsertByCode(warning: Warning, warnings: seq<Warning>): (r: seq<Warning>)
    ensures multiset(r) == multiset{warning} + multiset(warnings) && |r| == |warnings| + 1
  {
    if warnings == [] || CompareText(warning.code, warnings[0].code) <= 0 then [warning] + warnings
    else
      assert warnings == [warnings[0]] + warnings[1..];
      [warnings[0]] + InsertByCode(warning, warnings[1..])
  }

  function SortByCode(warnings: seq<Warning>): (r: seq<Warning>)
    ensures multiset(r) == multiset(warnings) && |r| == |warnings|
  {
    if warnings == [] then []
    else
      assert warnings == [warnings[0]] + warnings[1..];
      InsertByCode(warnings[0], SortByCode(warnings[1..]))
  }

  // ---- Normalizing ----

  lemma {:induction false} InsertAscends(warning: Warning, warnings: seq<Warning>)
    requires CodesAscend(warnings) && forall k :: 0 <= k < |warnings| ==> warnings[k].code != warning.code
    ensures CodesAscend(InsertByCode(warning, warnings))
    ensures var r := InsertByCode(warning, warnings);
            r[0] == warning || (warnings != [] && r[0] == warnings[0])
  {
    if warnings != [] {
      TextZero(warning.code, warnings[0].code);
      TextFlips(warning.code, warnings[0].code);
      if CompareText(warning.code, warnings[0].code) > 0 {
        InsertAscends(warning, warnings[1..]);
        var rest := InsertByCode(warning, warnings[1..]);
        var r := InsertByCode(warning, warnings);
        assert r == [warnings[0]] + rest;
        forall k | 0 < k < |r| ensures CompareText(r[k - 1].code, r[k].code) < 0 {
          assert r[k] == rest[k - 1] && (k > 1 ==> r[k - 1] == rest[k - 2]);
        }
      }
    }
  }

  lemma SameWarnings(a: seq<Warning>, b: seq<Warning>)
    requires multiset(a) == multiset(b)
    ensures forall w :: w in a <==> w in b
  {
    forall w ensures w in a <==> w in b {
      assert w in multiset(a) <==> w in multiset(b);
    }
  }

  // Warnings with different codes are put into strictly ascending order.
  lemma {:induction false} SortAscends(warnings: seq<Warning>)
    requires DistinctCodes(warnings)
    ensures CodesAscend(SortByCode(warnings))
  {
    if warnings != [] {
      var rest := SortByCode(warnings[1..]);
      SortAscends(warnings[1..]);
      SameWarnings(rest, warnings[1..]);
      forall k | 0 <= k < |rest| ensures rest[k].code != warnings[0].code {
        assert rest[k] in warnings[1..];
      }
      InsertAscends(warnings[0], rest);
    }
  }

  // Sorting puts equal codes side by side.
  lemma {:induction false} AscendingCodesDiffer(warnings: seq<Warning>, i: nat, j: nat)
    requires CodesAscend(warnings) && i < j < |warnings|
    ensures CompareText(warnings[i].code, warnings[j].code) < 0 && warnings[i].code != warnings[j].code
    decreases j - i
  {
    if i + 1 < j {
      AscendingCodesDiffer(warnings, i, j - 1);
      TextChains(warnings[i].code, warnings[j - 1].code, warnings[j].code);
    }
    TextZero(warnings[j].code, warnings[j].code);
  }

  lemma TailAscends(head: Warning, rest: seq<Warning>)
    requires CodesAscend([head] + rest)
    ensures CodesAscend(rest) && forall k :: 0 <= k < |rest| ==>
      CompareText(head.code, rest[k].code) < 0 && head.code != rest[k].code
  {
    var r := [head] + rest;
    forall k | 0 < k < |rest| ensures CompareText(rest[k - 1].code, rest[k].code) < 0 {
      assert r[k] == rest[k - 1] && r[k + 1] == rest[k];
    }
    forall k | 0 <= k < |rest| ensures CompareText(head.code, rest[k].code) < 0 && head.code != rest[k].code {
      AscendingCodesDiffer(r, 0, k + 1);
    }
  }

  lemma HeadAscends(head: Warning, tail: seq<Warning>)
    requires CodesAscend(tail) && (tail != [] ==> CompareText(head.code, tail[0].code) < 0)
    ensures CodesAscend([head] + tail)
  {
    hide CompareText;
  }

  // The first step of an insertion.
  lemma InsertedHead(warning: Warning, warnings: seq<Warning>)
    ensures var r := InsertByCode(warning, warnings);
            if warnings == [] || CompareText(warning.code, warnings[0].code) <= 0 then r == [warning] + warnings
            else r == [warnings[0]] + InsertByCode(warning, warnings[1..])
  {
  }

  // Conversely, a code that stands twice is still seen after sorting.
  lemma {:induction false} InsertedDiffers(warning: Warning, warnings: seq<Warning>)
    requires CodesAscend(InsertByCode(warning, warnings))
    ensures CodesAscend(warnings) && forall k :: 0 <= k < |warnings| ==> warnings[k].code != warning.code
  {
    hide CompareText, CodesAscend, InsertByCode;
    InsertedHead(warning, warnings);
    if warnings == [] || CompareText(warning.code, warnings[0].code) <= 0 {
      TailAscends(warning, warnings);
    } else {
      var tail, rest := warnings[1..], InsertByCode(warning, warnings[1..]);
      TailAscends(warnings[0], rest);
      InsertedDiffers(warning, tail);
      TextZero(warning.code, warnings[0].code);
      InsertedHead(warning, tail);
      if tail != [] {
        assert rest[if CompareText(warning.code, tail[0].code) <= 0 then 1 else 0] == tail[0];
      }
      HeadAscends(warnings[0], tail);
      assert warnings == [warnings[0]] + tail;
    }
  }

  lemma {:induction false} SortedDiffer(warnings: seq<Warning>)
    requires CodesAscend(SortByCode(warnings))
    ensures DistinctCodes(warnings)
  {
    if warnings != [] {
      var rest := SortByCode(warnings[1..]);
      InsertedDiffers(warnings[0], rest);
      SortedDiffer(warnings[1..]);
      SameWarnings(rest, warnings[1..]);
      forall i, j | 0 <= i < j < |warnings| ensures warnings[i].code != warnings[j].code {
        if i == 0 {
          assert warnings[j] in warnings[1..];
          var k :| 0 <= k < |rest| && rest[k] == warnings[j];
        } else {
          assert warnings[i] == warnings[1..][i - 1] && warnings[j] == warnings[1..][j - 1];
        }
      }
    }
  }

  predicate CodesOrdered(warnings: seq<Warning>) {
    forall k :: 0 < k < |warnings| ==> CompareText(warnings[k - 1].code, warnings[k].code) <= 0
  }

  lemma {:induction false} InsertOrders(warning: Warning, warnings: seq<Warning>)
    requires CodesOrdered(warnings)
    ensures CodesOrdered(InsertByCode(warning, warnings))
    ensures var r := InsertByCode(warning, warnings);
            r[0] == warning || (warnings != [] && r[0] == warnings[0])
  {
    if warnings != [] && CompareText(warning.code, warnings[0].code) > 0 {
      TextFlips(warning.code, warnings[0].code);
      InsertOrders(warning, warnings[1..]);
      var rest := InsertByCode(warning, warnings[1..]);
      var r := InsertByCode(warning, warnings);
      assert r == [warnings[0]] + rest;
      forall k | 0 < k < |r| ensures CompareText(r[k - 1].code, r[k].code) <= 0 {
        assert r[k] == rest[k - 1] && (k > 1 ==> r[k - 1] == rest[k - 2]);
      }
    }
  }

  lemma {:induction false} SortOrders(warnings: seq<Warning>)
    ensures CodesOrdered(SortByCode(warnings))
  {
    if warnings != [] {
      SortOrders(warnings[1..]);
      InsertOrders(warnings[0], SortByCode(warnings[1..]));
    }
  }

  // Whether no two neighbours have the same code.
  method NeighboursDiffer(sorted: seq<Warning>) returns (ok: bool)
    requires CodesOrdered(sorted)
    ensures ok <==> CodesAscend(sorted)
  {
    var index := 1;
    while index < |sorted|
      invariant 1 <= index && forall k :: 0 < k < index && k < |sorted| ==>
        CompareText(sorted[k - 1].code, sorted[k].code) < 0
    {
      TextZero(sorted[index - 1].code, sorted[index].code);
      if sorted[index - 1].code == sorted[index].code {
        return false;
      }
      index := index + 1;
    }
    return true;
  }

  // Checks the warnings of a page and puts them in order.
  method NormalizeWarnings(complete: bool, warnings: seq<Warning>) returns (r: Option<seq<Warning>>)
    ensures r.Some? <==> ValidSummary(complete, warnings)
    ensures r.Some? ==>
      CodesAscend(r.value) && multiset(r.value) == multiset(warnings) && r.value == SortByCode(warnings)
  {
    hide ValidWarning, DistinctCodes, CodesAscend, CodesOrdered;
    if !complete && warnings != [] {
      return None;
    }
    var index := 0;
    while index < |warnings|
      invariant 0 <= index <= |warnings| && forall k :: 0 <= k < index ==> ValidWarning(warnings[k])
    {
      if !ValidWarning(warnings[index]) {
        return None;
      }
      index := index + 1;
    }
    var sorted := SortByCode(warnings);
    SortOrders(warnings);
    if DistinctCodes(warnings) {
      SortAscends(warnings);
    }
    var ok := NeighboursDiffer(sorted);
    if !ok {
      return None;
    }
    SortedDiffer(warnings);
    return Some(sorted);
  }

  // ---- Sizes of warnings ----

  lemma {:induction false} CodesCount(warnings: seq<Warning>)
    requires DistinctCodes(warnings)
    ensures |set w | w in warnings :: w.code| == |warnings|
  {
    if warnings != [] {
      var front, last := warnings[..|warnings| - 1], warnings[|warnings| - 1];
      CodesCount(front);
      assert warnings == front + [last];
      assert (set w | w in warnings :: w.code) == (set w | w in front :: w.code) + {last.code};
    }
  }

  lemma {:induction false} NamesCount(names: seq<Text>)
    ensures |set name | name in names| <= |names|
  {
    if names != [] {
      var front, last := names[..|names| - 1], names[|names| - 1];
      NamesCount(front);
      assert names == front + [last];
      assert (set name | name in names) == (set name | name in front) + {last};
    }
  }

  lemma {:induction false} SmallerSet(a: set<Text>, b: set<Text>)
    requires a <= b
    ensures |a| <= |b|
  {
    if a != {} {
      var x :| x in a;
      SmallerSet(a - {x}, b - {x});
    }
  }

  // There are no more warnings in a summary than there are codes.
  lemma SummaryIsShort(complete: bool, warnings: seq<Warning>)
    requires ValidSummary(complete, warnings)
    ensures |warnings| <= |WARNING_CODES| == 11
  {
    CodesCount(warnings);
    NamesCount(WARNING_CODES);
    SmallerSet(set w | w in warnings :: w.code, set name | name in WARNING_CODES);
  }

  lemma CodeFacts(code: Text)
    requires code in WARNING_CODES
    ensures |code| <= 28 && forall k :: 0 <= k < |code| ==> code[k] < 0x80
  {
  }

  // A number below 10^d has at most d digits.
  lemma {:induction false} FewDigits(n: nat, d: nat)
    requires d > 0 && n < Pow(d)
    ensures |FormatUint(n)| <= d
    decreases d
  {
    if n >= 10 {
      assert d > 1;
      FewDigits(n / 10, d - 1);
    }
  }

  lemma Uint64Digits(n: Uint64)
    ensures |FormatUint(n)| <= 20
  {
    assert Pow(5) == 100_000 && Pow(10) == 10_000_000_000 && Pow(15) == 1_000_000_000_000_000;
    assert Pow(20) == 100_000_000_000_000_000_000;
    FewDigits(n, 20);
  }

  // No line is longer than its limit: without a path every line fits.
  lemma LineFits(warning: Warning)
    requires ValidWarning(warning)
    ensures |WarningLine(warning)| <= WARNING_LINE_MAX_BYTES
  {
    hide FormatUint, Quoted, ValidPath;
    CodeFacts(warning.code);
    Uint64Digits(warning.count);
  }

  lemma {:induction false} LinesFit(out: Text, warnings: seq<Warning>)
    requires ValidWarnings(warnings)
    ensures |out| <= |WarningLines(out, warnings)| <= |out| + WARNING_LINE_MAX_BYTES * |warnings|
    decreases |warnings|
  {
    hide WarningLine;
    if warnings != [] {
      LineFits(warnings[0]);
      LinesFit(out + WarningLine(warnings[0]), warnings[1..]);
    }
  }

  // The lines of a summary stay within the limit for all of them together.
  lemma SummaryFits(out: Text, complete: bool, warnings: seq<Warning>)
    requires ValidSummary(complete, warnings)
    ensures ValidWarnings(SortByCode(warnings)) && |SortByCode(warnings)| <= |WARNING_CODES|
    ensures |out| <= |WarningLines(out, SortByCode(warnings))| <= |out| + WARNING_SUMMARY_MAX_BYTES
  {
    hide WarningLine;
    SummaryIsShort(complete, warnings);
    SameWarnings(warnings, SortByCode(warnings));
    forall k | 0 <= k < |SortByCode(warnings)| ensures ValidWarning(SortByCode(warnings)[k]) {
      assert SortByCode(warnings)[k] in warnings;
    }
    LinesFit(out, SortByCode(warnings));
  }

  // ---- Rendering ----

  // One line: with the path if that fits, else without.
  method RenderBroadWarning(warning: Warning) returns (r: Option<Text>)
    ensures r.Some? <==> ValidWarning(warning)
    ensures r.Some? ==> r.value == WarningLine(warning)
  {
    hide Buffer.Valid, FormatUint, Quoted, Ascii, WarningPrefix, Utf8.Valid;
    if !ValidWarning(warning) {
      return None;
    }
    var pathless := WarningPrefix([], warning, warning.count) + [LF];
    if warning.path == [] || !ValidPath(warning.path) {
      return Some(pathless);
    }
    var buffer := new Buffer(WARNING_LINE_MAX_BYTES);
    buffer.AppendString(WarningPrefix([], warning, warning.count - 1));
    assert [] + WarningPrefix([], warning, warning.count - 1) == WarningPrefix([], warning, warning.count - 1);
    buffer.AppendString(Ascii("\tpath="));
    var ok := buffer.Quote(warning.path);
    if !ok {
      return Some(pathless);
    }
    buffer.AppendByte(LF);
    var withPath, fits := buffer.Finish();
    return Some(if fits then withPath else pathless);
  }

  // Appends all lines; their total never exceeds the limit that is checked.
  method AppendBroadWarnings(buffer: Buffer, warnings: seq<Warning>) returns (ok: bool)
    requires buffer.Valid() && |warnings| <= |WARNING_CODES|
    requires ValidWarnings(warnings)
    modifies buffer
    ensures buffer.Valid() && ok
    ensures buffer.written == WarningLines(old(buffer.written), warnings)
  {
    hide WarningLine, ValidWarning;
    var total, index := 0, 0;
    ghost var out := buffer.written;
    while index < |warnings|
      invariant 0 <= index <= |warnings| && buffer.Valid() && total <= WARNING_LINE_MAX_BYTES * index
      invariant WarningLines(buffer.written, warnings[index..]) == WarningLines(out, warnings)
    {
      var line := RenderBroadWarning(warnings[index]);
      if line.None? {
        return false;
      }
      LineFits(warnings[index]);
      total := total + |line.value|;
      buffer.AppendString(line.value);
      assert warnings[index..][0] == warnings[index] && warnings[index..][1..] == warnings[index + 1..];
      index := index + 1;
    }
    return total <= WARNING_SUMMARY_MAX_BYTES;
  }
}
