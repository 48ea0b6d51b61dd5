// The text search window: matching lines are emitted as they are read, each with the lines around
// it, and no line is emitted twice.
module SearchWindow {
  import opened Wrappers

  type Text = string

  datatype Kind = ContextRow | MatchRow

  datatype Row = Row(kind: Kind, line: nat, text: Text)

  datatype Retained = Retained(number: nat, text: Text)

  const MAX_UINT64: nat := 0xFFFF_FFFF_FFFF_FFFF

  // ---- What the window shows ----

  // Line `m`, counted from one, matches.
  predicate IsMatch(lines: seq<Text>, matches: Text -> bool, m: nat) {
    1 <= m <= |lines| && matches(lines[m - 1])
  }

  // Some matching line is at most `context` lines away.
  ghost predicate Near(lines: seq<Text>, matches: Text -> bool, context: nat, k: nat) {
    exists m: nat :: IsMatch(lines, matches, m) && m <= k + context && k <= m + context
  }

  function RowFor(lines: seq<Text>, matches: Text -> bool, k: nat): Row
    requires 1 <= k <= |lines|
  {
    Row(if matches(lines[k - 1]) then MatchRow else ContextRow, k, lines[k - 1])
  }

  // The rows up to line `k`: every line near a match, in order, marked when it matches itself.
  ghost function Window(lines: seq<Text>, matches: Text -> bool, context: nat, k: nat): (rows: seq<Row>)
    requires k <= |lines|
  {
    if k == 0 then []
    else Window(lines, matches, context, k - 1) +
         (if Near(lines, matches, context, k) then [RowFor(lines, matches, k)] else [])
  }

  lemma {:induction false} WindowRow(lines: seq<Text>, matches: Text -> bool, context: nat, k: nat, i: nat)
    requires k <= |lines| && i < |Window(lines, matches, context, k)|
    ensures
      var row := Window(lines, matches, context, k)[i];
      1 <= row.line <= k && Near(lines, matches, context, row.line) && row == RowFor(lines, matches, row.line)
  {
    hide Near;
    if i < |Window(lines, matches, context, k - 1)| {
      WindowRow(lines, matches, context, k - 1, i);
    }
  }

  lemma {:induction false} WindowAscends(lines: seq<Text>, matches: Text -> bool, context: nat, k: nat, i: nat, j: nat)
    requires k <= |lines| && i < j < |Window(lines, matches, context, k)|
    ensures Window(lines, matches, context, k)[i].line < Window(lines, matches, context, k)[j].line
  {
    hide Near;
    if j < |Window(lines, matches, context, k - 1)| {
      WindowAscends(lines, matches, context, k - 1, i, j);
    } else {
      WindowRow(lines, matches, context, k - 1, i);
    }
  }

  lemma {:induction false} WindowHas(lines: seq<Text>, matches: Text -> bool, context: nat, k: nat, l: nat)
    requires 1 <= l <= k <= |lines| && Near(lines, matches, context, l)
    ensures RowFor(lines, matches, l) in Window(lines, matches, context, k)
    decreases k
  {
    hide Near;
    if l < k {
      WindowHas(lines, matches, context, k - 1, l);
    }
  }

  // The rows are in strictly ascending order, are exactly the lines near a match, and a row is a
  // match row exactly when its line matches.
  lemma WindowIsExact(lines: seq<Text>, matches: Text -> bool, context: nat)
    ensures
      var rows := Window(lines, matches, context, |lines|);
      && (forall i, j :: 0 <= i < j < |rows| ==> rows[i].line < rows[j].line)
      && (forall i :: 0 <= i < |rows| ==>
        1 <= rows[i].line <= |lines| && rows[i] == RowFor(lines, matches, rows[i].line))
      && (forall l: nat :: 1 <= l <= |lines| ==>
        (Near(lines, matches, context, l) <==> RowFor(lines, matches, l) in rows))
  {
    hide Near, Window;
    var rows := Window(lines, matches, context, |lines|);
    forall i | 0 <= i < |rows|
      ensures 1 <= rows[i].line <= |lines| && rows[i] == RowFor(lines, matches, rows[i].line)
              && Near(lines, matches, context, rows[i].line) {
      WindowRow(lines, matches, context, |lines|, i);
    }
    forall i, j | 0 <= i < j < |rows| ensures rows[i].line < rows[j].line {
      WindowAscends(lines, matches, context, |lines|, i, j);
    }
    forall l: nat | 1 <= l <= |lines| ensures Near(lines, matches, context, l) <==> RowFor(lines, matches, l) in rows {
      if Near(lines, matches, context, l) {
        WindowHas(lines, matches, context, |lines|, l);
      }
    }
  }

  // ---- One line more ----

  // The last emitted line, if any.
  ghost function Last(rows: seq<Row>): nat {
    if rows == [] then 0 else rows[|rows| - 1].line
  }

  lemma NoLaterMatch(lines: seq<Text>, matches: Text -> bool, line: Text, m: nat)
    ensures IsMatch(lines + [line], matches, m) <==> IsMatch(lines, matches, m) || (m == |lines| + 1 && matches(line))
  {
  }

  // A new line changes what is near an earlier one only by matching itself.
  lemma NearMore(lines: seq<Text>, matches: Text -> bool, context: nat, line: Text, k: nat)
    ensures Near(lines + [line], matches, context, k) <==>
            Near(lines, matches, context, k) ||
            (matches(line) && |lines| + 1 <= k + context && k <= |lines| + 1 + context)
  {
    forall m: nat ensures IsMatch(lines + [line], matches, m) <==>
      IsMatch(lines, matches, m) || (m == |lines| + 1 && matches(line)) {
      NoLaterMatch(lines, matches, line, m);
    }
    assert IsMatch(lines + [line], matches, |lines| + 1) <==> matches(line);
  }

  // Everything near a match up to the last emitted line was emitted already, even what a match
  // on the next line would bring in.
  lemma AlreadyNear(lines: seq<Text>, matches: Text -> bool, context: nat, last: nat, k: nat)
    requires 1 <= k <= last <= |lines| && Near(lines, matches, context, last)
    requires forall l: nat :: last < l <= |lines| ==> !Near(lines, matches, context, l)
    requires |lines| + 1 <= k + context
    ensures Near(lines, matches, context, k)
  {
    var m: nat :| IsMatch(lines, matches, m) && m <= last + context && last <= m + context;
    assert Near(lines, matches, context, m);
    assert m <= k + context && k <= m + context;
  }

  lemma {:induction false} WindowSame(lines: seq<Text>, matches: Text -> bool, context: nat, line: Text, k: nat)
    requires k <= |lines|
    requires forall l: nat :: 1 <= l <= k ==>
      (Near(lines + [line], matches, context, l) <==> Near(lines, matches, context, l))
    ensures Window(lines + [line], matches, context, k) == Window(lines, matches, context, k)
    decreases k
  {
    hide Near;
    if k > 0 {
      WindowSame(lines, matches, context, line, k - 1);
    }
  }

  lemma {:induction false} WindowSkips(lines: seq<Text>, matches: Text -> bool, context: nat, from: nat, k: nat)
    requires from <= k <= |lines|
    requires forall l: nat :: from < l <= k ==> !Near(lines, matches, context, l)
    ensures Window(lines, matches, context, k) == Window(lines, matches, context, from)
    decreases k
  {
    hide Near;
    if from < k {
      WindowSkips(lines, matches, context, from, k - 1);
    }
  }

  lemma LastIsNear(lines: seq<Text>, matches: Text -> bool, context: nat)
    ensures
      var last := Last(Window(lines, matches, context, |lines|));
      && last <= |lines|
      && (last > 0 ==> Near(lines, matches, context, last))
      && (forall l: nat :: last < l <= |lines| ==> !Near(lines, matches, context, l))
  {
    hide Near, Window;
    var rows := Window(lines, matches, context, |lines|);
    WindowIsExact(lines, matches, context);
    forall l: nat | 1 <= l <= |lines| && Near(lines, matches, context, l) ensures l <= Last(rows) {
      var i :| 0 <= i < |rows| && rows[i] == RowFor(lines, matches, l);
    }
    if rows != [] {
      WindowRow(lines, matches, context, |lines|, |rows| - 1);
    }
  }

  // A line that does not match is shown when it is near an earlier match.
  lemma NextPlain(lines: seq<Text>, matches: Text -> bool, context: nat, line: Text)
    requires !matches(line)
    ensures
      var more := lines + [line];
      Window(more, matches, context, |more|) ==
        Window(lines, matches, context, |lines|) +
        (if Near(lines, matches, context, |more|) then [Row(ContextRow, |more|, line)] else [])
  {
    hide Near;
    var more := lines + [line];
    forall l: nat ensures Near(more, matches, context, l) <==> Near(lines, matches, context, l) {
      NearMore(lines, matches, context, line, l);
    }
    WindowSame(lines, matches, context, line, |lines|);
  }

  // Rows `from`+1 to `to` as context before a match.
  function ContextRows(lines: seq<Text>, from: nat, end: nat): (rows: seq<Row>)
    requires from <= end <= |lines|
  {
    if from == end then [] else ContextRows(lines, from, end - 1) + [Row(ContextRow, end, lines[end - 1])]
  }

  lemma {:induction false} WindowAdds(lines: seq<Text>, matches: Text -> bool, context: nat, from: nat, k: nat)
    requires from <= k <= |lines|
    requires forall l: nat :: from < l <= k ==> Near(lines, matches, context, l) && !matches(lines[l - 1])
    ensures Window(lines, matches, context, k) == Window(lines, matches, context, from) + ContextRows(lines, from, k)
    decreases k
  {
    hide Near;
    if from < k {
      WindowAdds(lines, matches, context, from, k - 1);
    }
  }

  // A matching line brings in the lines before it that are in reach and were not shown yet.
  lemma NextMatch(lines: seq<Text>, matches: Text -> bool, context: nat, line: Text)
    requires matches(line)
    ensures
      var more := lines + [line];
      var shown := Window(lines, matches, context, |lines|);
      var reach := if |lines| > context then |lines| - context else 0;
      var from := if Last(shown) > reach then Last(shown) else reach;
      from <= |lines| &&
      Window(more, matches, context, |more|)
        == shown + ContextRows(lines, from, |lines|) + [Row(MatchRow, |more|, line)]
  {
    hide Window, Near;
    var more, n := lines + [line], |lines|;
    var shown := Window(lines, matches, context, n);
    var reach := if n > context then n - context else 0;
    var last := Last(shown);
    var from := if last > reach then last else reach;
    LastIsNear(lines, matches, context);
    WindowSkips(lines, matches, context, last, n);
    forall l: nat | 1 <= l <= last ensures Near(more, matches, context, l) <==> Near(lines, matches, context, l) {
      NearUpto(lines, matches, context, line, last, l);
    }
    WindowSame(lines, matches, context, line, last);
    forall l: nat | last < l <= from ensures !Near(more, matches, context, l) {
      NearBeyond(lines, matches, context, line, l);
    }
    WindowSkips(more, matches, context, last, from);
    forall l: nat | from < l <= n ensures Near(more, matches, context, l) && !matches(more[l - 1]) {
      NearBeyond(lines, matches, context, line, l);
    }
    WindowAdds(more, matches, context, from, n);
    NearSelf(more, matches, context, n + 1);
    SameContextRows(lines, line, from, n);
    WindowStep(more, matches, context, n + 1);
  }

  lemma WindowStep(lines: seq<Text>, matches: Text -> bool, context: nat, k: nat)
    requires 0 < k <= |lines| && Near(lines, matches, context, k)
    ensures Window(lines, matches, context, k) == Window(lines, matches, context, k - 1) + [RowFor(lines, matches, k)]
  {
  }

  lemma NoContext(lines: seq<Text>, from: nat)
    requires from <= |lines|
    ensures ContextRows(lines, from, from) == []
  {
  }

  lemma MoreContext(shown: seq<Row>, lines: seq<Text>, from: nat, end: nat)
    requires from <= end < |lines|
    ensures (shown + ContextRows(lines, from, end)) + [Row(ContextRow, end + 1, lines[end])]
         == shown + ContextRows(lines, from, end + 1)
  {
  }

  lemma {:induction false} SameContextRows(lines: seq<Text>, line: Text, from: nat, end: nat)
    requires from <= end <= |lines|
    ensures ContextRows(lines + [line], from, end) == ContextRows(lines, from, end)
    decreases end
  {
    if from < end {
      SameContextRows(lines, line, from, end - 1);
    }
  }

  // Once the next line matches, what is near a match is unchanged up to the last emitted line ...
  lemma NearUpto(lines: seq<Text>, matches: Text -> bool, context: nat, line: Text, last: nat, l: nat)
    requires 1 <= l <= last <= |lines| && Near(lines, matches, context, last)
    requires forall k: nat :: last < k <= |lines| ==> !Near(lines, matches, context, k)
    ensures Near(lines + [line], matches, context, l) <==> Near(lines, matches, context, l)
  {
    hide Near;
    NearMore(lines, matches, context, line, l);
    if |lines| + 1 <= l + context {
      AlreadyNear(lines, matches, context, last, l);
    }
  }

  // ... and of the lines not shown yet, those in reach of the new one are near it.
  lemma NearBeyond(lines: seq<Text>, matches: Text -> bool, context: nat, line: Text, l: nat)
    requires matches(line) && 1 <= l <= |lines| && !Near(lines, matches, context, l)
    ensures Near(lines + [line], matches, context, l) <==> |lines| + 1 <= l + context
    ensures !matches((lines + [line])[l - 1])
  {
    hide Near;
    NearMore(lines, matches, context, line, l);
    UnshownIsPlain(lines, matches, context, l);
  }

  lemma UnshownIsPlain(lines: seq<Text>, matches: Text -> bool, context: nat, l: nat)
    requires 1 <= l <= |lines| && !Near(lines, matches, context, l)
    ensures !matches(lines[l - 1])
  {
    assert IsMatch(lines, matches, l) <==> matches(lines[l - 1]);
  }

  lemma NearSelf(lines: seq<Text>, matches: Text -> bool, context: nat, l: nat)
    requires 1 <= l <= |lines| && matches(lines[l - 1])
    ensures Near(lines, matches, context, l)
  {
    assert IsMatch(lines, matches, l);
  }

  // ---- The sink ----

  // The lines kept to be shown before a match: none without context, otherwise the last few.
  function Kept(lines: seq<Text>, from: nat, end: nat): (kept: seq<Retained>)
    requires from <= end <= |lines|
    ensures |kept| == end - from
    ensures forall k :: 0 <= k < |kept| ==> kept[k] == Retained(from + k + 1, lines[from + k])
  {
    seq(end - from, k requires 0 <= k < end - from => Retained(from + k + 1, lines[from + k]))
  }

  function Later(a: nat, b: nat): nat {
    if a > b then a else b
  }

  function Reach(n: nat, context: nat): (r: nat)
    ensures r <= n
  {
    if n > context then n - context else 0
  }

  function Capped(n: nat): nat {
    if n > MAX_UINT64 then MAX_UINT64 else n
  }

  // How far lines are shown after the last match among the first lines.
  ghost predicate ShownUntil(lines: seq<Text>, matches: Text -> bool, context: nat, until: nat) {
    forall k: nat :: |lines| < k <= MAX_UINT64 ==> (k <= until <==> Near(lines, matches, context, k))
  }

  lemma NothingShown(matches: Text -> bool, context: nat)
    ensures ShownUntil([], matches, context, 0)
  {
  }

  lemma UntilNext(lines: seq<Text>, matches: Text -> bool, context: nat, until: nat, line: Text)
    requires ShownUntil(lines, matches, context, until)
    ensures
      var upper := Capped(|lines| + 1 + context);
      ShownUntil(lines + [line], matches, context, if matches(line) && upper > until then upper else until)
  {
    hide Near;
    forall k: nat | |lines| + 1 < k <= MAX_UINT64
      ensures Near(lines + [line], matches, context, k) <==>
              Near(lines, matches, context, k) || (matches(line) && k <= |lines| + 1 + context) {
      NearMore(lines, matches, context, line, k);
    }
  }

  class TextSearchSink {
    const matches: Text -> bool
    const context: nat
    const pathBytes: nat
    const rowBytes: nat
    const maxRetainedBytes: nat
    var previous: seq<Retained>
    var afterUntil: nat
    var lastEmitted: nat
    var rows: seq<Row>
    // The storage the rows were given, in rows.
    var capacity: nat
    var rowStrings: nat
    var exceeded: bool
    // The lines consumed so far.
    ghost var lines: seq<Text>

    constructor (matches: Text -> bool, context: nat, pathBytes: nat, rowBytes: nat, maxRetainedBytes: nat)
      ensures Valid() && lines == [] && !exceeded && this.matches == matches && this.context == context
    {
      this.matches, this.context, this.pathBytes, this.rowBytes, this.maxRetainedBytes := matches, context, pathBytes,
        rowBytes, maxRetainedBytes;
      previous, afterUntil, lastEmitted, rows, capacity, rowStrings, exceeded := [], 0, 0, [], 0, 0, false;
      lines := [];
      new;
      NothingShown(matches, context);
    }

    // The rows are the window over the lines so far.
    ghost predicate Valid()
      reads this
    {
      && rows == Window(lines, matches, context, |lines|)
      && Bookkeeping()
    }

    ghost predicate Bookkeeping()
      reads this
    {
      && previous == (if context == 0 then [] else Kept(lines, Reach(|lines|, context + 1), |lines|))
      && ShownUntil(lines, matches, context, afterUntil)
      && lastEmitted == Last(rows)
      && Charged()
    }

    // What the rows retain stays within the budget.
    predicate Charged()
      reads this`rows, this`capacity, this`rowStrings
    {
      && |rows| <= capacity
      && rowStrings == Strings(rows, pathBytes)
      && (rows != [] ==> capacity * rowBytes + rowStrings <= maxRetainedBytes)
    }

    predicate Fits(capacity: nat, addedStrings: nat)
      reads this`rowStrings
    {
      capacity * rowBytes + rowStrings + addedStrings <= maxRetainedBytes
    }

    // The next row of the target no longer fits.
    ghost predicate Blocked(target: seq<Row>)
      reads this`rows, this`capacity, this`rowStrings
    {
      && |rows| < |target| && rows == target[..|rows|]
      && !Fits(if |rows| + 1 > capacity then |rows| + 1 else capacity, pathBytes + |target[|rows|].text|)
    }

    lemma BlockedMore(target: seq<Row>, row: Row)
      ensures Blocked(target) ==> Blocked(target + [row])
    {
      if Blocked(target) {
        assert (target + [row])[..|rows|] == target[..|rows|];
      }
    }

    // Then the whole target does not fit beside the capacity that is already held.
    lemma BlockedMeans(target: seq<Row>)
      requires rowStrings == Strings(rows, pathBytes) && Blocked(target)
      ensures Oversized(if |target| > capacity then |target| else capacity, Strings(target, pathBytes))
    {
      StringsGrow(target, pathBytes, |rows|);
      hide Strings;
      OversizedBy(if |rows| + 1 > capacity then |rows| + 1 else capacity, pathBytes + |target[|rows|].text|,
                  if |target| > capacity then |target| else capacity, Strings(target, pathBytes));
    }

    lemma ChargedStrings()
      requires Charged()
      ensures rowStrings == Strings(rows, pathBytes)
    {
    }

    // So much capacity and so many bytes of strings exceed the budget.
    predicate Oversized(held: nat, strings: nat) {
      held * rowBytes + strings > maxRetainedBytes
    }

    lemma OversizedBy(room: nat, added: nat, held: nat, strings: nat)
      requires !Fits(room, added) && room <= held && strings >= rowStrings + added
      ensures Oversized(held, strings)
    {
      MoreRoom(room, held, rowBytes);
    }

    lemma FitsMeans(capacity: nat, addedStrings: nat)
      ensures Fits(capacity, addedStrings) <==> capacity * rowBytes + rowStrings + addedStrings <= maxRetainedBytes
    {
    }

    // Room for one more row: what there is, or twice as much, or exactly one more.
    function Doubled(): nat
      reads this`rows, this`capacity
    {
      if capacity == 0 then 1 else if 2 * capacity < |rows| + 1 then |rows| + 1 else 2 * capacity
    }

    function NewCapacity(added: nat): nat
      reads this
    {
      if |rows| + 1 <= capacity then capacity else if Fits(Doubled(), added) then Doubled() else |rows| + 1
    }

    lemma FitsLess(a: nat, b: nat, added: nat)
      requires a <= b && Fits(b, added)
      ensures Fits(a, added)
    {
      assert a * rowBytes <= b * rowBytes;
    }

    // The room for one more row, if the budget has any.
    method ChooseRoom(addedStrings: nat) returns (room: Option<nat>)
      requires |rows| <= capacity
      ensures room.Some? <==> Fits(if |rows| + 1 > capacity then |rows| + 1 else capacity, addedStrings)
      ensures room.Some? ==>
        room.value == NewCapacity(addedStrings) && |rows| < room.value && Fits(room.value, addedStrings)
    {
      hide Fits;
      var required := |rows| + 1;
      var chosen := capacity;
      if required > capacity {
        chosen := 1;
        if capacity != 0 {
          chosen := capacity * 2;
          if chosen < required {
            chosen := required;
          }
        }
        if !Fits(chosen, addedStrings) {
          chosen := required;
        }
      }
      if !Fits(chosen, addedStrings) {
        return None;
      }
      FitsLess(if required > capacity then required else capacity, chosen, addedStrings);
      return Some(chosen);
    }

    // Adds a row exactly if what would then be retained stays within the budget: in the room there
    // is, else in twice as much if the budget allows that, else in room for just this row.
    method Append(kind: Kind, line: nat, text: Text) returns (ok: bool)
      requires Charged()
      modifies this`rows, this`capacity, this`rowStrings, this`lastEmitted
      ensures Charged()
      ensures ok ==> rows == old(rows) + [Row(kind, line, text)] && lastEmitted == line
      ensures ok ==>
        capacity == old(NewCapacity(pathBytes + |text|)) && rowStrings == old(rowStrings) + pathBytes + |text|
      ensures !ok ==>
        rows == old(rows) && lastEmitted == old(lastEmitted) && capacity == old(capacity)
        && rowStrings == old(rowStrings)
      ensures ok <==> old(Fits(if |rows| + 1 > capacity then |rows| + 1 else capacity, pathBytes + |text|))
      ensures !ok ==> Blocked(old(rows) + [Row(kind, line, text)])
    {
      hide Fits, Strings, NewCapacity;
      var addedStrings := pathBytes + |text|;
      var room := ChooseRoom(addedStrings);
      assert (rows + [Row(kind, line, text)])[..|rows|] == rows;
      if room.None? {
        return false;
      }
      FitsMeans(room.value, addedStrings);
      StringsNext(rows, Row(kind, line, text), pathBytes);
      capacity := room.value;
      rows := rows + [Row(kind, line, text)];
      rowStrings := rowStrings + addedStrings;
      lastEmitted := line;
      return true;
    }

    // Drops the kept lines that are out of reach of a line.
    method PrunePrevious(line: nat)
      requires Bookkeeping() && line == |lines| + 1
      modifies this`previous
      ensures previous == if context == 0 then [] else Kept(lines, Reach(|lines|, context), |lines|)
    {
      hide Window, Near;
      if context == 0 || |previous| == 0 {
        previous := [];
        return;
      }
      var lower := if line > context then line - context else 1;
      var first := 0;
      while first < |previous| && previous[first].number < lower
        invariant 0 <= first <= |previous| && Reach(|lines|, context + 1) + first <= Reach(|lines|, context)
      {
        first := first + 1;
      }
      previous := previous[first..];
    }

    // The kept lines in reach that were not shown yet are shown before the match.
    method AppendContext(lower: nat) returns (ok: bool)
      requires Charged() && lastEmitted == Last(rows) <= |lines| && lower == Reach(|lines|, context) + 1
      requires previous == if context == 0 then [] else Kept(lines, Reach(|lines|, context), |lines|)
      modifies this`rows, this`capacity, this`rowStrings, this`lastEmitted
      ensures Charged()
      ensures ok ==>
        var from := Later(old(lastEmitted), lower - 1);
        rows == old(rows) + ContextRows(lines, from, |lines|)
      ensures !ok ==>
        var from := Later(old(lastEmitted), lower - 1);
        Blocked(old(rows) + ContextRows(lines, from, |lines|))
    {
      assert context == 0 ==> Reach(|lines|, context) == |lines|;
      hide Strings, Charged, Fits, Last, Reach, ContextRows, Blocked, ShownUpto;
      var p := 0;
      ghost var last, shown := lastEmitted, rows;
      ghost var from := Later(last, lower - 1);
      ghost var end := from;
      NoneShown(from, lower);
      while p < |previous|
        invariant 0 <= p <= |previous| && ShownUpto(shown, from, end, last, lower, p)
      {
        ok, end := ShowNext(p, lower, shown, from, end, last);
        if !ok {
          return;
        }
        p := p + 1;
      }
      AllShown(shown, from, end, last, lower, p);
      return true;
    }

    // The lines from `from` on are shown as far as the kept ones were walked.
    ghost predicate ShownUpto(shown: seq<Row>, from: nat, end: nat, last: nat, lower: nat, p: nat)
      reads this
    {
      && Charged() && lower > 0 && from == Later(last, lower - 1) && end == Later(from, lower - 1 + p) <= |lines|
      && rows == shown + ContextRows(lines, from, end) && lastEmitted == if end > from then end else last
    }

    lemma NoneShown(from: nat, lower: nat)
      requires Charged() && lastEmitted <= |lines| && 0 < lower <= |lines| + 1 && from == Later(lastEmitted, lower - 1)
      ensures ShownUpto(rows, from, from, lastEmitted, lower, 0)
    {
      hide Charged;
      NoContext(lines, from);
    }

    lemma AllShown(shown: seq<Row>, from: nat, end: nat, last: nat, lower: nat, p: nat)
      requires ShownUpto(shown, from, end, last, lower, p) && lower - 1 + p == |lines|
      ensures Charged() && rows == shown + ContextRows(lines, from, |lines|)
    {
      hide Charged;
    }

    // One kept line, unless it was shown already.
    method ShowNext(p: nat, lower: nat, ghost shown: seq<Row>, ghost from: nat, ghost end: nat, ghost last: nat)
      returns (ok: bool, ghost end': nat)
      requires ShownUpto(shown, from, end, last, lower, p) && p < |previous|
      requires lower <= |lines| + 1 && previous == Kept(lines, lower - 1, |lines|)
      modifies this`rows, this`capacity, this`rowStrings, this`lastEmitted
      ensures Charged()
      ensures ok ==> ShownUpto(shown, from, end', last, lower, p + 1)
      ensures !ok ==> Blocked(shown + ContextRows(lines, from, |lines|))
    {
      hide Strings, Charged, Fits, Last, Reach, ContextRows, Blocked;
      var kept := previous[p];
      assert kept == Retained(lower + p, lines[lower - 1 + p]);
      if kept.number < lower || kept.number <= lastEmitted {
        return true, end;
      }
      assert kept == Retained(end + 1, lines[end]);
      ok := ShowKept(shown, from, end, kept);
      return ok, end + 1;
    }

    // One of these lines.
    method ShowKept(ghost shown: seq<Row>, ghost from: nat, ghost end: nat, kept: Retained) returns (ok: bool)
      requires Charged() && from <= end < |lines| && rows == shown + ContextRows(lines, from, end)
      requires kept == Retained(end + 1, lines[end])
      modifies this`rows, this`capacity, this`rowStrings, this`lastEmitted
      ensures Charged()
      ensures ok ==> rows == shown + ContextRows(lines, from, end + 1) && lastEmitted == end + 1
      ensures !ok ==> Blocked(shown + ContextRows(lines, from, |lines|))
    {
      hide Strings, Charged, Fits, ContextRows, Blocked;
      MoreContext(shown, lines, from, end);
      ok := Append(ContextRow, kept.number, kept.text);
      if !ok { StillBlocked(shown, from, end, |lines|); }
    }

    lemma {:induction false} StillBlocked(shown: seq<Row>, from: nat, end: nat, full: nat)
      requires from <= end < full <= |lines|
      requires Blocked(shown + ContextRows(lines, from, end) + [Row(ContextRow, end + 1, lines[end])])
      ensures Blocked(shown + ContextRows(lines, from, full))
      decreases full
    {
      MoreContext(shown, lines, from, full - 1);
      if end + 1 < full {
        StillBlocked(shown, from, end, full - 1);
        BlockedMore(shown + ContextRows(lines, from, full - 1), Row(ContextRow, full, lines[full - 1]));
      }
    }

    // Shows what a new line brings in: the line itself, and before a match the lines in reach.
    method Show(number: nat, text: Text) returns (matched: bool, ok: bool)
      requires rows == Window(lines, matches, context, |lines|) && Charged() && lastEmitted == Last(rows)
      requires ShownUntil(lines, matches, context, afterUntil) && number == |lines| + 1 <= MAX_UINT64
      requires previous == if context == 0 then [] else Kept(lines, Reach(|lines|, context), |lines|)
      modifies this`rows, this`capacity, this`rowStrings, this`lastEmitted
      ensures Charged() && matched == matches(text)
      ensures ok ==> rows == Window(lines + [text], matches, context, |lines| + 1) && lastEmitted == Last(rows)
      ensures !ok ==> Blocked(Window(lines + [text], matches, context, |lines| + 1))
    {
      hide Window, Near, Kept, Strings, Blocked, Charged, Fits, ContextRows;
      LastIsNear(lines, matches, context);
      matched := matches(text);
      if matched {
        NextMatch(lines, matches, context, text);
        ghost var shown := rows;
        ok := AppendContext(if number > context then number - context else 1);
        if !ok {
          var reach := if |lines| > context then |lines| - context else 0;
          BlockedMore(shown + ContextRows(lines, if Last(shown) > reach then Last(shown) else reach, |lines|),
                      Row(MatchRow, number, text));
        } else {
          ok := Append(MatchRow, number, text);
        }
      } else {
        NextPlain(lines, matches, context, text);
        ok := true;
        if number <= afterUntil {
          ok := Append(ContextRow, number, text);
        }
      }
    }

    // One line more: the rows become the window over one line more, or that window does not fit
    // the budget beside the capacity that is held.
    method Consume(number: nat, text: Text) returns (ok: bool)
      requires Valid() && number == |lines| + 1 <= MAX_UINT64
      modifies this
      ensures ok ==> Valid() && lines == old(lines) + [text] && exceeded == old(exceeded)
      ensures !ok ==> exceeded && Charged()
      ensures !ok ==>
        var window := Window(old(lines) + [text], matches, context, number);
        Oversized(if |window| > capacity then |window| else capacity, Strings(window, pathBytes))
    {
      hide Window, Near, Kept, Strings, Charged, ShownUntil, Last, Blocked;
      UntilNext(lines, matches, context, afterUntil, text);
      KeptNext(lines, text, context);
      PrunePrevious(number);
      var matched;
      matched, ok := Show(number, text);
      if !ok {
        ChargedStrings();
        BlockedMeans(Window(lines + [text], matches, context, number));
        exceeded := true;
        return;
      }
      var upper := Capped(number + context);
      if matched && upper > afterUntil {
        afterUntil := upper;
      }
      if context != 0 {
        previous := previous + [Retained(number, text)];
      }
      lines := lines + [text];
    }
  }

  lemma KeptNext(lines: seq<Text>, text: Text, context: nat)
    ensures Kept(lines, Reach(|lines|, context), |lines|) + [Retained(|lines| + 1, text)] ==
            Kept(lines + [text], Reach(|lines| + 1, context + 1), |lines| + 1)
  {
  }

  // The bytes of path and text that rows keep.
  function Strings(rows: seq<Row>, pathBytes: nat): nat {
    if rows == [] then 0 else Strings(rows[..|rows| - 1], pathBytes) + pathBytes + |rows[|rows| - 1].text|
  }

  lemma StringsNext(rows: seq<Row>, row: Row, pathBytes: nat)
    ensures Strings(rows + [row], pathBytes) == Strings(rows, pathBytes) + pathBytes + |row.text|
  {
    assert (rows + [row])[..|rows|] == rows;
  }

  lemma {:induction false} StringsGrow(target: seq<Row>, pathBytes: nat, k: nat)
    requires k < |target|
    ensures Strings(target, pathBytes) >= Strings(target[..k], pathBytes) + pathBytes + |target[k].text|
    decreases |target|
  {
    var front := target[..|target| - 1];
    if k < |front| {
      StringsGrow(front, pathBytes, k);
      assert front[..k] == target[..k];
    }
  }

  lemma MoreRoom(room: nat, more: nat, size: nat)
    requires room <= more
    ensures room * size <= more * size
  {
    assert more * size == room * size + (more - room) * size;
  }
}
