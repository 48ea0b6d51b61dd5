// Planning the pages of a read result: fill every page as far as it goes, found by bisection on
// the rendered size, and end with a page that shows all the rest.
module ReadPlan {
  import opened Wrappers
  import opened PageFields
  import opened ReadPage
  import opened ResultText
  import opened ReadResult
  import ReadBack
  import opened TextOrder

  datatype Code = InvalidInput | RecordExceedsBudget | BudgetExceeded

  datatype Page = Page(segments: seq<Segment>, rows: nat, items: nat, maxBytes: nat, complete: bool)

  datatype Plan = Planned(pages: seq<Page>) | Refused(code: Code)

  const OUTPUT_MAX_BYTES := 1_048_576

  // ---- Which splits exist ----

  predicate PartialFits(view: View, items: seq<Item>, limit: nat, p: Position, count: nat)
    requires SomeUnits(items) && ValidPosition(items, p) && count <= Remaining(items, p)
  {
    PageSize(view, items, p, count, false, PLACEHOLDER) <= limit
  }

  predicate FinalFits(view: View, items: seq<Item>, limit: nat, p: Position)
    requires SomeUnits(items) && ValidPosition(items, p)
  {
    PageSize(view, items, p, Remaining(items, p), true, []) <= limit
  }

  // The units from a position on can be shown on at most `m` fitting pages: a complete page
  // ends them, or a partial page starts them and the rest can be shown on one page fewer.
  ghost predicate CanSplit(view: View, items: seq<Item>, limit: nat, p: Position, m: nat)
    requires SomeUnits(items) && ValidPosition(items, p)
    decreases m
  {
    m > 0 &&
    (FinalFits(view, items, limit, p) ||
     exists c: nat :: 0 < c < Remaining(items, p) && PartialFits(view, items, limit, p, c) &&
                      CanSplit(view, items, limit, After(items, p, c), m - 1))
  }

  lemma RemainingNext(items: seq<Item>, p: Position)
    requires SomeUnits(items) && ValidPosition(items, p) && p.item < |items|
    ensures Remaining(items, p) == Units(items[p.item]) - p.offset + Remaining(items, Start(items, p.item + 1))
  {
  }

  lemma AfterNext(items: seq<Item>, p: Position, a: nat)
    requires SomeUnits(items) && ValidPosition(items, p) && a <= Remaining(items, p)
    ensures a == 0 ==> After(items, p, a) == p
    ensures a > 0 ==> p.item < |items|
    ensures a > 0 && Units(items[p.item]) - p.offset <= a ==>
      && a - (Units(items[p.item]) - p.offset) <= Remaining(items, Start(items, p.item + 1))
      && After(items, p, a) == After(items, Start(items, p.item + 1), a - (Units(items[p.item]) - p.offset))
  {
  }

  // Stepping on from a position, when the first step stays within its item.
  lemma AfterWithin(items: seq<Item>, p: Position, a: nat, b: nat)
    requires SomeUnits(items) && ValidPosition(items, p) && a + b <= Remaining(items, p)
    requires p.item < |items| && a < Units(items[p.item]) - p.offset
    ensures After(items, After(items, p, a), b) == After(items, p, a + b)
  {
    hide Remaining, Units, SomeUnits;
    RemainingNext(items, p);
    var q := Position(p.item, p.offset + a);
    assert After(items, p, a) == q;
    var left := Units(items[p.item]) - q.offset;
    if b >= left {
      assert After(items, q, b) == After(items, Start(items, p.item + 1), b - left);
    }
  }

  lemma {:induction false} AfterAdds(items: seq<Item>, p: Position, a: nat, b: nat)
    requires SomeUnits(items) && ValidPosition(items, p) && a + b <= Remaining(items, p)
    ensures After(items, After(items, p, a), b) == After(items, p, a + b)
    decreases |items| - p.item
  {
    hide Remaining, Units, SomeUnits, After;
    AfterNext(items, p, a);
    if a > 0 {
      RemainingNext(items, p);
      var available := Units(items[p.item]) - p.offset;
      if a >= available {
        AfterNext(items, p, a + b);
        AfterAdds(items, Start(items, p.item + 1), a - available, b);
      } else {
        AfterWithin(items, p, a, b);
      }
    }
  }

  // Fewer units fit wherever more do, from the same start or to the same end.
  lemma {:induction false} FewerFit(view: View, items: seq<Item>, limit: nat, p: Position, count: nat, fewer: nat)
    requires ValidItems(items, view) && SomeUnits(items) && ValidPosition(items, p)
    requires fewer <= count <= Remaining(items, p) && PartialFits(view, items, limit, p, count)
    ensures PartialFits(view, items, limit, p, fewer)
    decreases count
  {
    hide PageSize;
    if fewer < count {
      PageGrows(view, items, p, count - 1, false, PLACEHOLDER);
      FewerFit(view, items, limit, p, count - 1, fewer);
    }
  }

  lemma {:induction false} LaterFits(view: View, items: seq<Item>, limit: nat, p: Position, count: nat, skipped: nat)
    requires ValidItems(items, view) && SomeUnits(items) && ValidPosition(items, p)
    requires skipped < count <= Remaining(items, p) && PartialFits(view, items, limit, p, count)
    ensures PartialFits(view, items, limit, After(items, p, skipped), count - skipped)
    decreases skipped
  {
    hide PageSize, After, ValidItems;
    AfterAdds(items, p, 0, 0);
    if skipped > 0 {
      PageShrinks(view, items, p, count, false, PLACEHOLDER);
      LaterFits(view, items, limit, After(items, p, 1), count - 1, skipped - 1);
      AfterAdds(items, p, 1, skipped - 1);
    } else {
      AfterNone(items, p);
    }
  }

  lemma AfterNone(items: seq<Item>, p: Position)
    requires SomeUnits(items) && ValidPosition(items, p)
    ensures After(items, p, 0) == p
  {
  }

  lemma {:induction false} MorePages(view: View, items: seq<Item>, limit: nat, p: Position, m: nat)
    requires SomeUnits(items) && ValidPosition(items, p) && CanSplit(view, items, limit, p, m)
    ensures CanSplit(view, items, limit, p, m + 1)
    decreases m
  {
    hide PartialFits, FinalFits;
    if !FinalFits(view, items, limit, p) {
      var c: nat :| 0 < c < Remaining(items, p) && PartialFits(view, items, limit, p, c) &&
                    CanSplit(view, items, limit, After(items, p, c), m - 1);
      MorePages(view, items, limit, After(items, p, c), m - 1);
    }
  }

  // Whoever starts later needs no more pages.
  lemma LaterSplits(view: View, items: seq<Item>, limit: nat, p: Position, m: nat)
    requires ValidItems(items, view) && SomeUnits(items) && ValidPosition(items, p)
    requires Remaining(items, p) > 1 && CanSplit(view, items, limit, p, m)
    ensures CanSplit(view, items, limit, After(items, p, 1), m)
  {
    hide PageSize, After, ValidItems;
    var q := After(items, p, 1);
    if FinalFits(view, items, limit, p) {
      PageShrinks(view, items, p, Remaining(items, p), true, []);
    } else {
      var c: nat :| 0 < c < Remaining(items, p) && PartialFits(view, items, limit, p, c) &&
                    CanSplit(view, items, limit, After(items, p, c), m - 1);
      if c == 1 {
        MorePages(view, items, limit, q, m - 1);
      } else {
        LaterFits(view, items, limit, p, c, 1);
        AfterAdds(items, p, 1, c - 1);
      }
    }
  }

  lemma {:induction false} MuchLaterSplits(view: View, items: seq<Item>, limit: nat, p: Position, m: nat, skipped: nat)
    requires ValidItems(items, view) && SomeUnits(items) && ValidPosition(items, p)
    requires skipped < Remaining(items, p) && CanSplit(view, items, limit, p, m)
    ensures CanSplit(view, items, limit, After(items, p, skipped), m)
    decreases skipped
  {
    hide CanSplit, After, ValidItems;
    if skipped == 0 {
      AfterNone(items, p);
    } else {
      LaterSplits(view, items, limit, p, m);
      MuchLaterSplits(view, items, limit, After(items, p, 1), m, skipped - 1);
      AfterAdds(items, p, 1, skipped - 1);
    }
  }

  // A partial page filled as far as it goes loses no split.
  lemma GreedyKeepsSplits(view: View, items: seq<Item>, limit: nat, p: Position, count: nat, m: nat)
    requires ValidItems(items, view) && SomeUnits(items) && ValidPosition(items, p)
    requires !FinalFits(view, items, limit, p)
    requires 0 < count < Remaining(items, p)
    requires count + 1 == Remaining(items, p) || !PartialFits(view, items, limit, p, count + 1)
    requires CanSplit(view, items, limit, p, m)
    ensures m > 0 && CanSplit(view, items, limit, After(items, p, count), m - 1)
  {
    hide FinalFits, PartialFits, After, ValidItems;
    var c: nat :| 0 < c < Remaining(items, p) && PartialFits(view, items, limit, p, c) &&
                  CanSplit(view, items, limit, After(items, p, c), m - 1);
    if c > count {
      FewerFit(view, items, limit, p, c, count + 1);
    }
    MuchLaterSplits(view, items, limit, After(items, p, c), m - 1, count - c);
    AfterAdds(items, p, c, count - c);
  }

  // If not even one unit fits, or one is left and the last page does not fit, no split exists.
  lemma StuckHasNoSplit(view: View, items: seq<Item>, limit: nat, p: Position, m: nat)
    requires ValidItems(items, view) && SomeUnits(items) && ValidPosition(items, p) && Remaining(items, p) > 0
    requires !FinalFits(view, items, limit, p)
    requires Remaining(items, p) == 1 || !PartialFits(view, items, limit, p, 1)
    ensures !CanSplit(view, items, limit, p, m)
  {
    hide FinalFits, PartialFits, After;
    if CanSplit(view, items, limit, p, m) {
      var c: nat :| 0 < c < Remaining(items, p) && PartialFits(view, items, limit, p, c) &&
                    CanSplit(view, items, limit, After(items, p, c), m - 1);
      FewerFit(view, items, limit, p, c, 1);
    }
  }

  // ---- Plans ----

  function RowsOf(items: seq<Item>, segments: seq<Segment>): nat
    requires ValidSegments(items, segments)
    decreases |segments|
  {
    if segments == [] then 0
    else
      var s := segments[0];
      (if items[s.item].SourceRows? || items[s.item].OutlineRecords? then s.end - s.start else 0)
        + RowsOf(items, segments[1..])
  }

  // A page that shows the `count` units from a position on: it fits, it is complete exactly when
  // nothing is left, and a partial page could show neither everything nor one unit more.
  predicate PageShows(view: View, items: seq<Item>, limit: nat, p: Position, page: Page, count: nat)
    requires SomeUnits(items) && ValidPosition(items, p)
  {
    && 0 < count <= Remaining(items, p)
    && page.segments == Segments(items, p, count)
    && page == Page(page.segments, RowsOf(items, page.segments), |page.segments|, limit, count == Remaining(items, p))
    && if page.complete then FinalFits(view, items, limit, p)
       else PartialFits(view, items, limit, p, count) && !FinalFits(view, items, limit, p) &&
            (count + 1 == Remaining(items, p) || !PartialFits(view, items, limit, p, count + 1))
  }

  // The pages show the units from `p` up to `q`, each once and in order.
  ghost predicate Chain(view: View, items: seq<Item>, limit: nat, p: Position, pages: seq<Page>, q: Position)
    requires SomeUnits(items) && ValidPosition(items, p)
    decreases |pages|
  {
    if pages == [] then p == q
    else exists c: nat :: PageShows(view, items, limit, p, pages[0], c) &&
                          Chain(view, items, limit, After(items, p, c), pages[1..], q)
  }

  lemma {:induction false} ChainAppend(view: View, items: seq<Item>, limit: nat, p: Position, pages: seq<Page>,
                                       q: Position, page: Page, count: nat)
    requires SomeUnits(items) && ValidPosition(items, p) && ValidPosition(items, q)
    requires Chain(view, items, limit, p, pages, q) && PageShows(view, items, limit, q, page, count)
    ensures Chain(view, items, limit, p, pages + [page], After(items, q, count))
    decreases |pages|
  {
    hide PageShows, After;
    if pages == [] {
      assert ([] + [page])[1..] == [] && (pages + [page])[0] == page;
      assert PageShows(view, items, limit, p, (pages + [page])[0], count) by {
        assert p == q;
      }
      CountBound(view, items, limit, q, page, count);
      assert Chain(view, items, limit, After(items, q, count), [], After(items, q, count));
    } else {
      var c: nat :| PageShows(view, items, limit, p, pages[0], c)
          && Chain(view, items, limit, After(items, p, c), pages[1..], q);
      CountBound(view, items, limit, p, pages[0], c);
      ChainAppend(view, items, limit, After(items, p, c), pages[1..], q, page, count);
      assert (pages + [page])[0] == pages[0] && (pages + [page])[1..] == pages[1..] + [page];
    }
  }

  lemma CountBound(view: View, items: seq<Item>, limit: nat, p: Position, page: Page, count: nat)
    requires SomeUnits(items) && ValidPosition(items, p) && PageShows(view, items, limit, p, page, count)
    ensures 0 < count <= Remaining(items, p)
  {
  }

  // A plan that shows everything is a split.
  lemma {:induction false} ChainSplits(view: View, items: seq<Item>, limit: nat, p: Position, pages: seq<Page>)
    requires SomeUnits(items) && ValidPosition(items, p) && pages != []
    requires Chain(view, items, limit, p, pages, Position(|items|, 0))
    ensures CanSplit(view, items, limit, p, |pages|)
    decreases |pages|
  {
    hide PartialFits, FinalFits, After;
    var c: nat :| PageShows(view, items, limit, p, pages[0], c) &&
                  Chain(view, items, limit, After(items, p, c), pages[1..], Position(|items|, 0));
    if c < Remaining(items, p) {
      ChainSplits(view, items, limit, After(items, p, c), pages[1..]);
    }
  }

  // ---- Planning ----

  method NewReadPage(items: seq<Item>, segments: seq<Segment>, maxBytes: nat, complete: bool) returns (page: Page)
    requires ValidSegments(items, segments)
    ensures page == Page(segments, RowsOf(items, segments), |segments|, maxBytes, complete)
  {
    var rows, k := 0, 0;
    assert segments[0..] == segments;
    while k < |segments|
      invariant 0 <= k <= |segments| && rows + RowsOf(items, segments[k..]) == RowsOf(items, segments)
    {
      var s := segments[k];
      assert segments[k..][0] == s && segments[k..][1..] == segments[k + 1..];
      if items[s.item].SourceRows? || items[s.item].OutlineRecords? {
        rows := rows + (s.end - s.start);
      }
      k := k + 1;
    }
    return Page(segments, rows, |segments|, maxBytes, complete);
  }

  method ReadPageFits(view: View, items: seq<Item>, page: Page, cursor: Text) returns (fits: bool)
    requires ValidItems(items, view) && ValidSegments(items, page.segments)
    ensures fits <==>
      ValidStatusCursor(page.complete, cursor) &&
      |PageText(view, items, page.segments, page.complete, cursor)| <= page.maxBytes
  {
    var _, ok := RenderReadMaterial(view, items, page.segments, page.maxBytes, page.complete, cursor);
    fits := ok;
  }

  // The longest partial page that fits, by bisection.
  method LongestPartial(view: View, items: seq<Item>, limit: nat, position: Position, remaining: nat) returns (low: nat)
    requires ValidItems(items, view) && SomeUnits(items) && ValidPosition(items, position)
    requires remaining == Remaining(items, position) && remaining > 1 && PartialFits(view, items, limit, position, 1)
    ensures 0 < low < remaining && PartialFits(view, items, limit, position, low)
    ensures low + 1 == remaining || !PartialFits(view, items, limit, position, low + 1)
  {
    hide PageText, Segments, Remaining, After;
    low := 1;
    var high := remaining - 1;
    while low < high
      invariant 0 < low <= high < remaining && PartialFits(view, items, limit, position, low)
      invariant high + 1 == remaining || !PartialFits(view, items, limit, position, high + 1)
    {
      var middle := low + (high - low + 1) / 2;
      var segments, _, _ := ReadSegments(items, position, middle);
      var candidate := NewReadPage(items, segments, limit, false);
      PlaceholderIsCursor();
      var fits := ReadPageFits(view, items, candidate, PLACEHOLDER);
      if fits {
        low := middle;
      } else {
        high := middle - 1;
      }
    }
  }

  lemma ItemsHaveUnits(view: View, items: seq<Item>)
    requires ValidItems(items, view)
    ensures SomeUnits(items)
  {
  }

  datatype PageStep = Next(page: Page, position: Position) | Stop(code: Code)

  // Plans the page that starts at a position, when `used` pages are planned before it.
  method PlanPage(view: View, items: seq<Item>, limit: nat, position: Position, used: nat, maxPages: nat)
    returns (step: PageStep, ghost count: nat)
    requires ValidItems(items, view) && SomeUnits(items) && ValidPosition(items, position) && position.item < |items|
    requires used < maxPages
    ensures step.Next? ==>
      PageShows(view, items, limit, position, step.page, count) && step.position == After(items, position, count) &&
      (step.page.complete || used + 1 < maxPages)
    ensures step == Stop(RecordExceedsBudget) ==>
      !FinalFits(view, items, limit, position) &&
      (Remaining(items, position) == 1 || !PartialFits(view, items, limit, position, 1))
    ensures step.Stop? && step.code != RecordExceedsBudget ==>
      step.code == BudgetExceeded && !FinalFits(view, items, limit, position) && used + 1 >= maxPages
  {
    hide PageText, Segments, After, ValidItems, SomeUnits, ValidSegments, RowsOf;
    var remaining := RemainingReadUnits(items, position);
    var allSegments, end, _ := ReadSegments(items, position, remaining);
    var finalPage := NewReadPage(items, allSegments, limit, true);
    var fits := ReadPageFits(view, items, finalPage, []);
    if fits {
      return Next(finalPage, end), remaining;
    }
    var oneSegment, _, _ := ReadSegments(items, position, 1);
    var onePage := NewReadPage(items, oneSegment, limit, false);
    PlaceholderIsCursor();
    var oneFits := ReadPageFits(view, items, onePage, PLACEHOLDER);
    if !oneFits || remaining == 1 {
      return Stop(RecordExceedsBudget), 0;
    }
    if used + 1 >= maxPages {
      return Stop(BudgetExceeded), 0;
    }
    var low := LongestPartial(view, items, limit, position, remaining);
    var segments, next, _ := ReadSegments(items, position, low);
    var page := NewReadPage(items, segments, limit, false);
    return Next(page, next), low;
  }

  // Succeeds exactly when some split into at most `maxPages` fitting pages exists, and then with
  // the fewest pages, which show every unit once and in order.
  method PlanRead(view: View, items: seq<Item>, effectiveBytes: nat, maxPages: nat) returns (plan: Plan)
    ensures plan == Refused(InvalidInput) <==> !ValidItems(items, view) || effectiveBytes == 0 || maxPages == 0
    ensures plan != Refused(InvalidInput) ==>
      SomeUnits(items) &&
      var limit := if effectiveBytes > OUTPUT_MAX_BYTES then OUTPUT_MAX_BYTES else effectiveBytes;
      && (plan.Planned? <==> CanSplit(view, items, limit, Position(0, 0), maxPages))
      && (plan.Planned? ==>
            Chain(view, items, limit, Position(0, 0), plan.pages, Position(|items|, 0)) &&
            (forall m: nat :: CanSplit(view, items, limit, Position(0, 0), m) ==> |plan.pages| <= m))
      && (plan == Refused(RecordExceedsBudget) ==> forall m: nat :: !CanSplit(view, items, limit, Position(0, 0), m))
  {
    hide CanSplit, Chain, PartialFits, FinalFits, PageShows, After, Remaining, ValidItems, SomeUnits;
    if !ValidItems(items, view) || effectiveBytes == 0 || maxPages == 0 {
      return Refused(InvalidInput);
    }
    ItemsHaveUnits(view, items);
    var limit := if effectiveBytes > OUTPUT_MAX_BYTES then OUTPUT_MAX_BYTES else effectiveBytes;
    var start := Position(0, 0);
    var position := start;
    var pages: seq<Page> := [];
    NothingYet(view, items, limit);
    while position.item < |items|
      invariant ValidPosition(items, position) && |pages| <= maxPages
      invariant position.item < |items| ==> |pages| < maxPages
      invariant position.item == |items| ==> pages != []
      invariant Chain(view, items, limit, start, pages, position)
      invariant forall m: nat :: CanSplit(view, items, limit, start, m) ==>
                  |pages| <= m && (position.item < |items| ==> CanSplit(view, items, limit, position, m - |pages|))
      decreases Remaining(items, position)
    {
      var step, count := PlanPage(view, items, limit, position, |pages|, maxPages);
      if step.Stop? {
        forall m: nat | step.code == RecordExceedsBudget
          || m <= maxPages ensures !CanSplit(view, items, limit, start, m) {
          if CanSplit(view, items, limit, start, m) {
            StoppedHasNoSplit(view, items, limit, position, m - |pages|, step.code);
          }
        }
        return Refused(step.code);
      }
      CountBound(view, items, limit, position, step.page, count);
      ChainAppend(view, items, limit, start, pages, position, step.page, count);
      forall m: nat | CanSplit(view, items, limit, start, m)
        ensures |pages| + 1 <= m
        ensures step.position.item < |items| ==> CanSplit(view, items, limit, step.position, m - |pages| - 1) {
        NextKeepsSplits(view, items, limit, position, step.page, count, m - |pages|);
      }
      PageEnds(view, items, limit, position, step.page, count);
      pages := pages + [step.page];
      position := step.position;
    }
    ChainSplits(view, items, limit, start, pages);
    EnoughPages(view, items, limit, start, |pages|, maxPages);
    return Planned(pages);
  }

  lemma NothingYet(view: View, items: seq<Item>, limit: nat)
    requires SomeUnits(items) && ValidItems(items, view)
    ensures ValidPosition(items, Position(0, 0)) && Chain(view, items, limit, Position(0, 0), [], Position(0, 0))
    ensures |items| > 0
  {
  }

  // Nothing is left after a page exactly when it is complete.
  lemma PageEnds(view: View, items: seq<Item>, limit: nat, p: Position, page: Page, count: nat)
    requires SomeUnits(items) && ValidPosition(items, p) && PageShows(view, items, limit, p, page, count)
    ensures count <= Remaining(items, p) && (After(items, p, count).item == |items| <==> page.complete)
  {
  }

  lemma NextKeepsSplits(view: View, items: seq<Item>, limit: nat, p: Position, page: Page, count: nat, m: nat)
    requires ValidItems(items, view) && SomeUnits(items) && ValidPosition(items, p)
    requires PageShows(view, items, limit, p, page, count) && CanSplit(view, items, limit, p, m)
    ensures m > 0
    ensures After(items, p, count).item < |items| ==> CanSplit(view, items, limit, After(items, p, count), m - 1)
  {
    hide PartialFits, FinalFits, After;
    PageEnds(view, items, limit, p, page, count);
    if !page.complete {
      GreedyKeepsSplits(view, items, limit, p, count, m);
    }
  }

  lemma StoppedHasNoSplit(view: View, items: seq<Item>, limit: nat, p: Position, m: nat, code: Code)
    requires ValidItems(items, view) && SomeUnits(items) && ValidPosition(items, p) && p.item < |items|
    requires !FinalFits(view, items, limit, p)
    requires if code == RecordExceedsBudget then Remaining(items, p) == 1 || !PartialFits(view, items, limit, p, 1)
             else m <= 1
    ensures !CanSplit(view, items, limit, p, m)
  {
    hide PartialFits, FinalFits;
    if code == RecordExceedsBudget {
      StuckHasNoSplit(view, items, limit, p, m);
    }
  }

  lemma {:induction false} EnoughPages(view: View, items: seq<Item>, limit: nat, p: Position, m: nat, n: nat)
    requires SomeUnits(items) && ValidPosition(items, p) && m <= n && CanSplit(view, items, limit, p, m)
    ensures CanSplit(view, items, limit, p, n)
    decreases n
  {
    hide CanSplit;
    if m < n {
      EnoughPages(view, items, limit, p, m, n - 1);
      MorePages(view, items, limit, p, n - 1);
    }
  }

  // ---- What the pages show ----

  // The positions of a run, one by one.
  function Run(items: seq<Item>, p: Position, count: nat): (run: seq<Position>)
    requires SomeUnits(items) && ValidPosition(items, p) && count <= Remaining(items, p)
    ensures |run| == count
    decreases count
  {
    if count == 0 then [] else [p] + Run(items, After(items, p, 1), count - 1)
  }

  // The positions that a page's segments show.
  function Shown(segments: seq<Segment>): seq<Position> {
    if segments == [] then []
    else if segments[0].start < segments[0].end then
      var s := segments[0];
      seq(s.end - s.start, k requires 0 <= k => Position(s.item, s.start + k)) + Shown(segments[1..])
    else Shown(segments[1..])
  }

  function ShownBy(pages: seq<Page>): seq<Position> {
    if pages == [] then [] else Shown(pages[0].segments) + ShownBy(pages[1..])
  }

  lemma {:induction false} RunJoins(items: seq<Item>, p: Position, a: nat, b: nat)
    requires SomeUnits(items) && ValidPosition(items, p) && a + b <= Remaining(items, p)
    ensures Run(items, p, a + b) == Run(items, p, a) + Run(items, After(items, p, a), b)
    decreases a
  {
    hide After, Remaining;
    if a == 0 {
      AfterNone(items, p);
      assert [] + Run(items, p, b) == Run(items, p, b);
    } else {
      RunJoins(items, After(items, p, 1), a - 1, b);
      AfterAdds(items, p, 1, a - 1);
    }
  }

  lemma {:induction false} RunWithin(items: seq<Item>, p: Position, count: nat)
    requires SomeUnits(items) && ValidPosition(items, p) && p.item < |items|
    requires count <= Units(items[p.item]) - p.offset && count <= Remaining(items, p)
    ensures Run(items, p, count) == seq(count, k requires 0 <= k => Position(p.item, p.offset + k))
    decreases count
  {
    if count > 1 {
      AfterOne(items, p);
      RunWithin(items, Position(p.item, p.offset + 1), count - 1);
    }
  }

  lemma {:induction false} SegmentsShowRun(items: seq<Item>, p: Position, count: nat)
    requires SomeUnits(items) && ValidPosition(items, p) && count <= Remaining(items, p)
    ensures Shown(Segments(items, p, count)) == Run(items, p, count)
    decreases count
  {
    hide Segments, After, Remaining;
    if count == 0 {
      NoSegments(items, p);
    } else {
      var taken := Take(items, p, count);
      CutOnce(items, p, count);
      TakeIsAfter(items, p, count);
      var next := After(items, p, taken);
      SegmentsShowRun(items, next, count - taken);
      RunWithin(items, p, taken);
      RunJoins(items, p, taken, count - taken);
      var s := Segment(p.item, p.offset, p.offset + taken);
      assert ([s] + Segments(items, next, count - taken))[1..] == Segments(items, next, count - taken);
    }
  }

  lemma TakeIsAfter(items: seq<Item>, p: Position, count: nat)
    requires SomeUnits(items) && ValidPosition(items, p) && p.item < |items| && 0 < count <= Remaining(items, p)
    ensures
      var taken := Take(items, p, count);
      && taken <= count && taken <= Units(items[p.item]) - p.offset
      && After(items, p, taken) ==
           if p.offset + taken == Units(items[p.item]) then Position(p.item + 1, 0)
             else Position(p.item, p.offset + taken)
  {
  }

  // The pages of a plan together show every unit of every item exactly once, in order.
  lemma {:induction false} PlanCovers(view: View, items: seq<Item>, limit: nat, p: Position, pages: seq<Page>)
    requires SomeUnits(items) && ValidPosition(items, p)
    requires Chain(view, items, limit, p, pages, Position(|items|, 0))
    ensures ShownBy(pages) == Run(items, p, Remaining(items, p))
    decreases |pages|
  {
    hide PageShows, After, Segments, Run, Shown, Remaining;
    if pages == [] {
      NothingLeft(items);
    } else {
      var c: nat :| PageShows(view, items, limit, p, pages[0], c) &&
                    Chain(view, items, limit, After(items, p, c), pages[1..], Position(|items|, 0));
      PageShowsRun(view, items, limit, p, pages[0], c);
      PlanCovers(view, items, limit, After(items, p, c), pages[1..]);
      RunJoins(items, p, c, Remaining(items, p) - c);
    }
  }

  lemma NothingLeft(items: seq<Item>)
    requires SomeUnits(items)
    ensures Remaining(items, Position(|items|, 0)) == 0 && Run(items, Position(|items|, 0), 0) == []
  {
  }

  lemma PageShowsRun(view: View, items: seq<Item>, limit: nat, p: Position, page: Page, count: nat)
    requires SomeUnits(items) && ValidPosition(items, p) && PageShows(view, items, limit, p, page, count)
    ensures count <= Remaining(items, p) && Shown(page.segments) == Run(items, p, count)
  {
    hide PartialFits, FinalFits;
    SegmentsShowRun(items, p, count);
  }

  // ---- Rendering with the real cursor ----

  // A planned page fits with whatever cursor it is given in the end.
  lemma AnyCursorFits(view: View, items: seq<Item>, segments: seq<Segment>, cursor: Text)
    requires ValidSegments(items, segments) && |cursor| == CURSOR_LENGTH
    ensures |PageText(view, items, segments, false, cursor)| == |PageText(view, items, segments, false, PLACEHOLDER)|
  {
    hide BlocksText;
    BlocksLength(PageHead(view, false, |segments|, cursor), items, segments);
    BlocksLength(PageHead(view, false, |segments|, PLACEHOLDER), items, segments);
  }
  // The page fits its limit with the placeholder, as every page of a plan does.
  predicate Fitted(view: View, items: seq<Item>, page: Page)
    requires ValidSegments(items, page.segments)
  {
    |PageText(view, items, page.segments, page.complete, if page.complete then [] else PLACEHOLDER)| <= page.maxBytes
  }

  lemma {:induction false} PlannedFits(view: View, items: seq<Item>, limit: nat, p: Position, pages: seq<Page>,
                                       q: Position, k: nat)
    requires SomeUnits(items) && ValidPosition(items, p) && ValidPosition(items, q)
    requires Chain(view, items, limit, p, pages, q) && k < |pages|
    ensures ValidSegments(items, pages[k].segments) && Fitted(view, items, pages[k])
    decreases |pages|
  {
    hide PageText, After, Segments;
    var c: nat :| PageShows(view, items, limit, p, pages[0], c) &&
                  Chain(view, items, limit, After(items, p, c), pages[1..], q);
    if k > 0 {
      PlannedFits(view, items, limit, After(items, p, c), pages[1..], q, k - 1);
    }
  }

  // Renders one page of a plan and checks the result. The cursor is all that can be wrong with it.
  method Render(view: View, items: seq<Item>, page: Page, cursor: Text) returns (r: Option<Text>)
    requires ValidItems(items, view) && ValidSegments(items, page.segments) && Fitted(view, items, page)
    ensures r.Some? <==> ValidStatusCursor(page.complete, cursor)
    ensures r.Some? ==>
      r.value == PageText(view, items, page.segments, page.complete, cursor) && ValidResult(r.value)
    ensures r.Some? ==>
      ReadBack.ReadPageBack(r.value)
        == [ReadBack.PageEntry(view, page.complete, |page.segments|, cursor)]
          + ReadBack.SegmentEntries(items, page.segments)
  {
    hide PageText, ValidItems, ValidResult;
    if !page.complete && ValidCursor(cursor) {
      AnyCursorFits(view, items, page.segments, cursor);
    }
    var text, ok := RenderReadMaterial(view, items, page.segments, page.maxBytes, page.complete, cursor);
    if !ok {
      return None;
    }
    PageIsValidResult(view, items, page.segments, page.complete, cursor);
    ReadBack.PageReadsBack(view, items, page.segments, page.complete, cursor);
    if !ValidResult(text) {
      return None;
    }
    return Some(text);
  }
}
