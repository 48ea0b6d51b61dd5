// The page builder of project and search (internal/present/builder.go): a unit is tried, then
// committed, and the page is finalized when no more fit.
module PageBuilder {
  import opened Wrappers
  import opened TextOrder
  import opened PageFields
  import opened ResultText
  import opened RowOrder
  import opened BroadWarnings
  import opened BroadPage

  datatype Fit = Fits | NextPage | IntrinsicOverflow

  datatype Candidate = Candidate(family: Family, row: Row)

  // Units come from their constructors alone, which check them.
  type Unit = c: Candidate | ValidUnit(c.family, c.row)
    witness Candidate(ProjectEntries, Row(RowDirectory, ROOT, 0, [], 0, 0, [], []))

  // The row may stand after the others.
  predicate Follows(family: Family, rows: seq<Row>, row: Row) {
    rows == [] || CompareShown(family, rows[|rows| - 1], row) < 0
  }

  lemma FollowsIsValid(family: Family, rows: seq<Row>, row: Row)
    requires ValidUnits(family, rows) && ValidUnit(family, row)
    ensures ValidUnits(family, rows + [row]) <==> Follows(family, rows, row)
    ensures ValidUnits(family, [row])
  {
    hide ValidUnit, CompareShown;
    var longer := rows + [row];
    if ValidUnits(family, longer) && rows != [] {
      assert CompareShown(family, longer[|rows| - 1], longer[|rows|]) < 0;
    }
  }

  // A row that may follow is none of those on the page.
  lemma FollowingIsNew(family: Family, rows: seq<Row>, row: Row)
    requires ValidUnits(family, rows) && ValidUnit(family, row) && Follows(family, rows, row)
    ensures row !in rows
  {
    hide ValidUnits, CompareShown;
    FollowsIsValid(family, rows, row);
    forall k | 0 <= k < |rows| ensures rows[k] != row {
      UnitsAscend(family, rows + [row], k, |rows|);
    }
  }

  class Builder {
    const subject: Subject
    const maxBytes: nat
    var rows: seq<Row>
    var pending: Option<Unit>
    var pendingFit: Fit
    var invalid: bool

    // The rows are in order and fit a partial page, and so does the row that was found to fit.
    ghost predicate Valid()
      reads this
    {
      && ValidSubject(subject) && 0 < maxBytes <= OUTPUT_MAX_BYTES
      && ValidUnits(FamilyOf(subject), rows)
      && (rows != [] ==> PartialSize(subject, rows) <= maxBytes)
      && (pending.Some? && pendingFit == Fits ==> Room(pending.value))
    }

    // One more row is in order and fits.
    predicate Room(unit: Unit)
      reads this
    {
      && unit.family == FamilyOf(subject) && Follows(unit.family, rows, unit.row)
      && PartialSize(subject, rows + [unit.row]) <= maxBytes
    }

    constructor (subject: Subject, maxBytes: nat)
      requires ValidSubject(subject) && 0 < maxBytes <= OUTPUT_MAX_BYTES
      ensures Valid() && rows == [] && pending == None && !invalid
      ensures this.subject == subject && this.maxBytes == maxBytes
    {
      this.subject, this.maxBytes := subject, maxBytes;
      rows, pending, pendingFit, invalid := [], None, IntrinsicOverflow, false;
    }

    // newProjectBuilder and newSearchBuilder.
    static method New(subject: Subject, maxBytes: nat) returns (r: Option<Builder>)
      ensures r.Some? <==> ValidSubject(subject) && 0 < maxBytes <= OUTPUT_MAX_BYTES
      ensures r.Some? ==> fresh(r.value) && r.value.Valid() && r.value.rows == [] && r.value.Settled()
      ensures r.Some? ==> r.value.subject == subject && r.value.maxBytes == maxBytes
    {
      if !ValidSubject(subject) || maxBytes == 0 || maxBytes > OUTPUT_MAX_BYTES {
        return None;
      }
      var builder := new Builder(subject, maxBytes);
      return Some(builder);
    }

    // Renders a page of these rows and checks the result.
    method Render(rows: seq<Row>, complete: bool, cursor: Text, summary: seq<Warning>) returns (r: Option<Text>)
      ensures r.Some? <==>
        Presentable(subject, rows, complete, cursor, summary)
          && |PageText(subject, rows, complete, cursor, summary)| <= maxBytes
      ensures r.Some? ==> r.value == PageText(subject, rows, complete, cursor, summary) && ValidResult(r.value)
    {
      hide Presentable, PageText;
      var text := RenderLimit(subject, rows, complete, cursor, summary, maxBytes);
      if text.None? {
        return None;
      }
      PageIsValidResult(subject, rows, complete, cursor, summary);
      if !ValidResult(text.value) {
        return None;
      }
      return text;
    }

    // Whether a unit fits below the rows, must wait for the next page, or fits no page at all. A
    // row out of order waits; only its size can keep a row off every page.
    method Try(unit: Unit) returns (fit: Fit)
      requires Valid()
      modifies this`pending, this`pendingFit, this`invalid
      ensures Valid() && invalid == (old(invalid) || unit.family != FamilyOf(subject))
      ensures invalid ==> fit == IntrinsicOverflow && pending == old(pending) && pendingFit == old(pendingFit)
      ensures !invalid ==> pending == Some(unit) && pendingFit == fit
      ensures !invalid ==>
        (fit == Fits <==> Follows(unit.family, rows, unit.row) && PartialSize(subject, rows + [unit.row]) <= maxBytes)
      ensures !invalid ==> (fit == IntrinsicOverflow <==> PartialSize(subject, [unit.row]) > maxBytes)
      ensures fit == Fits ==> unit.row !in rows
      ensures rows == [] ==> fit != NextPage
    {
      hide PartialSize, ValidUnit, ValidUnits, Follows, PageText, ValidSubject;
      if invalid || unit.family != FamilyOf(subject) {
        invalid := true;
        return IntrinsicOverflow;
      }
      FollowsIsValid(unit.family, rows, unit.row);
      PartialGrows(subject, rows, unit.row) by { PathOf(unit); }
      PlaceholderIsCursor();
      assert rows == [] ==>
        rows + [unit.row] == [unit.row] && Follows(unit.family, rows, unit.row) by { FirstFollows(unit); }
      fit := IntrinsicOverflow;
      var longer := Render(rows + [unit.row], false, PLACEHOLDER, []);
      SizeOf(rows + [unit.row]);
      SizeOf([unit.row]);
      if longer.Some? {
        fit := Fits;
        FollowingIsNew(unit.family, rows, unit.row);
      } else {
        var alone := Render([unit.row], false, PLACEHOLDER, []);
        if alone.Some? {
          fit := NextPage;
        }
      }
      pending := Some(unit);
      pendingFit := fit;
    }

    static lemma PathOf(unit: Unit)
      ensures unit.row.path != []
    {
    }

    lemma FirstFollows(unit: Unit)
      ensures Follows(unit.family, [], unit.row)
    {
    }

    // A page with the placeholder is presentable when its rows are in order.
    lemma SizeOf(rows: seq<Row>)
      requires ValidSubject(subject)
      ensures ValidSummary(false, [])
      ensures PartialSize(subject, rows) == |PageText(subject, rows, false, PLACEHOLDER, [])|
      ensures Presentable(subject, rows, false, PLACEHOLDER, []) <==> ValidUnits(FamilyOf(subject), rows)
    {
      hide PageText, ValidUnits, ValidSubject;
      PlaceholderIsCursor();
    }

    // Only the unit that was just found to fit may be committed; anything else spoils the page.
    method Commit(unit: Unit)
      requires Valid()
      modifies this
      ensures Valid()
      ensures
        if !old(invalid) && old(pending) == Some(unit) && old(pendingFit) == Fits
        then rows == old(rows) + [unit.row] && pending == None && !invalid
        else rows == old(rows) && pending == old(pending) && pendingFit == old(pendingFit) && invalid
    {
      hide PartialSize, ValidUnit, ValidUnits, Follows, ValidSubject;
      if invalid || pending != Some(unit) || pendingFit != Fits {
        invalid := true;
        return;
      }
      FollowsIsValid(unit.family, rows, unit.row);
      rows := rows + [unit.row];
      pending := None;
    }

    // The length of a complete page.
    function CompleteSize(rows: seq<Row>, summary: seq<Warning>): nat
      requires ValidSummary(true, summary)
    {
      |PageText(subject, rows, true, [], summary)|
    }

    // Whether the closing summary fits below the rows or needs a page of its own. Below the
    // program's output limit every summary has a page.
    method TrySummary(summary: seq<Warning>) returns (fit: Fit)
      requires Valid()
      ensures fit == Fits <==> !invalid && ValidSummary(true, summary) && CompleteSize(rows, summary) <= maxBytes
      ensures fit == IntrinsicOverflow <==>
        invalid || !ValidSummary(true, summary) || CompleteSize([], summary) > maxBytes
      ensures maxBytes == OUTPUT_MAX_BYTES ==> (fit == IntrinsicOverflow <==> invalid || !ValidSummary(true, summary))
      ensures rows == [] ==> fit != NextPage
    {
      hide PageText, ValidUnits, ValidSummary, ValidSubject, PartialSize;
      if invalid {
        return IntrinsicOverflow;
      }
      if ValidSummary(true, summary) {
        SummaryAlone(subject, rows, summary);
        EmptyPageFits(subject, true, [], summary);
      }
      NoUnits();
      var beside := Render(rows, true, [], summary);
      if beside.Some? {
        return Fits;
      }
      var alone := Render([], true, [], summary);
      return if alone.Some? then NextPage else IntrinsicOverflow;
    }

    lemma NoUnits()
      ensures ValidUnits(FamilyOf(subject), [])
    {
    }

    // A unit that fits and is not committed bars the page.
    predicate Settled()
      reads this
    {
      !invalid && !(pending.Some? && pendingFit == Fits)
    }

    // The page, if it is settled, its cursor and its summary are valid, and it fits.
    method Finalize(complete: bool, cursor: Text, summary: seq<Warning>) returns (r: Option<Text>)
      requires Valid()
      ensures r.Some? <==>
        && Settled() && ValidStatusCursor(complete, cursor) && ValidSummary(complete, summary)
        && |PageText(subject, rows, complete, cursor, summary)| <= maxBytes
      ensures r.Some? ==> r.value == PageText(subject, rows, complete, cursor, summary) && ValidResult(r.value)
    {
      hide PageText, ValidUnits, ValidSummary, ValidSubject, PartialSize, ValidStatusCursor;
      if invalid || (pending.Some? && pendingFit == Fits) {
        return None;
      }
      r := Render(rows, complete, cursor, summary);
    }

    // A partial page stands with every cursor it may get: if it holds something, or below the
    // program's output limit in any case.
    lemma PartialPageStands(cursor: Text)
      requires Valid() && ValidCursor(cursor) && (rows != [] || maxBytes == OUTPUT_MAX_BYTES)
      ensures ValidSummary(false, []) && |PageText(subject, rows, false, cursor, [])| <= maxBytes
    {
      hide PageText, ValidUnits, ValidSubject, ValidCursor;
      CursorIsFree(subject, rows, cursor);
      if rows == [] {
        EmptyPageFits(subject, false, cursor, []);
      }
    }

    // So does the complete page of the same rows.
    lemma CompletePageStands()
      requires Valid() && (rows != [] || maxBytes == OUTPUT_MAX_BYTES)
      ensures ValidSummary(true, []) && |PageText(subject, rows, true, [], [])| <= maxBytes
    {
      hide PageText, ValidUnits, ValidSubject, ValidCursor;
      PlaceholderIsCursor();
      PartialPageStands(PLACEHOLDER);
      CompleteIsSmaller(subject, rows);
    }
  }

  // The end of a project or search call whose rows are all on the page (finishInitial and
  // computeDynamic in internal/navigation/dynamic.go): the summary of its warnings closes the
  // page, or the page stays partial and its cursor leads to a page with the summary alone. With
  // a valid summary neither page can fail.
  method ClosePages(builder: Builder, summary: seq<Warning>, cursor: Text)
    returns (page: Option<Text>, last: Option<Text>)
    requires builder.Valid() && builder.Settled() && builder.maxBytes == OUTPUT_MAX_BYTES
    requires ValidSummary(true, summary) && ValidCursor(cursor)
    ensures page.Some?
    ensures
      if |PageText(builder.subject, builder.rows, true, [], summary)| <= OUTPUT_MAX_BYTES
      then page.value == PageText(builder.subject, builder.rows, true, [], summary) && last == None
      else page.value == PageText(builder.subject, builder.rows, false, cursor, []) &&
           last == Some(PageText(builder.subject, [], true, [], summary))
  {
    hide PageText, ValidUnits, ValidSubject, ValidCursor;
    last := None;
    builder.PartialPageStands(cursor);
    EmptyPageFits(builder.subject, true, [], summary);
    var fit := builder.TrySummary(summary);
    if fit == Fits {
      page := builder.Finalize(true, [], summary);
    } else {
      page := builder.Finalize(false, cursor, []);
      var next := Builder.New(builder.subject, OUTPUT_MAX_BYTES);
      if next.Some? {
        last := next.value.Finalize(true, [], summary);
      }
    }
  }
}
