// The order of result rows and of traversal units: texts byte by byte, then the fields that
// tell rows of one path apart.
module RowOrder {
  import opened TextOrder

  // ".", the path of a traversal's own root.
  const ROOT: Text := [0x2E]

  // ---- Rows ----

  // Project entries, or the rows of one search mode.
  datatype Family = ProjectEntries | SearchFiles | SearchTexts | SearchSymbols

  datatype RowKind = RowDirectory | RowFile | RowTextMatch | RowTextContext | RowSymbol

  datatype Row = Row(kind: RowKind, path: Text, line: nat, text: Text, start: nat, end: nat, symbolKind: Text,
                     name: Text)

  function Category(kind: RowKind): nat {
    match kind
    case RowTextMatch => 1
    case RowTextContext => 1
    case RowSymbol => 2
    case RowDirectory => 3
    case RowFile => 3
  }

  // The kinds of one category, in order.
  function Rank(kind: RowKind): nat {
    match kind
    case RowTextMatch => 0
    case RowTextContext => 1
    case RowSymbol => 0
    case RowDirectory => 0
    case RowFile => 1
  }

  function CompareRows(l: Row, r: Row): (c: int) {
    First(CompareText(l.path, r.path),
          First(Sign(Category(l.kind) - Category(r.kind)), CompareWithin(l, r)))
  }

  // Rows of one path and category.
  function CompareWithin(l: Row, r: Row): (c: int) {
    match Category(l.kind)
    case 1 => First(Sign(l.line - r.line), First(Sign(Rank(l.kind) - Rank(r.kind)), CompareText(l.text, r.text)))
    case 2 => First(Sign(l.start - r.start),
                    First(Sign(l.end - r.end),
                          First(CompareText(l.symbolKind, r.symbolKind), CompareText(l.name, r.name))))
    case _ => Sign(Rank(l.kind) - Rank(r.kind))
  }

  // Rows as a mode emits them: the fields of other families are unset.
  predicate ValidRow(r: Row) {
    match Category(r.kind)
    case 1 => r.start == 0 && r.end == 0 && r.symbolKind == [] && r.name == []
    case 2 => r.line == 0 && r.text == []
    case _ => r.line == 0 && r.text == [] && r.start == 0 && r.end == 0 && r.symbolKind == [] && r.name == []
  }

  // Rows compare equal exactly when they are the same row.
  lemma RowZero(l: Row, r: Row)
    requires ValidRow(l) && ValidRow(r)
    ensures CompareRows(l, r) == 0 <==> l == r
  {
    TextZero(l.path, r.path);
    TextZero(l.text, r.text);
    TextZero(l.symbolKind, r.symbolKind);
    TextZero(l.name, r.name);
  }

  lemma RowFlips(l: Row, r: Row)
    ensures Sign(CompareRows(r, l)) == -Sign(CompareRows(l, r))
  {
    TextFlips(l.path, r.path);
    TextFlips(l.text, r.text);
    TextFlips(l.symbolKind, r.symbolKind);
    TextFlips(l.name, r.name);
  }

  lemma RowChains(a: Row, b: Row, c: Row)
    requires CompareRows(a, b) < 0 && CompareRows(b, c) < 0
    ensures CompareRows(a, c) < 0
  {
    TextsInOrder(a.path, b.path, c.path);
    if CompareText(a.path, b.path) == 0 && CompareText(b.path, c.path) == 0 &&
       Category(a.kind) == Category(b.kind) && Category(b.kind) == Category(c.kind) {
      WithinChains(a, b, c);
    }
  }

  lemma WithinChains(a: Row, b: Row, c: Row)
    requires Category(a.kind) == Category(b.kind) == Category(c.kind)
    requires CompareWithin(a, b) < 0 && CompareWithin(b, c) < 0
    ensures CompareWithin(a, c) < 0
  {
    if CompareText(a.text, b.text) <= 0 && CompareText(b.text, c.text) <= 0 {
      TextsInOrder(a.text, b.text, c.text);
    }
    if CompareText(a.symbolKind, b.symbolKind) <= 0 && CompareText(b.symbolKind, c.symbolKind) <= 0 {
      TextsInOrder(a.symbolKind, b.symbolKind, c.symbolKind);
    }
    if CompareText(a.name, b.name) <= 0 && CompareText(b.name, c.name) <= 0 {
      TextsInOrder(a.name, b.name, c.name);
    }
  }

  // ---- Sorted rows ----

  // Strictly ascending rows, which therefore have no duplicates.
  predicate Ascending(rows: seq<Row>) {
    forall i, j :: 0 <= i < j < |rows| ==> CompareRows(rows[i], rows[j]) < 0
  }

  predicate AllValid(rows: seq<Row>) {
    forall k :: 0 <= k < |rows| ==> ValidRow(rows[k])
  }

  // Puts a row in its place; a row that is there already is not added again.
  function Insert(row: Row, rows: seq<Row>): (s: seq<Row>) {
    if rows == [] then [row]
    else if CompareRows(row, rows[0]) < 0 then [row] + rows
    else if CompareRows(row, rows[0]) == 0 then rows
    else [rows[0]] + Insert(row, rows[1..])
  }

  // The rows in order, each once.
  function Canonical(rows: seq<Row>): (s: seq<Row>) {
    if rows == [] then [] else Insert(rows[|rows| - 1], Canonical(rows[..|rows| - 1]))
  }

  lemma {:induction false} InsertAscends(row: Row, rows: seq<Row>)
    requires ValidRow(row) && AllValid(rows) && Ascending(rows)
    ensures Ascending(Insert(row, rows)) && AllValid(Insert(row, rows))
    ensures forall r :: r in Insert(row, rows) <==> r == row || r in rows
  {
    hide CompareRows, ValidRow;
    if rows != [] {
      RowZero(row, rows[0]);
      RowFlips(row, rows[0]);
      if CompareRows(row, rows[0]) < 0 {
        forall k | 0 < k < |rows| ensures CompareRows(row, rows[k]) < 0 {
          RowChains(row, rows[0], rows[k]);
        }
      } else if CompareRows(row, rows[0]) > 0 {
        InsertAscends(row, rows[1..]);
        var rest := Insert(row, rows[1..]);
        forall k | 0 <= k < |rest| ensures CompareRows(rows[0], rest[k]) < 0 {
          assert rest[k] == row || rest[k] in rows[1..];
        }
      }
    }
  }

  lemma {:induction false} CanonicalAscends(rows: seq<Row>)
    requires AllValid(rows)
    ensures Ascending(Canonical(rows)) && AllValid(Canonical(rows))
    ensures forall r :: r in Canonical(rows) <==> r in rows
  {
    if rows != [] {
      var front := rows[..|rows| - 1];
      CanonicalAscends(front);
      InsertAscends(rows[|rows| - 1], Canonical(front));
      assert rows == front + [rows[|rows| - 1]];
    }
  }

  // Ascending rows are determined by which rows they are.
  lemma {:induction false} AscendingUnique(a: seq<Row>, b: seq<Row>)
    requires Ascending(a) && Ascending(b) && AllValid(a) && AllValid(b)
    requires forall r :: r in a <==> r in b
    ensures a == b
  {
    hide CompareRows, ValidRow;
    assert a != [] ==> a[0] in a;
    assert b != [] ==> b[0] in b;
    if a != [] && b != [] {
      HeadsAgree(a, b);
      forall r ensures r in a[1..] <==> r in b[1..] {
        NotAgain(a, r);
        NotAgain(b, r);
      }
      AscendingUnique(a[1..], b[1..]);
      assert a == [a[0]] + a[1..] && b == [b[0]] + b[1..];
    }
  }

  lemma HeadsAgree(a: seq<Row>, b: seq<Row>)
    requires a != [] && b != [] && Ascending(a) && Ascending(b) && AllValid(a) && AllValid(b)
    requires forall r :: r in a <==> r in b
    ensures a[0] == b[0]
  {
    hide CompareRows, ValidRow;
    assert a[0] in b && b[0] in a;
    var i :| 0 <= i < |b| && b[i] == a[0];
    var j :| 0 <= j < |a| && a[j] == b[0];
    RowFlips(a[0], b[0]);
  }

  lemma NotAgain(a: seq<Row>, r: Row)
    requires a != [] && Ascending(a) && AllValid(a)
    ensures r in a[1..] <==> r in a && r != a[0]
  {
    RowZero(a[0], a[0]);
  }
}
